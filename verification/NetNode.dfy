/** Receiving at a peer: messages grow in place in a list as chunks of the stream arrive. */
module NetNode {
  import opened Helpers
  import opened NetMessages

  class CNetMessage {
    var in_data: bool
    var hdrbuf: seq<byte>
    var nMessageSize: nat
    var nHdrPos: nat
    var vRecv: seq<byte>
    var nDataPos: nat

    constructor ()
      ensures Valid() && Value() == Message([], [])
    {
      in_data, nMessageSize, nHdrPos, nDataPos := false, 0, 0, 0;
      hdrbuf := seq(HEADER_SIZE, i => 0);
      vRecv := [];
    }

    // A message that has not been refused.
    ghost predicate Valid()
      reads this
    {
      && |hdrbuf| == HEADER_SIZE && nHdrPos <= HEADER_SIZE && nDataPos <= |vRecv|
      && (in_data <==> nHdrPos == HEADER_SIZE)
      && (in_data ==> nMessageSize == MessageSize(hdrbuf) <= MAX_PROTOCOL_MESSAGE_LENGTH && |vRecv| <= nMessageSize)
      && (!in_data ==> nDataPos == 0 && vRecv == [])
    }

    ghost function Value(): (r: Message)
      requires nHdrPos <= |hdrbuf| && nDataPos <= |vRecv|
      reads this
    {
      Message(hdrbuf[..nHdrPos], vRecv[..nDataPos])
    }

    ghost predicate Holds(m: Message)
      reads this
    {
      nHdrPos <= |hdrbuf| && nDataPos <= |vRecv| && m == Value()
    }

    predicate complete()
      reads this
    {
      in_data && nMessageSize == nDataPos
    }

    // The receive buffer runs ahead of the data, but a complete message holds exactly its data.
    lemma CompleteIsExact()
      requires Valid()
      ensures complete() == Complete(Value())
      ensures complete() ==> vRecv == Value().data
    {}

    // Copies what the header still needs; -1 refuses a message larger than MAX_SIZE.
    method readHeader(pch: seq<byte>) returns (handled: int)
      requires Valid() && !in_data
      modifies this
      ensures var nCopy, was := Min(HEADER_SIZE - old(nHdrPos), |pch|), old(Value());
        && |hdrbuf| == HEADER_SIZE && nHdrPos == old(nHdrPos) + nCopy <= HEADER_SIZE && nDataPos == 0 && vRecv == []
        && Value() == Message(was.header + pch[..nCopy], [])
        && (nHdrPos == HEADER_SIZE ==> hdrbuf == was.header + pch[..nCopy])
        && handled == (if nHdrPos == HEADER_SIZE && MessageSize(hdrbuf) > MAX_SIZE then -1 else nCopy)
        && (in_data <==> nHdrPos == HEADER_SIZE && handled >= 0)
        && (in_data ==> nMessageSize == MessageSize(hdrbuf))
    {
      var nRemaining := HEADER_SIZE - nHdrPos;
      var nCopy := Min(nRemaining, |pch|);
      ghost var before := hdrbuf[..nHdrPos];
      hdrbuf := hdrbuf[..nHdrPos] + pch[..nCopy] + hdrbuf[nHdrPos + nCopy..];
      nHdrPos := nHdrPos + nCopy;
      assert hdrbuf[..nHdrPos] == before + pch[..nCopy];
      assert nHdrPos == HEADER_SIZE ==> hdrbuf[..nHdrPos] == hdrbuf;
      if nHdrPos < HEADER_SIZE {
        return nCopy;
      }
      nMessageSize := MessageSize(hdrbuf);
      if nMessageSize > MAX_SIZE {
        return -1;
      }
      in_data := true;
      return nCopy;
    }

    // Copies what the data still needs, growing the buffer up to 256 KiB ahead.
    method readData(pch: seq<byte>) returns (handled: nat)
      requires Valid() && in_data
      modifies this
      ensures Valid() && in_data && nMessageSize == old(nMessageSize)
      ensures handled == Min(old(nMessageSize - nDataPos), |pch|)
      ensures Value() == Message(old(Value()).header, old(Value()).data + pch[..handled])
    {
      var nRemaining := nMessageSize - nDataPos;
      var nCopy := Min(nRemaining, |pch|);
      ghost var before := vRecv[..nDataPos];
      if |vRecv| < nDataPos + nCopy {
        var size := Min(nMessageSize, nDataPos + nCopy + 256 * 1024);
        vRecv := vRecv + seq(size - |vRecv|, i => 0);
      }
      assert vRecv[..nDataPos] == before;
      vRecv := vRecv[..nDataPos] + pch[..nCopy] + vRecv[nDataPos + nCopy..];
      nDataPos := nDataPos + nCopy;
      assert vRecv[..nDataPos] == before + pch[..nCopy];
      return nCopy;
    }
  }

  // How many messages are complete, when only the last can be incomplete.
  function Done(messages: seq<Message>): (r: nat)
    ensures r <= |messages| <= r + 1
  {
    if messages == [] || Complete(messages[|messages| - 1]) then |messages| else |messages| - 1
  }

  /* ---- Bytes by command ---- */

  const NET_MESSAGE_COMMAND_OTHER := "*other*"

  // The characters up to the first zero byte.
  function CString(bytes: seq<byte>): (r: string) {
    if bytes == [] || bytes[0] == 0 then "" else [bytes[0] as char] + CString(bytes[1..])
  }

  // What a header names, after the four bytes of the network.
  function Command(header: seq<byte>): (r: string) {
    if |header| < HEADER_SIZE then "" else CString(header[4..])
  }

  lemma {:induction false} CStringIs(bytes: seq<byte>)
    ensures var s := CString(bytes);
      && |s| <= |bytes| && (|s| < |bytes| ==> bytes[|s|] == 0)
      && forall i :: 0 <= i < |s| ==> bytes[i] != 0 && s[i] == bytes[i] as char
  {
    if bytes != [] && bytes[0] != 0 {
      CStringIs(bytes[1..]);
    }
  }

  // The command ends where the first zero byte is, or with the header.
  lemma CommandIs(header: seq<byte>)
    requires |header| == HEADER_SIZE
    ensures var c := Command(header);
      && |c| <= HEADER_SIZE - 4 && (|c| < HEADER_SIZE - 4 ==> header[4 + |c|] == 0)
      && forall i :: 0 <= i < |c| ==> header[4 + i] != 0 && c[i] == header[4 + i] as char
  {
    CStringIs(header[4..]);
    forall i | 0 <= i < |Command(header)|
      ensures header[4 + i] != 0 && Command(header)[i] == header[4 + i] as char
    {
      assert header[4..][i] == header[4 + i];
    }
  }

  function Weight(m: Message): (r: nat) {
    HEADER_SIZE + |m.data|
  }

  // A message is counted under its command if that is a known one, and with the others if not.
  function CountUnder(counts: map<string, nat>, m: Message): (r: string) {
    if Command(m.header) in counts then Command(m.header) else NET_MESSAGE_COMMAND_OTHER
  }

  function Count(counts: map<string, nat>, m: Message): (r: map<string, nat>)
    ensures NET_MESSAGE_COMMAND_OTHER in counts ==> NET_MESSAGE_COMMAND_OTHER in r && r.Keys == counts.Keys
  {
    var i := CountUnder(counts, m);
    if i in counts then counts[i := counts[i] + Weight(m)] else counts
  }

  // The whole message is counted under its command, or with the others, and no other count changes.
  lemma CountIs(counts: map<string, nat>, m: Message)
    requires NET_MESSAGE_COMMAND_OTHER in counts && |m.header| == HEADER_SIZE
    ensures var i := if Command(m.header) in counts then Command(m.header) else "*other*";
      i in counts && Count(counts, m) == counts[i := counts[i] + |m.header| + |m.data|]
  {}

  function CountAll(counts: map<string, nat>, messages: seq<Message>): (r: map<string, nat>)
    ensures NET_MESSAGE_COMMAND_OTHER in counts ==> NET_MESSAGE_COMMAND_OTHER in r && r.Keys == counts.Keys
  {
    if messages == [] then counts
    else Count(CountAll(counts, messages[..|messages| - 1]), messages[|messages| - 1])
  }

  lemma CountSnoc(counts: map<string, nat>, messages: seq<Message>, m: Message)
    ensures CountAll(counts, messages + [m]) == Count(CountAll(counts, messages), m)
  {
    assert (messages + [m])[..|messages|] == messages;
  }

  ghost function Total(counts: map<string, nat>): (r: nat) {
    if counts.Keys == {} then 0
    else
      var i := Any(counts.Keys);
      counts[i] + Total(counts - {i})
  }

  lemma {:induction false} TotalSplit(counts: map<string, nat>, i: string)
    requires i in counts
    ensures Total(counts) == counts[i] + Total(counts - {i})
    decreases counts
  {
    var k := Any(counts.Keys);
    if k != i {
      TotalSplit(counts - {k}, i);
      TotalSplit(counts - {i}, k);
      assert counts - {k} - {i} == counts - {i} - {k};
    }
  }

  lemma CountConserves(counts: map<string, nat>, m: Message)
    requires NET_MESSAGE_COMMAND_OTHER in counts
    ensures Total(Count(counts, m)) == Total(counts) + Weight(m)
  {
    var i := CountUnder(counts, m);
    var after := Count(counts, m);
    TotalSplit(counts, i);
    TotalSplit(after, i);
    assert after - {i} == counts - {i};
  }

  // Every byte of every complete message is counted once, under one command.
  lemma {:induction false} CountAllConserves(counts: map<string, nat>, messages: seq<Message>)
    requires NET_MESSAGE_COMMAND_OTHER in counts
    requires forall i :: 0 <= i < |messages| ==> Complete(messages[i])
    ensures Total(CountAll(counts, messages)) == Total(counts) + |Wire(messages)|
  {
    if messages != [] {
      var before, last := messages[..|messages| - 1], messages[|messages| - 1];
      CountAllConserves(counts, before);
      CountConserves(CountAll(counts, before), last);
    }
  }

  /* ---- One round of the receive loop, on values ---- */

  // The bytes handled, or all of them once a message is refused, turn the messages into those after.
  ghost predicate Taken(messages: seq<Message>, pch: seq<byte>, handled: int, after: seq<Message>) {
    && handled <= |pch|
    && FeedAll(Received(messages, false), if handled < 0 then pch else pch[..handled]) == Received(after, handled < 0)
    && |after| == Done(messages) + 1 && after[..Done(messages)] == messages[..Done(messages)]
    && (Done(after) > Done(messages) <==> handled >= 0 && Complete(after[|after| - 1]))
  }

  // Opening a message first makes no difference to what arrives.
  lemma FeedOpens(messages: seq<Message>, stream: seq<byte>)
    requires stream != []
    ensures FeedAll(Received(messages, false), stream) == FeedAll(Received(Open(messages), false), stream)
  {
    assert Feed(Received(messages, false), stream[0]) == Feed(Received(Open(messages), false), stream[0]);
  }

  lemma TakenPart(messages: seq<Message>, pch: seq<byte>, part: seq<byte>, handled: int, after: seq<Message>)
    requires part != [] && part <= pch && handled == if handled < 0 then -1 else |part|
    requires FeedAll(Received(Open(messages), false), part) == Received(after, handled < 0)
    ensures FeedAll(Received(messages, false), if handled < 0 then pch else pch[..handled]) ==
      Received(after, handled < 0)
  {
    FeedOpens(messages, part);
    assert part == pch[..|part|];
    if handled < 0 {
      FeedSplit(Received(messages, false), part, pch[|part|..]);
      assert part + pch[|part|..] == pch;
      RefusedStays(Received(after, true), pch[|part|..]);
    }
  }

  lemma HeaderTaken(messages: seq<Message>, pch: seq<byte>, last: Message, part: seq<byte>, handled: int)
    returns (after: seq<Message>)
    requires part != [] && part <= pch && last == Open(messages)[|Open(messages)| - 1] && last.data == []
    requires |last.header| + |part| <= HEADER_SIZE
    requires var header := last.header + part;
      handled == if |header| == HEADER_SIZE && MessageSize(header) > MAX_PROTOCOL_MESSAGE_LENGTH then -1 else |part|
    ensures after == Open(messages)[|Open(messages)| - 1 := Message(last.header + part, [])]
    ensures Taken(messages, pch, handled, after)
  {
    after := Open(messages)[|Open(messages)| - 1 := Message(last.header + part, [])];
    FeedHeader(Open(messages), last, part);
    TakenPart(messages, pch, part, handled, after);
  }

  lemma DataTaken(messages: seq<Message>, pch: seq<byte>, last: Message, part: seq<byte>) returns (after: seq<Message>)
    requires part != [] && part <= pch && last == Open(messages)[|Open(messages)| - 1]
    requires |last.header| == HEADER_SIZE && |last.data| + |part| <= MessageSize(last.header)
    ensures after == Open(messages)[|Open(messages)| - 1 := Message(last.header, last.data + part)]
    ensures Taken(messages, pch, |part|, after)
  {
    after := Open(messages)[|Open(messages)| - 1 := Message(last.header, last.data + part)];
    FeedData(Open(messages), last, part);
    TakenPart(messages, pch, part, |part|, after);
  }

  // The messages at the end of messages that were not complete yet in start.
  ghost predicate Completed(start: seq<Message>, messages: seq<Message>, completed: seq<Message>) {
    messages[..Done(messages)] == start[..Done(start)] + completed
  }

  lemma CompletedMore(start: seq<Message>, messages: seq<Message>, completed: seq<Message>, after: seq<Message>)
    requires Completed(start, messages, completed)
    requires |after| == Done(messages) + 1 && after[..Done(messages)] == messages[..Done(messages)]
    ensures Done(after) > Done(messages) ==> Completed(start, after, completed + [after[|after| - 1]])
    ensures Done(after) <= Done(messages) ==> Completed(start, after, completed)
  {
    if Done(after) > Done(messages) {
      assert after[..Done(after)] == after[..Done(messages)] + [after[|after| - 1]];
    } else {
      assert after[..Done(after)] == after[..Done(messages)];
    }
  }

  // How far the loop over a chunk has got: what is left, and which messages were completed.
  ghost predicate Progress(start: seq<Message>, pch: seq<byte>, pos: nat, messages: seq<Message>,
                           completed: seq<Message>) {
    && pos <= |pch|
    && FeedAll(Received(start, false), pch) == FeedAll(Received(messages, false), pch[pos..])
    && Completed(start, messages, completed)
  }

  lemma ProgressStep(start: seq<Message>, pch: seq<byte>, pos: nat, messages: seq<Message>, completed: seq<Message>,
                     handled: nat, after: seq<Message>, pos': nat)
    requires Progress(start, pch, pos, messages, completed) && after != []
    requires Taken(messages, pch[pos..], handled, after) && pos' == pos + handled
    ensures var last := after[|after| - 1];
      Progress(start, pch, pos', after, if Complete(last) then completed + [last] else completed)
  {
    CompletedMore(start, messages, completed, after);
    FeedSplit(Received(messages, false), pch[pos..][..handled], pch[pos..][handled..]);
    assert pch[pos..][..handled] + pch[pos..][handled..] == pch[pos..];
    assert pch[pos..][handled..] == pch[pos + handled..];
  }

  lemma RoundCounts(start: seq<Message>, pch: seq<byte>, pos: nat, messages: seq<Message>, completed: seq<Message>,
                    handled: nat, after: seq<Message>, next: nat,
                    counts0: map<string, nat>, counts: map<string, nat>, done: bool)
    returns (completed': seq<Message>)
    requires Progress(start, pch, pos, messages, completed) && after != []
    requires Taken(messages, pch[pos..], handled, after) && (done <==> Complete(after[|after| - 1]))
    requires next == pos + handled && counts == CountAll(counts0, completed)
    ensures Progress(start, pch, next, after, completed')
    ensures (if done then Count(counts, after[|after| - 1]) else counts) == CountAll(counts0, completed')
    ensures completed' != [] <==> completed != [] || done
  {
    var last := after[|after| - 1];
    completed' := if done then completed + [last] else completed;
    ProgressStep(start, pch, pos, messages, completed, handled, after, next);
    CountSnoc(counts0, completed, last);
  }

  lemma ProgressStops(start: seq<Message>, pch: seq<byte>, pos: nat, messages: seq<Message>, completed: seq<Message>,
                      handled: int, after: seq<Message>)
    requires Progress(start, pch, pos, messages, completed)
    requires Taken(messages, pch[pos..], handled, after) && handled < 0
    ensures FeedAll(Received(start, false), pch) == Received(after, true)
    ensures Completed(start, after, completed)
  {
    CompletedMore(start, messages, completed, after);
  }

  class CNode {
    var vRecvMsg: seq<CNetMessage>
    var nRecvBytes: nat
    var mapRecvBytesPerMsgCmd: map<string, nat>

    // What the messages of the list have received so far.
    ghost var received: seq<Message>

    constructor (commands: set<string>)
      ensures Valid() && received == [] && nRecvBytes == 0
      ensures mapRecvBytesPerMsgCmd == map c | c in commands + {NET_MESSAGE_COMMAND_OTHER} :: 0
    {
      vRecvMsg, received, nRecvBytes := [], [], 0;
      mapRecvBytesPerMsgCmd := map c | c in commands + {NET_MESSAGE_COMMAND_OTHER} :: 0;
    }

    ghost predicate Tied()
      reads this, vRecvMsg
    {
      && |received| == |vRecvMsg|
      && (forall i, j :: 0 <= i < j < |vRecvMsg| ==> vRecvMsg[i] != vRecvMsg[j])
      && (forall i :: 0 <= i < |vRecvMsg| ==> vRecvMsg[i].Holds(received[i]))
    }

    ghost predicate Valid()
      reads this, vRecvMsg
    {
      && Tied() && NET_MESSAGE_COMMAND_OTHER in mapRecvBytesPerMsgCmd
      && forall i :: 0 <= i < |vRecvMsg| ==> vRecvMsg[i].Valid()
    }

    // The message being received; a new one if there is none.
    method Current() returns (msg: CNetMessage)
      requires Valid()
      modifies this
      ensures Valid() && vRecvMsg != [] && msg == vRecvMsg[|vRecvMsg| - 1]
      ensures nRecvBytes == old(nRecvBytes) && mapRecvBytesPerMsgCmd == old(mapRecvBytesPerMsgCmd)
      ensures vRecvMsg == old(vRecvMsg) || (fresh(msg) && vRecvMsg == old(vRecvMsg) + [msg])
      ensures received == Open(old(received))
    {
      if vRecvMsg != [] {
        vRecvMsg[|vRecvMsg| - 1].CompleteIsExact();
      }
      if vRecvMsg == [] || vRecvMsg[|vRecvMsg| - 1].complete() {
        AppendBlank();
      }
      msg := vRecvMsg[|vRecvMsg| - 1];
    }

    method AppendBlank()
      requires Valid()
      modifies this
      ensures Valid() && received == old(received) + [Message([], [])]
      ensures exists blank :: fresh(blank) && vRecvMsg == old(vRecvMsg) + [blank]
      ensures nRecvBytes == old(nRecvBytes) && mapRecvBytesPerMsgCmd == old(mapRecvBytesPerMsgCmd)
    {
      var blank := new CNetMessage();
      vRecvMsg := vRecvMsg + [blank];
      received := received + [Message([], [])];
    }

    // Reads one part of a header into a message; negative if the message is refused.
    static method TakeHeader(msg: CNetMessage, pch: seq<byte>, ghost last: Message)
      returns (handled: int, done: bool, ghost part: seq<byte>)
      requires msg.Valid() && !msg.in_data && pch != [] && last == msg.Value()
      modifies msg
      ensures part != [] && part <= pch && |last.header| + |part| <= HEADER_SIZE
      ensures msg.Holds(Message(last.header + part, []))
      ensures handled == if |last.header + part| == HEADER_SIZE &&
        MessageSize(last.header + part) > MAX_PROTOCOL_MESSAGE_LENGTH
                         then -1 else |part|
      ensures handled >= 0 ==> msg.Valid()
      ensures done <==> handled >= 0 && Complete(Message(last.header + part, []))
    {
      handled := msg.readHeader(pch);
      if msg.in_data && msg.nMessageSize > MAX_PROTOCOL_MESSAGE_LENGTH {
        handled := -1;
      }
      part := pch[..msg.nHdrPos - |last.header|];
      if handled < 0 {
        return handled, false, part;
      }
      msg.CompleteIsExact();
      done := msg.complete();
    }

    // Takes in one part of a header.
    method AbsorbHeader(msg: CNetMessage, pch: seq<byte>, ghost messages: seq<Message>)
      returns (handled: int, done: bool)
      requires Valid() && vRecvMsg != [] && msg == vRecvMsg[|vRecvMsg| - 1] && pch != []
      requires received == Open(messages) && !msg.in_data
      modifies `received, msg
      ensures received != [] && (done <==> handled >= 0 && Complete(received[|received| - 1]))
      ensures handled < 0 || 0 < handled <= |pch|
      ensures Tied() && (handled >= 0 ==> Valid())
      ensures Taken(messages, pch, handled, received)
    {
      ghost var last, part := msg.Value(), [];
      handled, done, part := TakeHeader(msg, pch, last);
      received := HeaderTaken(messages, pch, last, part, handled);
    }

    // Reads one part of the data into a message.
    static method TakeData(msg: CNetMessage, pch: seq<byte>, ghost last: Message) returns (handled: int, done: bool)
      requires msg.Valid() && msg.in_data && !msg.complete() && pch != [] && last == msg.Value()
      modifies msg
      ensures 0 < handled <= |pch| && |last.header| == HEADER_SIZE
      ensures |last.data| + handled <= MessageSize(last.header)
      ensures msg.Valid() && msg.Holds(Message(last.header, last.data + pch[..handled]))
      ensures done <==> Complete(Message(last.header, last.data + pch[..handled]))
    {
      handled := msg.readData(pch);
      msg.CompleteIsExact();
      done := msg.complete();
    }

    // Takes in one part of the data.
    method AbsorbData(msg: CNetMessage, pch: seq<byte>, ghost messages: seq<Message>) returns (handled: int, done: bool)
      requires Valid() && vRecvMsg != [] && msg == vRecvMsg[|vRecvMsg| - 1] && pch != []
      requires received == Open(messages) && msg.in_data
      modifies `received, msg
      ensures received != [] && (done <==> Complete(received[|received| - 1]))
      ensures 0 < handled <= |pch| && Valid()
      ensures Taken(messages, pch, handled, received)
    {
      ghost var last := msg.Value();
      msg.CompleteIsExact();
      handled, done := TakeData(msg, pch, last);
      received := DataTaken(messages, pch, last, pch[..handled]);
    }

    // One round of the receive loop: how much was handled, and whether that completed a message.
    method Round(pch: seq<byte>) returns (handled: int, done: bool)
      requires Valid() && pch != []
      modifies this, vRecvMsg
      ensures handled < 0 || 0 < handled <= |pch|
      ensures Tied() && vRecvMsg != [] && (handled >= 0 ==> Valid())
      ensures forall i :: 0 <= i < |vRecvMsg| ==> vRecvMsg[i] in old(vRecvMsg) || fresh(vRecvMsg[i])
      ensures Taken(old(received), pch, handled, received)
      ensures done <==> handled >= 0 && Complete(received[|received| - 1])
      ensures nRecvBytes == old(nRecvBytes) && mapRecvBytesPerMsgCmd == old(mapRecvBytesPerMsgCmd)
    {
      ghost var messages := received;
      var msg := Current();
      assert msg in old(vRecvMsg) || fresh(msg);
      if !msg.in_data {
        handled, done := AbsorbHeader(msg, pch, messages);
      } else {
        handled, done := AbsorbData(msg, pch, messages);
      }
    }

    // Counts the last message, which is complete, by its command.
    method CountLast()
      requires Valid() && vRecvMsg != [] && Complete(received[|received| - 1])
      modifies `mapRecvBytesPerMsgCmd
      ensures Valid() && mapRecvBytesPerMsgCmd == Count(old(mapRecvBytesPerMsgCmd), received[|received| - 1])
    {
      var msg := vRecvMsg[|vRecvMsg| - 1];
      msg.CompleteIsExact();
      assert msg.Holds(received[|received| - 1]);
      assert msg.hdrbuf[..msg.nHdrPos] == msg.hdrbuf;
      var i := Command(msg.hdrbuf);
      if i !in mapRecvBytesPerMsgCmd {
        i := NET_MESSAGE_COMMAND_OTHER;
      }
      assert i in mapRecvBytesPerMsgCmd;
      mapRecvBytesPerMsgCmd := mapRecvBytesPerMsgCmd[i := mapRecvBytesPerMsgCmd[i] + msg.nMessageSize + HEADER_SIZE];
    }

    // A round, with the message counted that it completes.
    method CountedRound(pch: seq<byte>) returns (handled: int, done: bool)
      requires Valid() && pch != []
      modifies this, vRecvMsg
      ensures handled < 0 || 0 < handled <= |pch|
      ensures Tied() && vRecvMsg != [] && (handled >= 0 ==> Valid())
      ensures forall i :: 0 <= i < |vRecvMsg| ==> vRecvMsg[i] in old(vRecvMsg) || fresh(vRecvMsg[i])
      ensures Taken(old(received), pch, handled, received) && nRecvBytes == old(nRecvBytes)
      ensures done <==> handled >= 0 && Complete(received[|received| - 1])
      ensures mapRecvBytesPerMsgCmd == if done then Count(old(mapRecvBytesPerMsgCmd), received[|received| - 1])
                                       else old(mapRecvBytesPerMsgCmd)
    {
      handled, done := Round(pch);
      if done {
        CountLast();
      }
    }

    // The loop over a chunk is at pos, and completed holds the messages completed since start.
    ghost predicate Receiving(start: seq<Message>, counts: map<string, nat>, pch: seq<byte>, pos: nat,
                              completed: seq<Message>)
      reads this
    {
      Progress(start, pch, pos, received, completed) && mapRecvBytesPerMsgCmd == CountAll(counts, completed)
    }

    method NextRound(pch: seq<byte>, pos: nat, ghost start: seq<Message>, ghost counts: map<string, nat>,
                     ghost completed: seq<Message>)
      returns (refused: bool, done: bool, next: nat, ghost more: seq<Message>)
      requires Valid() && pos < |pch| && Receiving(start, counts, pch, pos, completed)
      modifies this, vRecvMsg
      ensures refused || pos < next <= |pch|
      ensures Tied() && (!refused ==> Valid()) && nRecvBytes == old(nRecvBytes)
      ensures forall i :: 0 <= i < |vRecvMsg| ==> vRecvMsg[i] in old(vRecvMsg) || fresh(vRecvMsg[i])
      ensures !refused ==> Receiving(start, counts, pch, next, more) && (more != [] <==> completed != [] || done)
      ensures refused ==> FeedAll(Received(start, false), pch) == Received(received, true)
      ensures refused ==> Completed(start, received, completed) && mapRecvBytesPerMsgCmd == CountAll(counts, completed)
    {
      ghost var messages, before := received, mapRecvBytesPerMsgCmd;
      var handled;
      handled, done := CountedRound(pch[pos..]);
      refused, next, more := handled < 0, pos, completed;
      if handled < 0 {
        ProgressStops(start, pch, pos, messages, completed, handled, received);
      } else {
        next := pos + handled;
        more := RoundCounts(start, pch, pos, messages, completed, handled, received, next, counts, before, done);
      }
    }

    // Takes in a chunk: what has arrived afterwards is what the byte stream says, whatever the chunk, and
    // the messages it completed are counted.
    method ReceiveMsgBytes(pch: seq<byte>) returns (ok: bool, complete: bool, ghost completed: seq<Message>)
      requires Valid()
      modifies this, vRecvMsg
      ensures Tied() && (ok ==> Valid())
      ensures FeedAll(Received(old(received), false), pch) == Received(received, !ok)
      ensures Completed(old(received), received, completed) && (complete <==> completed != [])
      ensures nRecvBytes == old(nRecvBytes) + |pch|
      ensures mapRecvBytesPerMsgCmd == CountAll(old(mapRecvBytesPerMsgCmd), completed)
    {
      complete, completed := false, [];
      nRecvBytes := nRecvBytes + |pch|;
      var pos := 0;
      assert received[..Done(received)] == received[..Done(received)] + completed;
      while pos < |pch|
        invariant 0 <= pos <= |pch| && Valid() && nRecvBytes == old(nRecvBytes) + |pch|
        invariant forall i :: 0 <= i < |vRecvMsg| ==> vRecvMsg[i] in old(vRecvMsg) || fresh(vRecvMsg[i])
        invariant Receiving(old(received), old(mapRecvBytesPerMsgCmd), pch, pos, completed)
        invariant complete <==> completed != []
      {
        var refused, done, next;
        ghost var more;
        refused, done, next, more := NextRound(pch, pos, old(received), old(mapRecvBytesPerMsgCmd), completed);
        if refused {
          return false, complete, completed;
        }
        pos, completed, complete := next, more, complete || done;
      }
      return true, complete, completed;
    }
  }
}
