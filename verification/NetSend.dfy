/** Sending to a peer: a queue of serialized messages, drained by sends that may take only a part. */
module NetSend {
  import opened Helpers
  import opened NetMessages

  function TotalSize(queue: seq<seq<byte>>): (r: nat) {
    if queue == [] then 0 else |queue[0]| + TotalSize(queue[1..])
  }

  lemma {:induction false} TotalSizeAppend(queue: seq<seq<byte>>, last: seq<byte>)
    ensures TotalSize(queue + [last]) == TotalSize(queue) + |last|
  {
    if queue != [] {
      TotalSizeAppend(queue[1..], last);
      assert (queue + [last])[1..] == queue[1..] + [last];
    } else {
      assert queue + [last] == [last];
    }
  }

  lemma {:induction false} JoinedAppend(queue: seq<seq<byte>>, last: seq<byte>)
    ensures Joined(queue + [last]) == Joined(queue) + last
  {
    if queue != [] {
      JoinedAppend(queue[1..], last);
      assert (queue + [last])[1..] == queue[1..] + [last];
    } else {
      assert queue + [last] == [last];
    }
  }

  // The bytes still to be sent: the queue without what has gone of its first message.
  function Unsent(queue: seq<seq<byte>>, offset: nat): (r: seq<byte>)
    requires if queue == [] then offset == 0 else offset <= |queue[0]|
  {
    Joined(queue)[offset..]
  }

  lemma UnsentAppend(queue: seq<seq<byte>>, offset: nat, last: seq<byte>, wire: seq<byte>)
    requires if queue == [] then offset == 0 else offset <= |queue[0]|
    ensures wire + Unsent(queue, offset) + last == wire + Unsent(queue + [last], offset)
  {
    JoinedAppend(queue, last);
    assert offset <= |Joined(queue)|;
    assert (Joined(queue) + last)[offset..] == Joined(queue)[offset..] + last;
  }

  // What the socket says to a send: how many bytes it has room for, or a negative number for an error,
  // which may be one that passes.
  datatype Answer = Answer(nBytes: int, passing: bool)

  // Its answers to the sends of one call, in order.
  type Socket = nat -> Answer

  // How much of what is offered goes out.
  function Taken(answer: Answer, offered: nat): (r: nat) {
    if answer.nBytes <= 0 then 0 else if answer.nBytes > offered then offered else answer.nBytes
  }

  // What a send of message k offers: all of it, or what is left of the first one.
  function Offered(queue: seq<seq<byte>>, offset: nat, k: nat): (r: int)
    requires k < |queue|
  {
    |queue[k]| - if k == 0 then offset else 0
  }

  // The socket takes the first n messages whole, and less than is offered of the one behind them.
  ghost predicate TakesWhole(socket: Socket, queue: seq<seq<byte>>, offset: nat, n: nat) {
    && n <= |queue| && TakesFirst(socket, queue, offset, n)
    && (n < |queue| ==> socket(n).nBytes < Offered(queue, offset, n))
  }

  ghost predicate TakesFirst(socket: Socket, queue: seq<seq<byte>>, offset: nat, n: nat)
    requires n <= |queue|
  {
    forall k :: 0 <= k < n ==> socket(k).nBytes >= Offered(queue, offset, k)
  }

  class CNode {
    const nSendBufferMaxSize: nat
    var connected: bool
    var fDisconnect: bool
    var vSendMsg: seq<seq<byte>>
    var nSendSize: nat
    var nSendOffset: nat
    var fPauseSend: bool
    var nSendBytes: nat
    var mapSendBytesPerMsgCmd: map<string, nat>

    // The bytes the socket has taken, and those of all messages that were queued.
    ghost var wire: seq<byte>
    ghost var pushed: seq<byte>

    constructor (nSendBufferMaxSize: nat)
      ensures Valid() && connected && !fDisconnect && wire == pushed == [] && mapSendBytesPerMsgCmd == map[]
    {
      this.nSendBufferMaxSize := nSendBufferMaxSize;
      connected, fDisconnect, fPauseSend := true, false, false;
      mapSendBytesPerMsgCmd := map[];
      vSendMsg, wire, pushed := [], [], [];
      nSendSize, nSendOffset, nSendBytes := 0, 0, 0;
    }

    ghost predicate Valid()
      reads this
    {
      && (forall i :: 0 <= i < |vSendMsg| ==> vSendMsg[i] != [])
      && (if vSendMsg == [] then nSendOffset == 0 else nSendOffset < |vSendMsg[0]|)
      && nSendSize == TotalSize(vSendMsg)
      && (fPauseSend <==> nSendSize > nSendBufferMaxSize)
      && pushed == wire + Unsent(vSendMsg, nSendOffset)
      && nSendBytes == |wire|
    }

    // What the socket has taken is a prefix of what was pushed, and all of it once the queue is empty.
    lemma WireIsPrefix()
      requires Valid()
      ensures wire <= pushed
      ensures vSendMsg == [] <==> wire == pushed
    {
      if vSendMsg != [] {
        assert Joined(vSendMsg) == vSendMsg[0] + Joined(vSendMsg[1..]);
      }
    }

    // However little each send takes, the peer gets a prefix of the messages that were pushed.
    lemma PeerGetsPrefix(sent: seq<Message>)
      requires Valid() && pushed == Wire(sent) && forall i :: 0 <= i < |sent| ==> Acceptable(sent[i])
      ensures var r := FeedAll(NOTHING, wire);
        !r.refused && forall i :: 0 <= i < |r.messages| && Complete(r.messages[i]) ==>
          i < |sent| && r.messages[i] == sent[i]
      ensures vSendMsg == [] ==> FeedAll(NOTHING, wire).messages == sent
    {
      WireIsPrefix();
      PrefixDelivered(sent, |wire|);
      assert wire == pushed[..|wire|];
      Deliver(sent);
    }

    // One send of what is left of a message.
    method SendSome(data: seq<byte>, ghost behind: seq<seq<byte>>, answer: Answer) returns (nBytes: int)
      requires nSendOffset < |data| && pushed == wire + Unsent([data] + behind, nSendOffset) && nSendBytes == |wire|
      modifies `wire, `nSendBytes, `nSendOffset
      ensures nBytes == if answer.nBytes > |data| - old(nSendOffset) then |data| - old(nSendOffset) else answer.nBytes
      ensures var sent := Taken(answer, |data| - old(nSendOffset));
        |wire| == |old(wire)| + sent && old(wire) <= wire && nSendOffset == old(nSendOffset) + sent
      ensures nSendOffset <= |data| && pushed == wire + Unsent([data] + behind, nSendOffset) && nSendBytes == |wire|
    {
      nBytes := if answer.nBytes > |data| - nSendOffset then |data| - nSendOffset else answer.nBytes;
      if nBytes > 0 {
        ghost var queue := Joined([data] + behind);
        wire := wire + data[nSendOffset..nSendOffset + nBytes];
        assert ([data] + behind)[1..] == behind;
        assert queue[nSendOffset..] == data[nSendOffset..nSendOffset + nBytes] + queue[nSendOffset + nBytes..];
        nSendBytes := nSendBytes + nBytes;
        nSendOffset := nSendOffset + nBytes;
      }
    }

    // The first messages of the queue have gone, but are still in it.
    ghost predicate Draining(it: nat)
      reads this
    {
      && it <= |vSendMsg| && (forall i :: 0 <= i < |vSendMsg| ==> vSendMsg[i] != [])
      && (if it == |vSendMsg| then nSendOffset == 0 else nSendOffset < |vSendMsg[it]|)
      && nSendSize == TotalSize(vSendMsg[it..])
      && (fPauseSend <==> nSendSize > nSendBufferMaxSize)
      && pushed == wire + Unsent(vSendMsg[it..], nSendOffset)
      && nSendBytes == |wire|
    }

    // Sends what is left of one message. An error that does not pass marks the peer for disconnection.
    method SendOne(it: nat, answer: Answer) returns (sent: nat, next: nat)
      requires Draining(it) && it < |vSendMsg| && connected
      modifies this
      ensures Draining(next) && vSendMsg == old(vSendMsg)
      ensures next == if answer.nBytes < |vSendMsg[it]| - old(nSendOffset) then it else it + 1
      ensures sent == Taken(answer, |vSendMsg[it]| - old(nSendOffset))
      ensures nSendOffset == if next > it then 0 else old(nSendOffset) + sent
      ensures pushed == old(pushed) && connected
      ensures old(wire) <= wire && |wire| == |old(wire)| + sent
      ensures fDisconnect == (old(fDisconnect) || (answer.nBytes < 0 && !answer.passing))
      ensures mapSendBytesPerMsgCmd == old(mapSendBytesPerMsgCmd)
    {
      var data := vSendMsg[it];
      assert vSendMsg[it..] == [data] + vSendMsg[it + 1..];
      assert |data| > nSendOffset;
      sent, next := 0, it;
      var nBytes := SendSome(data, vSendMsg[it + 1..], answer);
      if nBytes > 0 {
        sent := nBytes;
        if nSendOffset == |data| {
          nSendOffset := 0;
          nSendSize := nSendSize - |data|;
          fPauseSend := nSendSize > nSendBufferMaxSize;
          next := it + 1;
        }
      } else if nBytes < 0 && !answer.passing {
        fDisconnect := true;
      }
    }

    // Sends until the queue is empty or the socket takes less than it is offered: n messages go whole, and
    // of the next one what there was room for. Without a connection nothing happens.
    method SocketSendData(socket: Socket) returns (nSentSize: nat, ghost n: nat)
      requires Valid()
      modifies this
      ensures Valid() && pushed == old(pushed) && mapSendBytesPerMsgCmd == old(mapSendBytesPerMsgCmd)
      ensures connected == old(connected)
      ensures connected ==> TakesWhole(socket, old(vSendMsg), old(nSendOffset), n)
      ensures !connected ==> n == 0 && nSendOffset == old(nSendOffset)
      ensures n <= |old(vSendMsg)| && vSendMsg == old(vSendMsg)[n..]
      ensures connected && n < |old(vSendMsg)| ==>
        nSendOffset == (if n == 0 then old(nSendOffset) else 0)
                       + Taken(socket(n), Offered(old(vSendMsg), old(nSendOffset), n))
      ensures fDisconnect
           == (old(fDisconnect) || (connected && vSendMsg != [] && socket(n).nBytes < 0 && !socket(n).passing))
      ensures old(wire) <= wire && |wire| == |old(wire)| + nSentSize
    {
      var it;
      nSentSize, it := SendLoop(socket);
      if it == |vSendMsg| {
        assert nSendOffset == 0;
        assert nSendSize == 0;
      }
      n := it;
      vSendMsg := vSendMsg[it..];
    }

    // The loop over the queue, which stays as it is.
    method SendLoop(socket: Socket) returns (nSentSize: nat, it: nat)
      requires Valid()
      modifies this
      ensures Draining(it) && vSendMsg == old(vSendMsg) && pushed == old(pushed)
      ensures mapSendBytesPerMsgCmd == old(mapSendBytesPerMsgCmd) && connected == old(connected)
      ensures connected ==> TakesWhole(socket, vSendMsg, old(nSendOffset), it)
      ensures !connected ==> it == 0 && nSendOffset == old(nSendOffset)
      ensures connected && it < |vSendMsg| ==>
        nSendOffset == (if it == 0 then old(nSendOffset) else 0)
                       + Taken(socket(it), Offered(vSendMsg, old(nSendOffset), it))
      ensures fDisconnect
           == (old(fDisconnect) || (connected && it < |vSendMsg| && socket(it).nBytes < 0 && !socket(it).passing))
      ensures old(wire) <= wire && |wire| == |old(wire)| + nSentSize
    {
      it, nSentSize := 0, 0;
      while it < |vSendMsg| && connected
        invariant 0 <= it && Draining(it) && vSendMsg == old(vSendMsg) && pushed == old(pushed)
        invariant fDisconnect == old(fDisconnect) && mapSendBytesPerMsgCmd == old(mapSendBytesPerMsgCmd)
        invariant old(wire) <= wire && |wire| == |old(wire)| + nSentSize
        invariant connected == old(connected) && (!connected ==> it == 0 && nSentSize == 0)
        invariant nSendOffset == if it == 0 then old(nSendOffset) else 0
        invariant TakesFirst(socket, vSendMsg, old(nSendOffset), it)
      {
        var sent, next := SendOne(it, socket(it));
        nSentSize := nSentSize + sent;
        if next == it {
          break;
        }
        it := next;
      }
    }

    // After a call of SocketSendData over a queue whose messages the socket has room for, one by one,
    // everything that was pushed has gone out.
    lemma EverythingGoes(socket: Socket, queue: seq<seq<byte>>, offset: nat, n: nat)
      requires Valid() && TakesWhole(socket, queue, offset, n) && vSendMsg == queue[n..]
      requires forall k :: 0 <= k < |queue| ==> socket(k).nBytes >= |queue[k]|
      ensures vSendMsg == [] && wire == pushed
    {
      if n < |queue| {
        assert false;
      }
      WireIsPrefix();
    }

    // The connection is lost at any time; what was queued stays queued and unsent.
    method CloseSocketDisconnect()
      requires Valid()
      modifies `connected, `fDisconnect
      ensures Valid() && !connected && fDisconnect
    {
      fDisconnect := true;
      if connected {
        connected := false;
      }
    }

    function SentOf(sCommand: string): (r: nat)
      reads this
    {
      if sCommand in mapSendBytesPerMsgCmd then mapSendBytesPerMsgCmd[sCommand] else 0
    }

    // Puts a message behind the others.
    method Enqueue(strm: seq<byte>, sCommand: string)
      requires Valid() && strm != []
      modifies this
      ensures Valid() && pushed == old(pushed) + strm && wire == old(wire)
      ensures vSendMsg == old(vSendMsg) + [strm] && nSendOffset == old(nSendOffset)
      ensures connected == old(connected) && fDisconnect == old(fDisconnect)
      ensures mapSendBytesPerMsgCmd == old(mapSendBytesPerMsgCmd[sCommand := SentOf(sCommand) + |strm|])
    {
      UnsentAppend(vSendMsg, nSendOffset, strm, wire);
      TotalSizeAppend(vSendMsg, strm);
      pushed := pushed + strm;
      vSendMsg := vSendMsg + [strm];
      mapSendBytesPerMsgCmd := mapSendBytesPerMsgCmd[sCommand := SentOf(sCommand) + |strm|];
      nSendSize := nSendSize + |strm|;
      if nSendSize > nSendBufferMaxSize {
        fPauseSend := true;
      }
    }

    // Queues a serialized message, unless the connection is gone, and sends at once if nothing was queued.
    method PushMessage(strm: seq<byte>, sCommand: string, socket: Socket)
      requires Valid()
      modifies this
      ensures Valid() && connected == old(connected)
      ensures pushed == old(pushed) + if connected then strm else []
      ensures old(vSendMsg) != [] || strm == [] || !connected ==>
        && vSendMsg == old(vSendMsg) + (if strm == [] || !connected then [] else [strm])
        && wire == old(wire) && fDisconnect == old(fDisconnect)
      ensures old(vSendMsg) == [] && strm != [] && connected ==>
        && vSendMsg == (if socket(0).nBytes >= |strm| then [] else [strm])
        && wire == old(wire) + strm[..Taken(socket(0), |strm|)]
        && fDisconnect == (old(fDisconnect) || (socket(0).nBytes < 0 && !socket(0).passing))
      ensures mapSendBytesPerMsgCmd == if strm == [] || !connected then old(mapSendBytesPerMsgCmd)
                                       else old(mapSendBytesPerMsgCmd[sCommand := SentOf(sCommand) + |strm|])
    {
      if strm == [] {
        return;
      }
      if !connected {
        return;
      }
      WireIsPrefix();
      var optimisticSend := vSendMsg == [];
      Enqueue(strm, sCommand);
      if optimisticSend {
        ghost var before := wire;
        var nBytesSent, n := SocketSendData(socket);
        SentAlone(strm, socket, before, n);
      }
    }

    // After one message alone in the queue was offered.
    lemma SentAlone(strm: seq<byte>, socket: Socket, before: seq<byte>, n: nat)
      requires Valid() && strm != [] && pushed == before + strm && before <= wire
      requires TakesWhole(socket, [strm], 0, n) && vSendMsg == [strm][n..]
      requires n < 1 ==> nSendOffset == Taken(socket(n), Offered([strm], 0, n))
      ensures vSendMsg == (if socket(0).nBytes >= |strm| then [] else [strm])
      ensures wire == before + strm[..Taken(socket(0), |strm|)]
    {
      WireIsPrefix();
      assert [strm][0..] == [strm] && [strm][1..] == [];
      assert socket(0).nBytes >= |strm| <==> n == 1;
      if n == 0 {
        assert Joined([strm]) == strm;
        assert |wire| == |before| + nSendOffset;
      }
    }
  }
}
