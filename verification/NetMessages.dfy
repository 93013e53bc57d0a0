/** The framing of peer-to-peer messages: a byte stream cut into headers and data. */
module NetMessages {
  import opened Arithmetic
  import opened Helpers

  const HEADER_SIZE := 24
  const MESSAGE_SIZE_OFFSET := 16
  const CHECKSUM_OFFSET := 20
  const CHECKSUM_SIZE := 4
  const MAX_SIZE := 0x0200_0000
  const MAX_PROTOCOL_MESSAGE_LENGTH := 6 * 1000 * 1000

  // A message as far as it has arrived.
  datatype Message = Message(header: seq<byte>, data: seq<byte>)

  // What has been received; once a message is refused nothing more is taken in.
  datatype Received = Received(messages: seq<Message>, refused: bool)

  const NOTHING := Received([], false)

  // A 32-bit little-endian number.
  function ReadLE32(b: seq<byte>): (r: nat)
    requires |b| == 4
  {
    var b0: nat, b1: nat, b2: nat, b3: nat := b[0], b[1], b[2], b[3];
    b0 + 0x100 * b1 + 0x1_0000 * b2 + 0x100_0000 * b3
  }

  function WriteLE32(n: nat): (b: seq<byte>)
    requires n < 0x1_0000_0000
    ensures |b| == 4
  {
    [n % 0x100, n / 0x100 % 0x100, n / 0x1_0000 % 0x100, n / 0x100_0000]
  }

  function MessageSize(header: seq<byte>): (r: nat)
    requires |header| == HEADER_SIZE
  {
    ReadLE32(header[MESSAGE_SIZE_OFFSET..CHECKSUM_OFFSET])
  }

  predicate Complete(m: Message) {
    |m.header| == HEADER_SIZE && |m.data| == MessageSize(m.header)
  }

  /* ---- One byte at a time ---- */

  // The messages with a last one that can take another byte.
  function Open(messages: seq<Message>): (r: seq<Message>)
    ensures |r| > 0 && !Complete(r[|r| - 1])
  {
    if messages == [] || Complete(messages[|messages| - 1]) then messages + [Message([], [])] else messages
  }

  function Feed(s: Received, b: byte): (r: Received) {
    if s.refused then s else
      var open := Open(s.messages);
      var last := open[|open| - 1];
      if |last.header| < HEADER_SIZE then
        var header := last.header + [b];
        Received(open[|open| - 1 := Message(header, last.data)],
                 |header| == HEADER_SIZE && MessageSize(header) > MAX_PROTOCOL_MESSAGE_LENGTH)
      else Received(open[|open| - 1 := Message(last.header, last.data + [b])], false)
  }

  function FeedAll(s: Received, stream: seq<byte>): (r: Received)
    decreases |stream|
  {
    if stream == [] then s else FeedAll(Feed(s, stream[0]), stream[1..])
  }

  function Joined(chunks: seq<seq<byte>>): (r: seq<byte>) {
    if chunks == [] then [] else chunks[0] + Joined(chunks[1..])
  }

  function FeedChunks(s: Received, chunks: seq<seq<byte>>): (r: Received)
    decreases |chunks|
  {
    if chunks == [] then s else FeedChunks(FeedAll(s, chunks[0]), chunks[1..])
  }

  // Feeding in two parts is feeding at once.
  lemma {:induction false} FeedSplit(s: Received, a: seq<byte>, b: seq<byte>)
    ensures FeedAll(s, a + b) == FeedAll(FeedAll(s, a), b)
    decreases |a|
  {
    if a == [] {
      assert a + b == b;
    } else {
      assert (a + b)[1..] == a[1..] + b;
      FeedSplit(Feed(s, a[0]), a[1..], b);
    }
  }

  lemma {:induction false} ChunksAreStream(s: Received, chunks: seq<seq<byte>>)
    ensures FeedChunks(s, chunks) == FeedAll(s, Joined(chunks))
    decreases |chunks|
  {
    if chunks != [] {
      FeedSplit(s, chunks[0], Joined(chunks[1..]));
      ChunksAreStream(FeedAll(s, chunks[0]), chunks[1..]);
    }
  }

  // However a stream is cut into chunks, the same messages arrive and the same one is refused.
  lemma FramingIgnoresChunks(s: Received, a: seq<seq<byte>>, b: seq<seq<byte>>)
    requires Joined(a) == Joined(b)
    ensures FeedChunks(s, a) == FeedChunks(s, b)
  {
    ChunksAreStream(s, a);
    ChunksAreStream(s, b);
  }

  /* ---- Nothing is lost ---- */

  function Wire(messages: seq<Message>): (r: seq<byte>) {
    if messages == [] then []
    else Wire(messages[..|messages| - 1]) + messages[|messages| - 1].header + messages[|messages| - 1].data
  }

  // Every message but the last is complete, headers before data, and none that was accepted is too long.
  ghost predicate WellFormed(s: Received) {
    && (forall i :: 0 <= i < |s.messages| - 1 ==> Complete(s.messages[i]))
    && (forall i :: 0 <= i < |s.messages| ==> WellFormedMessage(s.messages[i]))
    && (s.refused ==> s.messages != [] && var m := s.messages[|s.messages| - 1];
                                          && |m.header| == HEADER_SIZE && m.data == []
                                          && MessageSize(m.header) > MAX_PROTOCOL_MESSAGE_LENGTH)
    && (!s.refused ==> forall i :: 0 <= i < |s.messages| && |s.messages[i].header| == HEADER_SIZE ==>
                                     MessageSize(s.messages[i].header) <= MAX_PROTOCOL_MESSAGE_LENGTH)
  }

  predicate WellFormedMessage(m: Message) {
    && |m.header| <= HEADER_SIZE
    && (m.data != [] ==> |m.header| == HEADER_SIZE)
    && (|m.header| == HEADER_SIZE ==> |m.data| <= MessageSize(m.header))
  }

  lemma FeedKeeps(s: Received, b: byte)
    requires WellFormed(s)
    ensures WellFormed(Feed(s, b))
  {}

  lemma OpenWire(messages: seq<Message>)
    ensures Wire(Open(messages)) == Wire(messages)
  {
    var open := Open(messages);
    if |open| > |messages| {
      assert open[..|open| - 1] == messages;
    }
  }

  lemma WireLast(messages: seq<Message>, m: Message)
    requires messages != []
    ensures Wire(messages[|messages| - 1 := m]) == Wire(messages[..|messages| - 1]) + m.header + m.data
  {
    var n := |messages| - 1;
    assert messages[n := m][..n] == messages[..n];
  }

  lemma OneMoreByte(before: seq<byte>, header: seq<byte>, data: seq<byte>, b: byte)
    ensures before + header + (data + [b]) == before + header + data + [b]
    ensures data == [] ==> before + (header + [b]) + [] == before + header + data + [b]
  {}

  lemma FeedAppends(s: Received, b: byte)
    requires WellFormed(s)
    ensures Wire(Feed(s, b).messages) == Wire(s.messages) + if s.refused then [] else [b]
  {
    if !s.refused {
      var open := Open(s.messages);
      var n := |open| - 1;
      var last := open[n];
      OpenWire(s.messages);
      OneMoreByte(Wire(open[..n]), last.header, last.data, b);
      if |last.header| < HEADER_SIZE {
        WireLast(open, Message(last.header + [b], []));
      } else {
        WireLast(open, Message(last.header, last.data + [b]));
      }
    }
  }

  lemma Prefixed<T>(w: seq<T>, s: seq<T>, n: nat)
    requires n < |s|
    ensures w + [s[0]] + s[1..][..n] == w + s[..n + 1]
  {}

  // The bytes of the messages received, in order, are the bytes of the stream up to a refused header.
  lemma {:induction false} FeedConserves(s: Received, stream: seq<byte>) returns (taken: nat)
    requires WellFormed(s)
    ensures WellFormed(FeedAll(s, stream)) && taken <= |stream|
    ensures Wire(FeedAll(s, stream).messages) == Wire(s.messages) + stream[..taken]
    ensures !FeedAll(s, stream).refused ==> taken == |stream|
    decreases |stream|
  {
    if stream == [] {
      taken := 0;
      assert Wire(s.messages) + stream[..0] == Wire(s.messages);
    } else {
      FeedKeeps(s, stream[0]);
      FeedAppends(s, stream[0]);
      var rest := FeedConserves(Feed(s, stream[0]), stream[1..]);
      if s.refused {
        taken := 0;
        RefusedStays(s, stream);
        assert Wire(s.messages) + stream[..0] == Wire(s.messages);
      } else {
        taken := rest + 1;
        Prefixed(Wire(s.messages), stream, rest);
      }
    }
  }

  lemma {:induction false} RefusedStays(s: Received, stream: seq<byte>)
    requires s.refused
    ensures FeedAll(s, stream) == s
    decreases |stream|
  {
    if stream != [] {
      RefusedStays(s, stream[1..]);
    }
  }

  /* ---- Whole headers and data ---- */

  // Taking in part of a header at once.
  lemma {:induction false} FeedHeader(messages: seq<Message>, last: Message, part: seq<byte>)
    requires messages != [] && messages[|messages| - 1] == last && last.data == []
    requires |last.header| < HEADER_SIZE && |last.header| + |part| <= HEADER_SIZE
    ensures var header := last.header + part;
      FeedAll(Received(messages, false), part) ==
      Received(messages[|messages| - 1 := Message(header, [])],
               |header| == HEADER_SIZE && MessageSize(header) > MAX_PROTOCOL_MESSAGE_LENGTH)
    decreases |part|
  {
    if part == [] {
      assert last.header + part == last.header;
      assert messages[|messages| - 1 := last] == messages;
    } else {
      var next := Feed(Received(messages, false), part[0]);
      var m := next.messages[|messages| - 1];
      assert last.header + part == m.header + part[1..];
      if |m.header| == HEADER_SIZE {
        assert part[1..] == [];
        assert m.header == last.header + part;
      } else {
        FeedHeader(next.messages, m, part[1..]);
      }
    }
  }

  // Taking in part of the data at once.
  lemma {:induction false} FeedData(messages: seq<Message>, last: Message, part: seq<byte>)
    requires messages != [] && messages[|messages| - 1] == last && |last.header| == HEADER_SIZE
    requires |last.data| + |part| <= MessageSize(last.header)
    ensures FeedAll(Received(messages, false), part) ==
            Received(messages[|messages| - 1 := Message(last.header, last.data + part)], false)
    decreases |part|
  {
    if part == [] {
      assert last.data + part == last.data;
      assert messages[|messages| - 1 := last] == messages;
    } else {
      var next := Feed(Received(messages, false), part[0]);
      assert last.data + part == last.data + [part[0]] + part[1..];
      FeedData(next.messages, next.messages[|messages| - 1], part[1..]);
    }
  }

  /* ---- Sending and receiving ---- */

  // Sets the size and the checksum in the header of a stream that holds a header and the data. The
  // size is that of an unsigned int.
  function EndMessage(hash: seq<byte> -> seq<byte>, strm: seq<byte>): (r: seq<byte>)
    requires |strm| >= HEADER_SIZE && |hash(strm[HEADER_SIZE..])| >= CHECKSUM_SIZE
    ensures |r| == |strm|
  {
    var data := strm[HEADER_SIZE..];
    var nSize := |data| % 0x1_0000_0000;
    strm[..MESSAGE_SIZE_OFFSET] + WriteLE32(nSize) + hash(data)[..CHECKSUM_SIZE] + data
  }

  // The message that a stream holds.
  function InStream(strm: seq<byte>): (m: Message)
    requires |strm| >= HEADER_SIZE
  {
    Message(strm[..HEADER_SIZE], strm[HEADER_SIZE..])
  }

  lemma DivideTwice(n: nat, a: nat, b: nat)
    requires a > 0 && b > 0
    ensures a * b > 0 && n / (a * b) == n / a / b
  {
    var q, r := n / a / b, n / a % b;
    Product(1, a, 1, b);
    Distribute(q * b, r, a);
    Associate(q, b, a);
    MulMonotone(r + 1, b, a);
    Distribute(r, 1, a);
    DivisionIs(n, a * b, q, r * a + n % a);
  }

  lemma SizeRoundTrip(n: nat)
    requires n < 0x1_0000_0000
    ensures ReadLE32(WriteLE32(n)) == n
  {
    DivideTwice(n, 0x100, 0x100);
    DivideTwice(n, 0x1_0000, 0x100);
  }

  // A finished message is complete, as long as its size fits: the size in its header is that of its
  // data. The checksum is the beginning of the data's hash; all else is as it was.
  lemma FinishedIsComplete(hash: seq<byte> -> seq<byte>, strm: seq<byte>)
    requires |strm| >= HEADER_SIZE && |hash(strm[HEADER_SIZE..])| >= CHECKSUM_SIZE
    ensures var before, m := InStream(strm), InStream(EndMessage(hash, strm));
      && (Complete(m) <==> |m.data| < 0x1_0000_0000)
      && |m.data| % 0x1_0000_0000
         == m.header[16] as nat + 0x100 * m.header[17] as nat + 0x1_0000 * m.header[18] as nat
            + 0x100_0000 * m.header[19] as nat
      && m.data == before.data && m.header[..MESSAGE_SIZE_OFFSET] == before.header[..MESSAGE_SIZE_OFFSET]
      && m.header[CHECKSUM_OFFSET..] == hash(m.data)[..CHECKSUM_SIZE]
  {
    var m := InStream(EndMessage(hash, strm));
    assert m.data == strm[HEADER_SIZE..];
    SizeRoundTrip(|m.data| % 0x1_0000_0000);
    assert m.header[MESSAGE_SIZE_OFFSET..CHECKSUM_OFFSET] == WriteLE32(|m.data| % 0x1_0000_0000);
  }

  // A header is refused exactly if it announces more than six million bytes.
  lemma RefusesOversize(messages: seq<Message>, header: seq<byte>)
    requires (messages != [] ==> Complete(messages[|messages| - 1])) && |header| == HEADER_SIZE
    ensures FeedAll(Received(messages, false), header)
         == Received(messages + [Message(header, [])], MessageSize(header) > 6_000_000)
  {
    var blank := Message([], []);
    var open := messages + [blank];
    assert Feed(Received(messages, false), header[0]) == Feed(Received(open, false), header[0]);
    FeedHeader(open, blank, header);
    assert blank.header + header == header;
    assert open[|messages| := Message(header, [])] == messages + [Message(header, [])];
  }

  ghost predicate Acceptable(m: Message) {
    Complete(m) && MessageSize(m.header) <= MAX_PROTOCOL_MESSAGE_LENGTH
  }

  lemma DeliverOne(messages: seq<Message>, m: Message)
    requires Acceptable(m) && (messages != [] ==> Complete(messages[|messages| - 1]))
    ensures FeedAll(Received(messages, false), m.header + m.data) == Received(messages + [m], false)
  {
    var blank := Message([], []);
    var open := messages + [blank];
    var headed := messages + [Message(m.header, [])];
    FeedSplit(Received(messages, false), m.header, m.data);
    assert Feed(Received(messages, false), m.header[0]) == Feed(Received(open, false), m.header[0]);
    assert FeedAll(Received(messages, false), m.header) == FeedAll(Received(open, false), m.header);
    FeedHeader(open, blank, m.header);
    assert blank.header + m.header == m.header;
    assert [] + m.data == m.data;
    assert open[|messages| := Message(m.header, [])] == headed;
    FeedData(headed, Message(m.header, []), m.data);
    assert headed[|messages| := m] == messages + [m];
  }

  // The receiver gets exactly the messages that were sent.
  lemma {:induction false} Deliver(sent: seq<Message>)
    requires forall i :: 0 <= i < |sent| ==> Acceptable(sent[i])
    ensures FeedAll(NOTHING, Wire(sent)) == Received(sent, false)
  {
    if sent != [] {
      var init, m := sent[..|sent| - 1], sent[|sent| - 1];
      Deliver(init);
      assert Wire(sent) == Wire(init) + (m.header + m.data);
      FeedSplit(NOTHING, Wire(init), m.header + m.data);
      DeliverOne(init, m);
      assert init + [m] == sent;
    }
  }

  // What has arrived complete stays as it is.
  lemma {:induction false} FeedGrows(s: Received, stream: seq<byte>)
    ensures var r := FeedAll(s, stream);
      && (s.refused ==> r.refused)
      && forall i :: 0 <= i < |s.messages| && Complete(s.messages[i]) ==>
                       i < |r.messages| && r.messages[i] == s.messages[i]
    decreases |stream|
  {
    if stream != [] {
      FeedGrows(Feed(s, stream[0]), stream[1..]);
    }
  }

  // However far the transfer has got, what has arrived complete is the beginning of what was sent.
  lemma PrefixDelivered(sent: seq<Message>, k: nat)
    requires (forall i :: 0 <= i < |sent| ==> Acceptable(sent[i])) && k <= |Wire(sent)|
    ensures var r := FeedAll(NOTHING, Wire(sent)[..k]);
      !r.refused && forall i :: 0 <= i < |r.messages| && Complete(r.messages[i]) ==>
        i < |sent| && r.messages[i] == sent[i]
  {
    var wire := Wire(sent);
    assert wire[..k] + wire[k..] == wire;
    FeedSplit(NOTHING, wire[..k], wire[k..]);
    FeedGrows(FeedAll(NOTHING, wire[..k]), wire[k..]);
    Deliver(sent);
  }
}
