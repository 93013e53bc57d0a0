/** Mnemonic sentences (BIP 39, section "Generating the mnemonic"): entropy and a checksum as words of 11 bits. */
module Mnemonic {
  import opened Bits
  import opened Helpers

  // The first byte of the hash of the entropy.
  type Checksum = seq<byte> -> byte

  // 2048 different words of one to eight letters.
  ghost predicate WordlistOk(wordlist: seq<string>) {
    && |wordlist| == 2048
    && (forall i, j :: 0 <= i < j < 2048 ==> wordlist[i] != wordlist[j])
    && forall i :: 0 <= i < 2048 ==> 0 < |wordlist[i]| <= 8 && ' ' !in wordlist[i]
  }

  /* ---- Bits ---- */

  // The low w bits of a number, most significant first.
  function BitsOf(n: nat, w: nat): (r: seq<bool>)
    ensures |r| == w
  {
    if w == 0 then [] else BitsOf(n / 2, w - 1) + [n % 2 == 1]
  }

  function NumOf(b: seq<bool>): (r: nat) {
    if b == [] then 0 else 2 * NumOf(b[..|b| - 1]) + if b[|b| - 1] then 1 else 0
  }

  lemma {:induction false} NumOfBits(n: nat, w: nat)
    requires n < Shl(1, w)
    ensures NumOf(BitsOf(n, w)) == n
  {
    if w > 0 {
      ShlAdds(1, 1, w - 1);
      NumOfBits(n / 2, w - 1);
      assert BitsOf(n, w)[..w - 1] == BitsOf(n / 2, w - 1);
    }
  }

  lemma NumOfHalves(b: seq<bool>)
    requires b != []
    ensures NumOf(b) / 2 == NumOf(b[..|b| - 1]) && (NumOf(b) % 2 == 1) == b[|b| - 1]
  {}

  lemma {:induction false} BitsOfNum(b: seq<bool>)
    ensures BitsOf(NumOf(b), |b|) == b && NumOf(b) < Shl(1, |b|)
  {
    if b != [] {
      var init, last := b[..|b| - 1], b[|b| - 1];
      BitsOfNum(init);
      ShlAdds(1, 1, |b| - 1);
      NumOfHalves(b);
      assert BitsOf(NumOf(b), |b|) == BitsOf(NumOf(init), |b| - 1) + [last];
      assert b == init + [last];
    }
  }

  lemma {:induction false} BitAt(n: nat, w: nat, j: nat)
    requires j < w
    ensures BitsOf(n, w)[j] == Bit(n, w - 1 - j)
  {
    if j < w - 1 {
      BitAt(n / 2, w - 1, j);
    }
  }

  // The bits of bytes in order.
  function Stream(bytes: seq<byte>): (r: seq<bool>)
    ensures |r| == 8 * |bytes|
  {
    if bytes == [] then [] else Stream(bytes[..|bytes| - 1]) + BitsOf(bytes[|bytes| - 1], 8)
  }

  // The bytes that n times eight bits make.
  function Bytes(bits: seq<bool>, n: nat): (r: seq<byte>)
    requires 8 * n <= |bits|
    ensures |r| == n
  {
    if n == 0 then [] else
      BitsOfNum(bits[8 * n - 8..8 * n]);
      Powers();
      Bytes(bits, n - 1) + [NumOf(bits[8 * n - 8..8 * n])]
  }

  lemma ByteEnds(bits: seq<bool>, n: nat)
    requires 8 * (n + 1) <= |bits|
    ensures bits[..8 * (n + 1)] == bits[..8 * n] + bits[8 * n..8 * (n + 1)]
  {}

  lemma StreamSnoc(bytes: seq<byte>, last: byte)
    ensures Stream(bytes + [last]) == Stream(bytes) + BitsOf(last, 8)
  {
    assert (bytes + [last])[..|bytes|] == bytes;
  }

  lemma {:induction false} StreamOfBytes(bits: seq<bool>, n: nat)
    requires 8 * n <= |bits|
    ensures Stream(Bytes(bits, n)) == bits[..8 * n]
  {
    if n > 0 {
      var group := bits[8 * (n - 1)..8 * n];
      StreamOfBytes(bits, n - 1);
      BitsOfNum(group);
      Powers();
      assert Bytes(bits, n) == Bytes(bits, n - 1) + [NumOf(group)];
      StreamSnoc(Bytes(bits, n - 1), NumOf(group));
      ByteEnds(bits, n - 1);
    }
  }

  lemma Middle<T>(a: seq<T>, b: seq<T>, c: seq<T>)
    ensures a + b + c == a + (b + c) && (a + (b + c))[|a|..|a| + |b|] == b && (a + (b + c))[|a|..] == b + c
  {}

  lemma {:induction false} BytesOfStream(bytes: seq<byte>, more: seq<bool>)
    ensures Bytes(Stream(bytes) + more, |bytes|) == bytes
  {
    if bytes != [] {
      var init, last := bytes[..|bytes| - 1], bytes[|bytes| - 1];
      Middle(Stream(init), BitsOf(last, 8), more);
      BytesOfStream(init, BitsOf(last, 8) + more);
      Powers();
      NumOfBits(last, 8);
      assert bytes == init + [last];
    }
  }

  /* ---- Groups of eleven bits ---- */

  function Indexes(bits: seq<bool>, n: nat): (r: seq<nat>)
    requires 11 * n <= |bits|
    ensures |r| == n && forall i :: 0 <= i < n ==> r[i] < 2048
  {
    if n == 0 then [] else
      BitsOfNum(bits[11 * n - 11..11 * n]);
      Powers();
      Indexes(bits, n - 1) + [NumOf(bits[11 * n - 11..11 * n])]
  }

  function FromIndexes(indexes: seq<nat>): (r: seq<bool>)
    ensures |r| == 11 * |indexes|
  {
    if indexes == [] then [] else FromIndexes(indexes[..|indexes| - 1]) + BitsOf(indexes[|indexes| - 1], 11)
  }

  lemma GroupEnds(bits: seq<bool>, n: nat)
    requires 11 * (n + 1) <= |bits|
    ensures bits[..11 * (n + 1)] == bits[..11 * n] + bits[11 * n..11 * (n + 1)]
  {}

  lemma IndexesSnoc(bits: seq<bool>, n: nat)
    requires 11 * (n + 1) <= |bits|
    ensures Indexes(bits, n + 1) == Indexes(bits, n) + [NumOf(bits[11 * n..11 * (n + 1)])]
  {}

  lemma FromIndexesSnoc(indexes: seq<nat>, index: nat)
    ensures FromIndexes(indexes + [index]) == FromIndexes(indexes) + BitsOf(index, 11)
  {
    assert (indexes + [index])[..|indexes|] == indexes;
  }

  lemma {:induction false} FromIndexesOf(bits: seq<bool>, n: nat)
    requires 11 * n <= |bits|
    ensures FromIndexes(Indexes(bits, n)) == bits[..11 * n]
  {
    if n > 0 {
      var group := bits[11 * (n - 1)..11 * n];
      FromIndexesOf(bits, n - 1);
      BitsOfNum(group);
      IndexesSnoc(bits, n - 1);
      FromIndexesSnoc(Indexes(bits, n - 1), NumOf(group));
      GroupEnds(bits, n - 1);
    }
  }

  lemma {:induction false} IndexesOfFrom(indexes: seq<nat>, more: seq<bool>)
    requires forall i :: 0 <= i < |indexes| ==> indexes[i] < 2048
    ensures Indexes(FromIndexes(indexes) + more, |indexes|) == indexes
  {
    if indexes != [] {
      var init, last := indexes[..|indexes| - 1], indexes[|indexes| - 1];
      Middle(FromIndexes(init), BitsOf(last, 11), more);
      IndexesOfFrom(init, BitsOf(last, 11) + more);
      Powers();
      NumOfBits(last, 11);
      assert indexes == init + [last];
    }
  }

  /* ---- Sentences ---- */

  function Join(words: seq<string>): (r: string) {
    if words == [] then "" else if |words| == 1 then words[0] else words[0] + " " + Join(words[1..])
  }

  // The characters up to the first space.
  function FirstWord(m: string): (r: string)
    ensures |r| <= |m|
  {
    if m == "" || m[0] == ' ' then "" else [m[0]] + FirstWord(m[1..])
  }

  lemma {:induction false} FirstWordIs(m: string)
    ensures var w := FirstWord(m); w == m[..|w|] && (|w| < |m| ==> m[|w|] == ' ') && ' ' !in w
  {
    if m != "" && m[0] != ' ' {
      FirstWordIs(m[1..]);
    }
  }

  function Split(m: string): (r: seq<string>)
    ensures |r| >= 1
    decreases |m|
  {
    var first := FirstWord(m);
    if |first| == |m| then [m] else [first] + Split(m[|first| + 1..])
  }

  lemma JoinFirst(w: string, rest: seq<string>)
    requires rest != []
    ensures Join([w] + rest) == w + " " + Join(rest)
  {
    assert ([w] + rest)[1..] == rest;
  }

  lemma SplitOnce(m: string, w: string, rest: string)
    requires w == FirstWord(m) && |w| < |m| && rest == m[|w| + 1..]
    ensures Split(m) == [w] + Split(rest) && m == w + " " + rest
  {
    FirstWordIs(m);
    assert m == m[..|w|] + [m[|w|]] + m[|w| + 1..];
  }

  lemma {:induction false} JoinSplit(m: string)
    ensures Join(Split(m)) == m
    decreases |m|
  {
    var w := FirstWord(m);
    if |w| == |m| {
      assert Split(m) == [m];
    } else {
      var rest := m[|w| + 1..];
      SplitOnce(m, w, rest);
      JoinSplit(rest);
      JoinFirst(w, Split(rest));
    }
  }

  lemma {:induction false} FirstWordOf(w: string, rest: string)
    requires ' ' !in w && (rest == "" || rest[0] == ' ')
    ensures FirstWord(w + rest) == w
  {
    if w == "" {
      assert w + rest == rest;
    } else {
      assert (w + rest)[1..] == w[1..] + rest;
      FirstWordOf(w[1..], rest);
    }
  }

  // A sentence splits at its first space.
  lemma SplitFirst(w: string, rest: string)
    requires ' ' !in w
    ensures Split(w + (" " + rest)) == [w] + Split(rest)
  {
    var m := w + (" " + rest);
    FirstWordOf(w, " " + rest);
    assert m[|w| + 1..] == rest;
  }

  lemma {:induction false} SplitJoin(words: seq<string>)
    requires words != [] && forall i :: 0 <= i < |words| ==> ' ' !in words[i]
    ensures Split(Join(words)) == words
  {
    if |words| == 1 {
      FirstWordOf(words[0], "");
      assert words[0] + "" == words[0];
    } else {
      SplitJoin(words[1..]);
      SplitFirst(words[0], Join(words[1..]));
      Middle(words[0], " ", Join(words[1..]));
      assert words == [words[0]] + words[1..];
    }
  }

  function IndexOf(wordlist: seq<string>, w: string): (r: nat)
    ensures r <= |wordlist| && (r < |wordlist| ==> wordlist[r] == w) && (r == |wordlist| ==> w !in wordlist)
    ensures forall i :: 0 <= i < r ==> wordlist[i] != w
  {
    if wordlist == [] || wordlist[0] == w then 0 else 1 + IndexOf(wordlist[1..], w)
  }

  function Words(wordlist: seq<string>, indexes: seq<nat>): (r: seq<string>)
    requires forall i :: 0 <= i < |indexes| ==> indexes[i] < |wordlist|
    ensures |r| == |indexes| && forall i :: 0 <= i < |r| ==> r[i] == wordlist[indexes[i]]
  {
    seq(|indexes|, i requires 0 <= i < |indexes| => wordlist[indexes[i]])
  }

  function Lookup(wordlist: seq<string>, words: seq<string>): (r: seq<nat>)
    ensures |r| == |words| && forall i :: 0 <= i < |r| ==> r[i] == IndexOf(wordlist, words[i])
  {
    seq(|words|, i requires 0 <= i < |words| => IndexOf(wordlist, words[i]))
  }

  /* ---- Making and checking ---- */

  predicate GoodLength(len: int) {
    len % 4 == 0 && 16 <= len <= 32
  }

  function SentenceOf(wordlist: seq<string>, sum: Checksum, data: seq<byte>): (r: string)
    requires |wordlist| == 2048 && GoodLength(|data|)
  {
    Join(Words(wordlist, Indexes(Stream(data + [sum(data)]), |data| * 3 / 4)))
  }

  // The bits of the words of a sentence.
  function Decoded(wordlist: seq<string>, m: string): (r: seq<bool>) {
    FromIndexes(Lookup(wordlist, Split(m)))
  }

  ghost predicate Accepted(wordlist: seq<string>, sum: Checksum, m: string) {
    var words := Split(m);
    && |words| in {12, 18, 24} && (forall i :: 0 <= i < |words| ==> words[i] in wordlist)
    && var n := |words| * 4 / 3;
      var bits := Decoded(wordlist, m);
      bits[8 * n..] == BitsOf(sum(Bytes(bits, n)), 8)[..n / 4]
  }

  lemma LookupWords(wordlist: seq<string>, indexes: seq<nat>)
    requires WordlistOk(wordlist) && forall i :: 0 <= i < |indexes| ==> indexes[i] < 2048
    ensures Lookup(wordlist, Words(wordlist, indexes)) == indexes
  {}

  lemma WordsLookup(wordlist: seq<string>, words: seq<string>)
    requires forall i :: 0 <= i < |words| ==> words[i] in wordlist
    ensures Words(wordlist, Lookup(wordlist, words)) == words
  {}

  // Eleven bits per word are the data and a bit of checksum for every 32 bits of it.
  lemma GroupsCover(data: seq<byte>, sum: byte)
    requires GoodLength(|data|)
    ensures |Stream(data)| + |data| / 4 == 11 * (|data| * 3 / 4)
    ensures Stream(data + [sum]) == Stream(data) + BitsOf(sum, 8)
    ensures Stream(data + [sum])[..11 * (|data| * 3 / 4)] == Stream(data) + BitsOf(sum, 8)[..|data| / 4]
  {
    StreamSnoc(data, sum);
  }

  lemma WordsAreListed(wordlist: seq<string>, indexes: seq<nat>)
    requires WordlistOk(wordlist) && indexes != [] && forall i :: 0 <= i < |indexes| ==> indexes[i] < 2048
    ensures var m := Join(Words(wordlist, indexes));
      && Split(m) == Words(wordlist, indexes) && Decoded(wordlist, m) == FromIndexes(indexes)
  {
    SplitJoin(Words(wordlist, indexes));
    LookupWords(wordlist, indexes);
  }

  // What the sentence of some data splits into and decodes to: the data, then the checksum's first bits.
  lemma SentenceDecodes(wordlist: seq<string>, sum: Checksum, data: seq<byte>)
    requires WordlistOk(wordlist) && GoodLength(|data|)
    ensures var m, n := SentenceOf(wordlist, sum, data), |data|;
      && |Split(m)| == n * 3 / 4 && (forall i :: 0 <= i < |Split(m)| ==> Split(m)[i] in wordlist)
      && Decoded(wordlist, m) == Stream(data) + BitsOf(sum(data), 8)[..n / 4]
  {
    var n := |data|;
    GroupsCover(data, sum(data));
    var bits := Stream(data + [sum(data)]);
    WordsAreListed(wordlist, Indexes(bits, n * 3 / 4));
    FromIndexesOf(bits, n * 3 / 4);
  }

  // A generated sentence decodes to the data.
  lemma DataRecovered(wordlist: seq<string>, sum: Checksum, data: seq<byte>)
    requires WordlistOk(wordlist) && GoodLength(|data|)
    ensures var bits := Decoded(wordlist, SentenceOf(wordlist, sum, data));
      && 8 * |data| <= |bits| && Bytes(bits, |data|) == data
      && bits[8 * |data|..] == BitsOf(sum(data), 8)[..|data| / 4]
  {
    SentenceDecodes(wordlist, sum, data);
    BytesOfStream(data, BitsOf(sum(data), 8)[..|data| / 4]);
  }

  // A generated sentence passes the check exactly for 16, 24 or 32 bytes of entropy.
  lemma SentenceAccepted(wordlist: seq<string>, sum: Checksum, data: seq<byte>)
    requires WordlistOk(wordlist) && GoodLength(|data|)
    ensures Accepted(wordlist, sum, SentenceOf(wordlist, sum, data)) <==> |data| in {16, 24, 32}
  {
    var m := SentenceOf(wordlist, sum, data);
    SentenceDecodes(wordlist, sum, data);
    DataRecovered(wordlist, sum, data);
    if |data| in {16, 24, 32} {
      assert |Split(m)| * 4 / 3 == |data|;
    }
  }

  lemma Overlap<T>(a: seq<T>, k: nat, c: seq<T>, j: nat)
    requires k <= |a| && j <= |c| && a[k..] == c[..j]
    ensures a + c[j..] == a[..k] + c
  {
    assert c == c[..j] + c[j..] && a == a[..k] + a[k..];
  }

  lemma AcceptedBits(bits: seq<bool>, n: nat, sum: byte)
    requires 8 * n <= |bits| && n / 4 <= 8 && bits[8 * n..] == BitsOf(sum, 8)[..n / 4]
    ensures Stream(Bytes(bits, n) + [sum]) == bits + BitsOf(sum, 8)[n / 4..]
  {
    Overlap(bits, 8 * n, BitsOf(sum, 8), n / 4);
    StreamOfBytes(bits, n);
    StreamSnoc(Bytes(bits, n), sum);
  }

  lemma IndexesFrom(wordlist: seq<string>, m: string, more: seq<bool>)
    requires WordlistOk(wordlist) && forall i :: 0 <= i < |Split(m)| ==> Split(m)[i] in wordlist
    ensures Join(Words(wordlist, Indexes(Decoded(wordlist, m) + more, |Split(m)|))) == m
  {
    IndexesOfFrom(Lookup(wordlist, Split(m)), more);
    WordsLookup(wordlist, Split(m));
    JoinSplit(m);
  }

  // Only generated sentences pass the check.
  lemma AcceptedIsSentence(wordlist: seq<string>, sum: Checksum, m: string)
    requires WordlistOk(wordlist) && Accepted(wordlist, sum, m)
    ensures var data := Bytes(Decoded(wordlist, m), |Split(m)| * 4 / 3);
      |data| in {16, 24, 32} && m == SentenceOf(wordlist, sum, data)
  {
    var k := |Split(m)|;
    assert k in {12, 18, 24} && k * 4 / 3 * 3 / 4 == k && GoodLength(k * 4 / 3);
    ChecksumFits(wordlist, sum, m, k * 4 / 3, Decoded(wordlist, m));
  }

  lemma ChecksumFits(wordlist: seq<string>, sum: Checksum, m: string, n: nat, bits: seq<bool>)
    requires WordlistOk(wordlist) && (forall i :: 0 <= i < |Split(m)| ==> Split(m)[i] in wordlist)
    requires bits == Decoded(wordlist, m) && 8 * n <= |bits| && GoodLength(n) && n * 3 / 4 == |Split(m)|
    requires bits[8 * n..] == BitsOf(sum(Bytes(bits, n)), 8)[..n / 4]
    ensures m == SentenceOf(wordlist, sum, Bytes(bits, n))
  {
    var check := sum(Bytes(bits, n));
    AcceptedBits(bits, n, check);
    IndexesFrom(wordlist, m, BitsOf(check, 8)[n / 4..]);
  }
}
