/** Mnemonics as the program makes and checks them: bits read and written with masks in a byte buffer. */
module MnemonicCodec {
  import opened Bits
  import opened Helpers
  import opened Mnemonic

  // The first byte of a hash.
  function FirstByte(hash: seq<byte> -> seq<byte>): (r: Checksum) {
    b => if hash(b) == [] then 0 else hash(b)[0]
  }

  /* ---- Masks ---- */

  lemma {:induction false} StreamBit(bytes: seq<byte>, k: nat)
    requires k < 8 * |bytes|
    ensures Stream(bytes)[k] == Bit(bytes[k / 8], 7 - k % 8)
  {
    var n := |bytes| - 1;
    if k < 8 * n {
      StreamBit(bytes[..n], k);
    } else {
      BitAt(bytes[n], 8, k - 8 * n);
    }
  }

  lemma {:induction false} BitsDetermine(x: nat, y: nat, w: nat)
    requires x < Shl(1, w) && y < Shl(1, w) && forall b :: 0 <= b < w ==> Bit(x, b) == Bit(y, b)
    ensures x == y
  {
    if w > 0 {
      ShlAdds(1, 1, w - 1);
      forall b | 0 <= b < w - 1
        ensures Bit(x / 2, b) == Bit(y / 2, b)
      {
        assert Bit(x, b + 1) == Bit(y, b + 1);
      }
      BitsDetermine(x / 2, y / 2, w - 1);
      assert Bit(x, 0) == Bit(y, 0);
    }
  }

  // Two bytes agree under a mask of the top k bits if their first k bits are the same.
  lemma MaskCompares(x: byte, y: byte, mask: byte, k: nat)
    requires k <= 8 && forall b :: 0 <= b < 8 ==> (Bit(mask, b) <==> b >= 8 - k)
    ensures And(x, mask) == And(y, mask) <==> BitsOf(x, 8)[..k] == BitsOf(y, 8)[..k]
  {
    forall b | 0 <= b < 8
      ensures Bit(And(x, mask), b) == (Bit(x, b) && b >= 8 - k) && Bit(And(y, mask), b) == (Bit(y, b) && b >= 8 - k)
      ensures BitsOf(x, 8)[7 - b] == Bit(x, b) && BitsOf(y, 8)[7 - b] == Bit(y, b)
    {
      AndBit(x, mask, b);
      AndBit(y, mask, b);
      BitAt(x, 8, 7 - b);
      BitAt(y, 8, 7 - b);
    }
    Powers();
    WordBounds(x, mask, 8);
    WordBounds(y, mask, 8);
    if BitsOf(x, 8)[..k] == BitsOf(y, 8)[..k] {
      forall b | 0 <= b < 8
        ensures Bit(And(x, mask), b) == Bit(And(y, mask), b)
      {
        if b >= 8 - k {
          assert BitsOf(x, 8)[..k][7 - b] == BitsOf(y, 8)[..k][7 - b];
        }
      }
      BitsDetermine(And(x, mask), And(y, mask), 8);
    }
    if And(x, mask) == And(y, mask) {
      forall j | 0 <= j < k
        ensures BitsOf(x, 8)[j] == BitsOf(y, 8)[j]
      {
        assert Bit(And(x, mask), 7 - j) == Bit(And(y, mask), 7 - j);
      }
      assert BitsOf(x, 8)[..k] == BitsOf(y, 8)[..k];
    }
  }

  // bits[k / 8] |= 1 << (7 - k % 8) sets bit k of the stream.
  lemma StreamSet(bytes: seq<byte>, k: nat)
    requires k < 8 * |bytes|
    ensures Or(bytes[k / 8], Shl(1, 7 - k % 8)) < 256
    ensures Stream(bytes[k / 8 := Or(bytes[k / 8], Shl(1, 7 - k % 8))]) == Stream(bytes)[k := true]
  {
    Powers();
    OrFits(bytes[k / 8], 7 - k % 8, 8);
    var after := bytes[k / 8 := Or(bytes[k / 8], Shl(1, 7 - k % 8))];
    var was, now := Stream(bytes), Stream(after);
    forall i | 0 <= i < 8 * |bytes|
      ensures now[i] == was[k := true][i]
    {
      StreamSetAt(bytes, k, after, i);
    }
  }

  lemma StreamSetAt(bytes: seq<byte>, k: nat, after: seq<byte>, i: nat)
    requires k < 8 * |bytes| && i < 8 * |bytes| && |after| == |bytes|
    requires after[i / 8] == if i / 8 == k / 8 then Or(bytes[k / 8], Shl(1, 7 - k % 8)) else bytes[i / 8]
    ensures Stream(after)[i] == (i == k || Stream(bytes)[i])
  {
    StreamBit(bytes, i);
    StreamBit(after, i);
    if i / 8 == k / 8 {
      OrOne(bytes[k / 8], 7 - k % 8, 7 - i % 8);
      SameByte(i, k);
    }
  }

  lemma SameByte(i: nat, k: nat)
    requires i / 8 == k / 8
    ensures i == k <==> i % 8 == k % 8
  {}

  /* ---- Making a sentence ---- */

  lemma {:induction false} JoinSnoc(words: seq<string>, w: string)
    ensures Join(words + [w]) == if words == [] then w else Join(words) + " " + w
  {
    if words == [] {
      assert [] + [w] == [w];
    } else {
      var first, rest := words[0], words[1..];
      assert words == [first] + rest && words + [w] == [first] + (rest + [w]);
      JoinFirst(first, rest + [w]);
      JoinSnoc(rest, w);
      if rest != [] {
        JoinFirst(first, rest);
        Append3(first + " ", Join(rest) + " ", w);
        Append3(first + " ", Join(rest), " ");
      }
    }
  }

  lemma OneMore<T>(all: seq<T>, n: nat)
    requires n < |all|
    ensures all[..n] + [all[n]] == all[..n + 1]
  {}

  lemma NumOfMore(bits: seq<bool>, i: nat, k: nat)
    requires i <= k < |bits|
    ensures NumOf(bits[i..k + 1]) == 2 * NumOf(bits[i..k]) + if bits[k] then 1 else 0
  {
    assert bits[i..k + 1][..k - i] == bits[i..k];
  }

  // The eleven bits of word i, read one by one.
  method ReadIndex(bits: seq<byte>, i: nat, ghost n: nat) returns (idx: nat)
    requires i < n && 11 * n <= 8 * |bits|
    ensures idx == Indexes(Stream(bits), n)[i] < 2048
  {
    ghost var stream := Stream(bits);
    idx := 0;
    for j := 0 to 11
      invariant idx == NumOf(stream[11 * i..11 * i + j])
    {
      var k := i * 11 + j;
      StreamBit(bits, k);
      AndMask(bits[k / 8], 7 - k % 8);
      NumOfMore(stream, 11 * i, k);
      idx := 2 * idx;
      idx := idx + if And(bits[k / 8], Shl(1, 7 - k % 8)) > 0 then 1 else 0;
    }
    IndexAt(stream, n, i);
  }

  method FromData(wordlist: seq<string>, hash: seq<byte> -> seq<byte>, data: seq<byte>, len: int)
    returns (mnemonic: string)
    requires |wordlist| == 2048 && (GoodLength(len) ==> len <= |data|) && forall b :: |hash(b)| == 32
    ensures mnemonic == if GoodLength(len) then SentenceOf(wordlist, FirstByte(hash), data[..len]) else ""
  {
    if len % 4 != 0 || len < 16 || len > 32 {
      return "";
    }
    var checksum := hash(data[..len]);
    var bits := data[..len];
    bits := bits + [checksum[0]];
    var mlen := len * 3 / 4;
    mnemonic := JoinWords(wordlist, bits, mlen, Words(wordlist, Indexes(Stream(bits), mlen)));
    assert bits == data[..len] + [FirstByte(hash)(data[..len])];
  }

  lemma JoinMore(words: seq<string>, i: nat)
    requires i < |words|
    ensures Join(words[..i]) + (if 0 < i then " " else "") + words[i] == Join(words[..i + 1])
  {
    OneMore(words, i);
    JoinSnoc(words[..i], words[i]);
    if i == 0 {
      assert Join(words[..i]) + "" + words[i] == words[i];
    }
  }

  // The words of the first mlen groups of eleven bits, with spaces between them.
  method JoinWords(wordlist: seq<string>, bits: seq<byte>, mlen: nat, ghost words: seq<string>)
    returns (mnemonic: string)
    requires |wordlist| == 2048 && 11 * mlen <= 8 * |bits| && words == Words(wordlist, Indexes(Stream(bits), mlen))
    ensures mnemonic == Join(words)
  {
    mnemonic := "";
    for i := 0 to mlen
      invariant mnemonic == Join(words[..i]) + if 0 < i < mlen then " " else ""
    {
      var idx := ReadIndex(bits, i, mlen);
      JoinMore(words, i);
      mnemonic := mnemonic + wordlist[idx];
      if i < mlen - 1 {
        mnemonic := mnemonic + " ";
      }
    }
    assert words[..mlen] == words;
  }

  lemma {:induction false} IndexAt(bits: seq<bool>, n: nat, i: nat)
    requires 11 * n <= |bits| && i < n
    ensures Indexes(bits, n)[i] == NumOf(bits[11 * i..11 * (i + 1)])
  {
    if i < n - 1 {
      IndexAt(bits, n - 1, i);
    }
  }

  /* ---- Checking a sentence ---- */

  function Spaces(m: string): (r: nat) {
    if m == "" then 0 else (if m[0] == ' ' then 1 else 0) + Spaces(m[1..])
  }

  lemma {:induction false} NoSpaces(w: string, rest: string)
    requires ' ' !in w
    ensures Spaces(w + rest) == Spaces(rest)
  {
    if w == "" {
      assert w + rest == rest;
    } else {
      assert (w + rest)[1..] == w[1..] + rest;
      NoSpaces(w[1..], rest);
    }
  }

  lemma {:induction false} SplitCounts(m: string)
    ensures |Split(m)| == Spaces(m) + 1
    decreases |m|
  {
    var first := FirstWord(m);
    FirstWordIs(m);
    var rest := m[|first|..];
    assert m == first + rest;
    NoSpaces(first, rest);
    if |first| < |m| {
      assert rest[1..] == m[|first| + 1..];
      SplitCounts(m[|first| + 1..]);
    }
  }

  method CountWords(mnemonic: string) returns (nWordCount: nat)
    ensures nWordCount == |Split(mnemonic)|
  {
    nWordCount := 0;
    for i := 0 to |mnemonic|
      invariant nWordCount + Spaces(mnemonic[i..]) == Spaces(mnemonic)
    {
      assert mnemonic[i..][1..] == mnemonic[i + 1..];
      if mnemonic[i] == ' ' {
        nWordCount := nWordCount + 1;
      }
    }
    nWordCount := nWordCount + 1;
    SplitCounts(mnemonic);
  }

  // The word at a position; one that does not end within nine letters is given up.
  method ReadWord(mnemonic: string, i: nat) returns (ok: bool, word: string)
    requires i <= |mnemonic|
    ensures ok <==> |FirstWord(mnemonic[i..])| <= 9
    ensures ok ==> word == FirstWord(mnemonic[i..])
  {
    word := "";
    while i + |word| < |mnemonic| && mnemonic[i + |word|] != ' '
      invariant i + |word| <= |mnemonic| && word == mnemonic[i..i + |word|] && ' ' !in word && |word| <= 9
      decreases |mnemonic| - i - |word|
    {
      if |word| >= 9 {
        assert mnemonic[i..] == mnemonic[i..i + 10] + mnemonic[i + 10..];
        LongFirstWord(mnemonic[i..], 10);
        return false, word;
      }
      word := word + [mnemonic[i + |word|]];
    }
    assert mnemonic[i..] == word + mnemonic[i + |word|..];
    FirstWordOf(word, mnemonic[i + |word|..]);
    ok := true;
  }

  lemma {:induction false} LongFirstWord(m: string, n: nat)
    requires n <= |m| && forall k :: 0 <= k < n ==> m[k] != ' '
    ensures |FirstWord(m)| >= n
  {
    if n > 0 {
      LongFirstWord(m[1..], n - 1);
    }
  }

  // The position of a word in the list, by linear search.
  method FindWord(wordlist: seq<string>, word: string) returns (nWordIndex: nat)
    ensures nWordIndex == IndexOf(wordlist, word)
  {
    nWordIndex := 0;
    while nWordIndex < |wordlist| && word != wordlist[nWordIndex]
      invariant nWordIndex <= |wordlist| && forall k :: 0 <= k < nWordIndex ==> wordlist[k] != word
    {
      nWordIndex := nWordIndex + 1;
    }
  }

  function Falses(n: nat): (r: seq<bool>) {
    seq(n, i => false)
  }

  // One more bit written: the run of false bits behind it gets shorter.
  lemma BitWritten(done: seq<bool>, word: seq<bool>, ki: nat, left: nat)
    requires ki < |word| && left > 0
    ensures (done + word[..ki] + Falses(left))[|done| + ki := word[ki]] == done + word[..ki + 1] + Falses(left - 1)
    ensures (done + word[..ki] + Falses(left))[|done| + ki] == false
  {}

  // bits[n / 8] |= 1 << (7 - n % 8), if a bit of the index is set.
  method WriteBit(bits: array<byte>, n: nat, value: bool)
    requires n < 8 * bits.Length && !Stream(bits[..])[n]
    modifies bits
    ensures Stream(bits[..]) == old(Stream(bits[..]))[n := value]
  {
    if value {
      StreamSet(bits[..], n);
      ghost var after := bits[..][n / 8 := Or(bits[n / 8], Shl(1, 7 - n % 8))];
      bits[n / 8] := Or(bits[n / 8], Shl(1, 7 - n % 8));
      assert bits[..] == after;
    }
  }

  // Writes the eleven bits of an index behind the bits written so far.
  method WriteIndex(bits: array<byte>, nBitsCount: nat, nWordIndex: nat, ghost done: seq<bool>)
    requires nWordIndex < 2048 && |done| == nBitsCount && nBitsCount + 11 <= 8 * bits.Length
    requires Stream(bits[..]) == done + Falses(8 * bits.Length - nBitsCount)
    modifies bits
    ensures Stream(bits[..]) == done + BitsOf(nWordIndex, 11) + Falses(8 * bits.Length - nBitsCount - 11)
  {
    ghost var word := BitsOf(nWordIndex, 11);
    assert done + word[..0] == done;
    for ki := 0 to 11
      invariant Stream(bits[..]) == done + word[..ki] + Falses(8 * bits.Length - nBitsCount - ki)
    {
      BitAt(nWordIndex, 11, ki);
      AndMask(nWordIndex, 10 - ki);
      BitWritten(done, word, ki, 8 * bits.Length - nBitsCount - ki);
      WriteBit(bits, nBitsCount + ki, And(nWordIndex, Shl(1, 10 - ki)) != 0);
    }
    assert word[..11] == word;
  }

  ghost predicate Listed(wordlist: seq<string>, words: seq<string>) {
    forall k :: 0 <= k < |words| ==> words[k] in wordlist
  }

  // Where word k of a sentence starts.
  ghost function Offset(words: seq<string>, k: nat): (r: nat)
    requires k <= |words|
  {
    if k == 0 then 0 else Offset(words, k - 1) + |words[k - 1]| + 1
  }

  // The words of a sentence are what is found at their positions.
  ghost predicate LaidOut(m: string, words: seq<string>) {
    (forall k :: 0 <= k < |words| ==> LaidAt(m, words, k)) && Offset(words, |words|) == |m| + 1
  }

  ghost predicate LaidAt(m: string, words: seq<string>, k: nat)
    requires k < |words|
  {
    Offset(words, k) <= |m| && FirstWord(m[Offset(words, k)..]) == words[k]
  }

  lemma {:induction false} OffsetBehind(w: string, words: seq<string>, k: nat)
    requires k <= |words|
    ensures Offset([w] + words, k + 1) == |w| + 1 + Offset(words, k)
  {
    if k > 0 {
      OffsetBehind(w, words, k - 1);
    }
  }

  lemma {:induction false} SplitLaidOut(m: string)
    ensures LaidOut(m, Split(m))
    decreases |m|
  {
    var w := FirstWord(m);
    if |w| == |m| {
      OneWordLaidOut(m);
    } else {
      var tail := m[|w| + 1..];
      SplitOnce(m, w, tail);
      SplitLaidOut(tail);
      LaidFirst(m, [w] + Split(tail));
      LaidOutBehind(m, w, tail, Split(tail), [w] + Split(tail));
    }
  }

  lemma OneWordLaidOut(m: string)
    requires |FirstWord(m)| == |m|
    ensures LaidOut(m, [m])
  {
    FirstWordIs(m);
    assert m[..|m|] == m && m[0..] == m;
    assert Offset([m], 0) == 0 && Offset([m], 1) == |m| + 1;
  }

  lemma TailOf(m: string, k: nat, j: nat)
    requires k <= |m| && j <= |m| - k
    ensures m[k..][j..] == m[k + j..]
  {}

  lemma LaidAtBehind(m: string, w: string, tail: string, words: seq<string>, k: nat)
    requires |w| < |m| && tail == m[|w| + 1..] && k < |words| && LaidAt(tail, words, k)
    ensures LaidAt(m, [w] + words, k + 1)
  {
    var at := Offset(words, k);
    OffsetBehind(w, words, k);
    TailOf(m, |w| + 1, at);
    assert m[|w| + 1 + at..] == tail[at..];
    assert ([w] + words)[k + 1] == words[k];
  }

  lemma LaidFirst(m: string, all: seq<string>)
    requires all != [] && all[0] == FirstWord(m)
    ensures LaidAt(m, all, 0)
  {
    assert m[0..] == m;
  }

  lemma LaidOutBehind(m: string, w: string, tail: string, words: seq<string>, all: seq<string>)
    requires all == [w] + words && LaidAt(m, all, 0) && |w| < |m| && tail == m[|w| + 1..] && LaidOut(tail, words)
    ensures LaidOut(m, all)
  {
    forall k | 0 <= k < |all|
      ensures LaidAt(m, all, k)
    {
      if k > 0 {
        LaidAtBehind(m, w, tail, words, k - 1);
      }
    }
    OffsetBehind(w, words, |words|);
  }

  // At the end all words were found, unless the sentence ends in a space.
  lemma AllRead(wordlist: seq<string>, m: string, all: seq<string>, n: nat)
    requires WordlistOk(wordlist) && LaidOut(m, all) && n <= |all|
    requires Listed(wordlist, all[..n]) && Offset(all, n) >= |m|
    ensures n == |all| ==> all[..n] == all
    ensures n == |all| <==> Listed(wordlist, all)
  {
    if n < |all| {
      assert LaidAt(m, all, n);
      assert m[Offset(all, n)..] == "";
      assert all[n] == "";
    }
  }

  lemma LookupSnoc(wordlist: seq<string>, words: seq<string>, w: string)
    ensures FromIndexes(Lookup(wordlist, words + [w])) ==
      FromIndexes(Lookup(wordlist, words)) + BitsOf(IndexOf(wordlist, w), 11)
  {
    var indexes, index := Lookup(wordlist, words), IndexOf(wordlist, w);
    assert Lookup(wordlist, words + [w]) == indexes + [index];
    assert (indexes + [index])[..|indexes|] == indexes;
  }

  // Reads one word and writes its bits behind those of the words before it.
  method ReadAndWrite(wordlist: seq<string>, mnemonic: string, i: nat, bits: array<byte>, nBitsCount: nat,
                      ghost words: seq<string>)
    returns (found: bool, size: nat)
    requires WordlistOk(wordlist) && i < |mnemonic| && nBitsCount == 11 * |words| && nBitsCount + 11 <= 8 * bits.Length
    requires Stream(bits[..]) == FromIndexes(Lookup(wordlist, words)) + Falses(8 * bits.Length - nBitsCount)
    modifies bits
    ensures var w := FirstWord(mnemonic[i..]);
      && (found <==> w in wordlist) && (found ==> size == |w|)
      && (found ==>
            Stream(bits[..]) == FromIndexes(Lookup(wordlist, words + [w])) + Falses(8 * bits.Length - nBitsCount - 11))
  {
    var ok, ssCurrentWord := ReadWord(mnemonic, i);
    if !ok {
      return false, 0;
    }
    var nWordIndex := FindWord(wordlist, ssCurrentWord);
    if nWordIndex == |wordlist| {
      return false, 0;
    }
    LookupSnoc(wordlist, words, ssCurrentWord);
    WriteIndex(bits, nBitsCount, nWordIndex, FromIndexes(Lookup(wordlist, words)));
    return true, |ssCurrentWord|;
  }

  // Looks up all words and writes their bits; not found at the first word that is not in the list.
  method ReadWords(wordlist: seq<string>, mnemonic: string, bits: array<byte>, ghost all: seq<string>)
    returns (found: bool, nBitsCount: nat)
    requires WordlistOk(wordlist) && mnemonic != "" && LaidOut(mnemonic, all) && 11 * |all| <= 8 * bits.Length
    requires Stream(bits[..]) == Falses(8 * bits.Length)
    modifies bits
    ensures found && nBitsCount == 11 * |all| <==> Listed(wordlist, all)
    ensures found && nBitsCount == 11 * |all| ==>
              Stream(bits[..]) == FromIndexes(Lookup(wordlist, all)) + Falses(8 * bits.Length - nBitsCount)
  {
    nBitsCount := 0;
    var i := 0;
    ghost var n := 0;
    assert [] + Falses(8 * bits.Length) == Falses(8 * bits.Length);
    while i < |mnemonic|
      invariant n <= |all| && i == Offset(all, n) && nBitsCount == 11 * n && Listed(wordlist, all[..n])
      invariant Stream(bits[..]) == FromIndexes(Lookup(wordlist, all[..n])) + Falses(8 * bits.Length - nBitsCount)
      decreases |all| - n
    {
      assert LaidAt(mnemonic, all, n);
      var ok, size := ReadAndWrite(wordlist, mnemonic, i, bits, nBitsCount, all[..n]);
      if !ok {
        return false, nBitsCount;
      }
      OneMore(all, n);
      n := n + 1;
      nBitsCount := nBitsCount + 11;
      i := i + size + 1;
    }
    found := true;
    AllRead(wordlist, mnemonic, all, n);
  }

  // The buffer once all words are written: the bit list of the sentence, then zero bits.
  ghost predicate Buffered(bits: seq<byte>, decoded: seq<bool>) {
    |decoded| <= 8 * |bits| && Stream(bits) == decoded + Falses(8 * |bits| - |decoded|)
  }

  lemma BufferIsDecoded(bits: seq<byte>, decoded: seq<bool>)
    requires Buffered(bits, decoded)
    ensures bits == Bytes(decoded + Falses(8 * |bits| - |decoded|), |bits|)
  {
    BytesOfStream(bits, []);
    assert Stream(bits) + [] == Stream(bits);
  }

  lemma BufferStart(bits: seq<byte>, decoded: seq<bool>, n: nat)
    requires Buffered(bits, decoded) && 8 * n <= |decoded|
    ensures bits[..n] == Bytes(decoded, n)
  {
    StreamTake(bits, n);
    assert Stream(bits)[..8 * n] == decoded[..8 * n];
    BytesOfStream(bits[..n], []);
    assert decoded[..8 * n] + [] == decoded[..8 * n];
    BytesTake(decoded, 8 * n, n);
  }

  lemma BufferBit(bits: seq<byte>, decoded: seq<bool>, n: nat, j: nat)
    requires Buffered(bits, decoded) && j < 8 && 8 * n + j < |decoded|
    ensures n < |bits| && BitsOf(bits[n], 8)[j] == decoded[8 * n + j]
  {
    var k := 8 * n + j;
    assert k / 8 == n && k % 8 == j;
    StreamBit(bits, k);
    BitAt(bits[n], 8, j);
    var stream := Stream(bits);
    assert stream[k] == decoded[k];
  }

  lemma BufferRest(bits: seq<byte>, decoded: seq<bool>, n: nat, k: nat)
    requires Buffered(bits, decoded) && |decoded| == 8 * n + k && n < |bits| && k <= 8
    ensures decoded[8 * n..] == BitsOf(bits[n], 8)[..k]
  {
    var last := BitsOf(bits[n], 8);
    forall j | 0 <= j < k
      ensures last[..k][j] == decoded[8 * n..][j]
    {
      BufferBit(bits, decoded, n, j);
    }
  }

  lemma {:induction false} StreamTake(bits: seq<byte>, n: nat)
    requires n <= |bits|
    ensures Stream(bits[..n]) == Stream(bits)[..8 * n]
  {
    if n < |bits| {
      StreamTake(bits[..|bits| - 1], n);
      assert bits[..|bits| - 1][..n] == bits[..n];
    } else {
      assert bits[..n] == bits;
    }
  }

  lemma {:induction false} BytesTake(bits: seq<bool>, k: nat, n: nat)
    requires 8 * n <= k <= |bits|
    ensures Bytes(bits[..k], n) == Bytes(bits, n)
  {
    if n > 0 {
      BytesTake(bits, k, n - 1);
      assert bits[..k][8 * n - 8..8 * n] == bits[8 * n - 8..8 * n];
    }
  }

  // All words are looked up; if they are all listed their bits fill the buffer, padded with zeros.
  method FillBuffer(wordlist: seq<string>, mnemonic: string, nWordCount: nat, bits: array<byte>, ghost all: seq<string>,
                    ghost decoded: seq<bool>)
    returns (found: bool)
    requires WordlistOk(wordlist) && mnemonic != "" && LaidOut(mnemonic, all) && nWordCount == |all|
    requires decoded == FromIndexes(Lookup(wordlist, all)) && |decoded| <= 8 * bits.Length
    requires forall i :: 0 <= i < bits.Length ==> bits[i] == 0
    modifies bits
    ensures found <==> Listed(wordlist, all)
    ensures found ==> Buffered(bits[..], decoded)
    ensures found ==> bits[..] == Bytes(decoded + Falses(8 * bits.Length - |decoded|), bits.Length)
  {
    var nBitsCount: nat;
    ZeroStream(bits[..]);
    found, nBitsCount := ReadWords(wordlist, mnemonic, bits, all);
    found := found && nBitsCount == nWordCount * 11;
    if found {
      BufferIsDecoded(bits[..], decoded);
    }
  }

  method Check(wordlist: seq<string>, hash: seq<byte> -> seq<byte>, mnemonic: string) returns (fResult: bool)
    requires WordlistOk(wordlist) && forall b :: |hash(b)| == 32
    ensures fResult <==> Accepted(wordlist, FirstByte(hash), mnemonic)
  {
    if mnemonic == "" {
      return false;
    }
    var nWordCount := CountWords(mnemonic);
    if nWordCount != 12 && nWordCount != 18 && nWordCount != 24 {
      return false;
    }
    var bits := new byte[32 + 1](i => 0);
    SplitLaidOut(mnemonic);
    ghost var decoded := Decoded(wordlist, mnemonic);
    var found := FillBuffer(wordlist, mnemonic, nWordCount, bits, Split(mnemonic), decoded);
    if !found {
      return false;
    }
    fResult := CheckSum(hash, bits, nWordCount, decoded);
  }

  lemma ZeroStreamBit(bits: seq<byte>, k: nat)
    requires k < 8 * |bits| && bits[k / 8] == 0
    ensures !Stream(bits)[k]
  {
    StreamBit(bits, k);
    ZeroBit(7 - k % 8);
  }

  lemma {:induction false} ZeroStream(bits: seq<byte>)
    requires forall i :: 0 <= i < |bits| ==> bits[i] == 0
    ensures Stream(bits) == Falses(8 * |bits|)
  {
    var stream := Stream(bits);
    forall k | 0 <= k < 8 * |bits|
      ensures !stream[k]
    {
      ZeroStreamBit(bits, k);
    }
  }

  lemma Masks()
    ensures forall b :: 0 <= b < 8 ==> (Bit(0xF0, b) <==> b >= 4) && (Bit(0xFC, b) <==> b >= 2)
  {
    assert !Bit(0xF0, 0) && !Bit(0xF0, 1) && !Bit(0xF0, 2) && !Bit(0xF0, 3);
    assert Bit(0xF0, 4) && Bit(0xF0, 5) && Bit(0xF0, 6) && Bit(0xF0, 7);
    assert !Bit(0xFC, 0) && !Bit(0xFC, 1) && Bit(0xFC, 2) && Bit(0xFC, 3);
    assert Bit(0xFC, 4) && Bit(0xFC, 5) && Bit(0xFC, 6) && Bit(0xFC, 7);
  }

  // Whole bytes agree if all their bits do.
  lemma ByteCompares(x: byte, y: byte)
    ensures x == y <==> BitsOf(x, 8)[..8] == BitsOf(y, 8)[..8]
  {
    Powers();
    NumOfBits(x, 8);
    NumOfBits(y, 8);
    assert BitsOf(x, 8)[..8] == BitsOf(x, 8) && BitsOf(y, 8)[..8] == BitsOf(y, 8);
  }

  // Compares as many bits as the checksum of this many words has.
  method Compare(first: byte, saved: byte, nWordCount: nat) returns (fResult: bool)
    requires nWordCount in {12, 18, 24}
    ensures fResult <==> BitsOf(first, 8)[..nWordCount / 3] == BitsOf(saved, 8)[..nWordCount / 3]
  {
    Masks();
    if nWordCount == 12 {
      MaskCompares(first, saved, 0xF0, 4);
      fResult := And(first, 0xF0) == And(saved, 0xF0);
    } else if nWordCount == 18 {
      MaskCompares(first, saved, 0xFC, 6);
      fResult := And(first, 0xFC) == And(saved, 0xFC);
    } else {
      ByteCompares(first, saved);
      fResult := first == saved;
    }
  }

  // The byte after the data is saved before the hash takes the place of the data, then compared
  // with the first byte of the hash as far as the checksum goes.
  method CheckSum(hash: seq<byte> -> seq<byte>, bits: array<byte>, nWordCount: nat, ghost decoded: seq<bool>)
    returns (fResult: bool)
    requires bits.Length == 33 && nWordCount in {12, 18, 24} && forall b :: |hash(b)| == 32
    requires |decoded| == 11 * nWordCount && Buffered(bits[..], decoded)
    modifies bits
    ensures var n := nWordCount * 4 / 3;
      fResult <==> decoded[8 * n..] == BitsOf(FirstByte(hash)(Bytes(decoded, n)), 8)[..n / 4]
  {
    var n := nWordCount * 4 / 3;
    ghost var data := Bytes(decoded, n);
    BufferStart(bits[..], decoded, n);
    BufferRest(bits[..], decoded, n, n / 4);
    var saved := bits[n];
    bits[32] := saved;
    assert bits[..n] == data;
    var digest := hash(bits[..n]);
    forall i | 0 <= i < 32 {
      bits[i] := digest[i];
    }
    assert bits[0] == FirstByte(hash)(data) && bits[32] == saved;
    assert n / 4 == nWordCount / 3;
    fResult := Compare(bits[0], bits[32], nWordCount);
  }
}
