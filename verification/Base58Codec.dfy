/** Base58 as the program computes it: digit buffers multiplied in place, with nested carry loops. */
module Base58Codec {
  import opened Base58
  import opened Helpers
  import opened Radix

  lemma NumSnoc(s: seq<nat>, i: nat, b: nat)
    requires i < |s|
    ensures Num(s[..i + 1], b) == Num(s[..i], b) * b + s[i]
  {
    assert s[..i + 1][..i] == s[..i];
  }

  // A number made of some of the digits fits where one made of all of them would.
  lemma PrefixFits(s: seq<nat>, i: nat, b: nat, c: nat, size: nat)
    requires b >= 2 && i <= |s| && AreDigits(s, b) && Exp(b, |s|) < Exp(c, size)
    ensures Num(s[..i], b) < Exp(c, size)
  {
    NumBound(s[..i], b);
    ExpUpTo(b, i, |s|);
  }

  // buffer * m + d, for a buffer of digits in base b, all of which are visited.
  method MultiplyAll(buffer: array<nat>, b: nat, m: nat, d: nat)
    requires b > 0 && AreDigits(buffer[..], b)
    requires m * Tail(buffer[..], b, buffer.Length) + d < Exp(b, buffer.Length)
    modifies buffer
    ensures AreDigits(buffer[..], b)
    ensures Tail(buffer[..], b, buffer.Length) == m * Tail(old(buffer[..]), b, buffer.Length) + d
  {
    var carry: nat := d;
    ghost var before := buffer[..];
    for i := 0 to buffer.Length
      invariant AreDigits(buffer[..], b)
      invariant forall k :: 0 <= k < buffer.Length - i ==> buffer[k] == before[k]
      invariant Tail(buffer[..], b, i) + carry * Exp(b, i) == m * Tail(before, b, i) + d
    {
      carry := Accumulate(buffer, b, m, i, carry, before, d);
    }
    NoCarryLeft(buffer[..], b, carry, m * Tail(before, b, buffer.Length) + d);
    assert carry == 0;
  }

  // One position of a carry loop.
  method Accumulate(buffer: array<nat>, b: nat, m: nat, i: nat, carry: nat, ghost before: seq<nat>, ghost d: nat)
    returns (next: nat)
    requires b > 0 && i < buffer.Length == |before| && AreDigits(buffer[..], b)
    requires forall k :: 0 <= k < buffer.Length - i ==> buffer[k] == before[k]
    requires Tail(buffer[..], b, i) + carry * Exp(b, i) == m * Tail(before, b, i) + d
    modifies buffer
    ensures AreDigits(buffer[..], b)
    ensures forall k :: 0 <= k < buffer.Length - i - 1 ==> buffer[k] == before[k]
    ensures Tail(buffer[..], b, i + 1) + next * Exp(b, i + 1) == m * Tail(before, b, i + 1) + d
  {
    ghost var low := buffer[..];
    var n := carry + m * buffer[buffer.Length - 1 - i];
    buffer[buffer.Length - 1 - i] := n % b;
    next := n / b;
    CarryStep(low, buffer[..], before, b, m, d, i, carry);
  }

  // buffer * m + d, stopping once the carry and the digits in use are spent.
  method MultiplyUsed(buffer: array<nat>, b: nat, m: nat, d: nat, length: nat) returns (used: nat)
    requires b > 0 && AreDigits(buffer[..], b) && length <= buffer.Length
    requires forall k :: 0 <= k < buffer.Length - length ==> buffer[k] == 0
    requires m * Tail(buffer[..], b, buffer.Length) + d < Exp(b, buffer.Length)
    modifies buffer
    ensures AreDigits(buffer[..], b) && used <= buffer.Length
    ensures forall k :: 0 <= k < buffer.Length - used ==> buffer[k] == 0
    ensures Tail(buffer[..], b, buffer.Length) == m * Tail(old(buffer[..]), b, buffer.Length) + d
  {
    var carry: nat := d;
    var i := 0;
    ghost var before := buffer[..];
    while (carry != 0 || i < length) && i < buffer.Length
      invariant 0 <= i <= buffer.Length && AreDigits(buffer[..], b)
      invariant forall k :: 0 <= k < buffer.Length - i ==> buffer[k] == before[k]
      invariant Tail(buffer[..], b, i) + carry * Exp(b, i) == m * Tail(before, b, i) + d
      decreases buffer.Length - i
    {
      carry := Accumulate(buffer, b, m, i, carry, before, d);
      i := i + 1;
    }
    if i == buffer.Length {
      NoCarryLeft(buffer[..], b, carry, m * Tail(before, b, buffer.Length) + d);
    } else {
      TailOfZeros(buffer[..], b, i, buffer.Length);
      TailOfZeros(before, b, i, buffer.Length);
    }
    assert carry == 0;
    used := i;
  }

  // The position of the first digit that is not zero, from a start before which all are.
  method FirstDigit(buffer: array<nat>, start: nat) returns (at: nat)
    requires start <= buffer.Length && forall k :: 0 <= k < start ==> buffer[k] == 0
    ensures at <= buffer.Length && Strip(buffer[..]) == buffer[at..]
  {
    at := start;
    while at < buffer.Length && buffer[at] == 0
      invariant start <= at <= buffer.Length
      invariant forall k :: 0 <= k < at ==> buffer[k] == 0
    {
      at := at + 1;
    }
    StripAt(buffer[..], at);
  }

  lemma {:induction false} StripAt(s: seq<nat>, at: nat)
    requires at <= |s| && (forall k :: 0 <= k < at ==> s[k] == 0) && (at < |s| ==> s[at] != 0)
    ensures Strip(s) == s[at..]
  {
    if at > 0 {
      StripAt(s[1..], at - 1);
      assert s[1..][at - 1..] == s[at..];
    }
  }

  lemma LeadingIs<T>(s: seq<T>, x: T, n: nat)
    requires n <= |s| && (forall i :: 0 <= i < n ==> s[i] == x) && (n < |s| ==> s[n] != x)
    ensures Leading(s, x) == n
  {}

  method EncodeBase58(pszBase58: string, bytes: seq<byte>) returns (str: string)
    requires IsAlphabet(pszBase58)
    ensures str == Encode(pszBase58, bytes)
  {
    var zeroes := 0;
    while zeroes < |bytes| && bytes[zeroes] == 0
      invariant 0 <= zeroes <= |bytes| && forall i :: 0 <= i < zeroes ==> bytes[i] == 0
    {
      zeroes := zeroes + 1;
    }
    LeadingIs(bytes, 0, zeroes);
    var rest: seq<nat> := bytes[zeroes..];
    var digits := ToDigits(rest);
    str := Repeated('1', zeroes);
    ghost var letters := Letters(pszBase58, digits);
    for i := 0 to |digits|
      invariant str == Repeated('1', zeroes) + letters[..i]
    {
      str := str + [pszBase58[digits[i]]];
    }
    assert letters[..|digits|] == letters;
  }

  // The digits in base 58 of bytes without a leading zero.
  method ToDigits(rest: seq<nat>) returns (digits: seq<nat>)
    requires AreDigits(rest, 256)
    ensures digits == Digits(Num(rest, 256), 58) && AreDigits(digits, 58)
  {
    var size := |rest| * 138 / 100 + 1;
    EncodeFits(|rest|);
    var b58 := new nat[size](i => 0);
    var length: nat := 0;
    TailOfZeros(b58[..], 58, 0, size);
    for p := 0 to |rest|
      invariant AreDigits(b58[..], 58) && length <= size
      invariant forall k :: 0 <= k < size - length ==> b58[k] == 0
      invariant Tail(b58[..], 58, size) == Num(rest[..p], 256)
    {
      NumSnoc(rest, p, 256);
      PrefixFits(rest, p + 1, 256, 58, size);
      length := MultiplyUsed(b58, 58, 256, rest[p], length);
    }
    assert rest[..|rest|] == rest;
    var at := FirstDigit(b58, size - length);
    digits := b58[at..];
    TailIsNum(b58[..], 58);
    StripIsDigits(b58[..], 58);
    NumOfDigits(Num(rest, 256), 58);
  }

  // The whole of psz is a C string: the text up to its first NUL.
  method DecodeBase58(pszBase58: string, psz: string) returns (ok: bool, vch: seq<byte>)
    requires IsAlphabet(pszBase58) && '\0' !in psz
    ensures ok <==> Decode(pszBase58, psz).Some?
    ensures ok ==> vch == Decode(pszBase58, psz).value
  {
    var zeroes, at := SkipStart(psz);
    DecodeParted(pszBase58, psz, zeroes, psz[at..]);
    ok, vch := DecodeAfterOnes(pszBase58, zeroes, psz[at..]);
  }

  // Skips the leading white space, then counts the ones.
  method SkipStart(psz: string) returns (zeroes: nat, at: nat)
    ensures at <= |psz| && zeroes == Leading(DropSpaces(psz), '1') && psz[at..] == DropSpaces(psz)[zeroes..]
  {
    var start := SkipSpaces(psz, 0);
    assert psz[0..] == psz;
    at := SkipOnes(psz, start);
    zeroes := at - start;
  }

  lemma DecodeParted(abc: string, psz: string, zeroes: nat, rest: string)
    requires IsAlphabet(abc) && zeroes == Leading(DropSpaces(psz), '1') && rest == DropSpaces(psz)[zeroes..]
    ensures Decode(abc, psz) == DecodeRest(abc, zeroes, rest)
  {}

  lemma ZeroesFirst(zeroes: nat, digits: seq<nat>)
    requires AreDigits(digits, 58)
    ensures ToBytes(zeroes, digits) == Repeated(0, zeroes) + ToBytes(0, digits)
  {
    var n := Num(digits, 58);
    NumOfDigits(n, 256);
    var bytes: seq<byte> := Digits(n, 256);
    var none: seq<byte> := Repeated(0, 0);
    assert ToBytes(zeroes, digits) == Repeated(0, zeroes) + bytes;
    assert ToBytes(0, digits) == none + bytes == bytes;
  }

  lemma DecodeRestParted(abc: string, zeroes: nat, rest: string, word: string)
    requires IsAlphabet(abc) && word == Word(rest)
    ensures DecodeRest(abc, zeroes, rest).Some? <==> AreLetters(abc, word) && DropSpaces(rest[|word|..]) == ""
    ensures DecodeRest(abc, zeroes, rest).Some? ==>
      DecodeRest(abc, zeroes, rest).value == Repeated(0, zeroes) + ToBytes(0, Values(abc, word))
  {
    if AreLetters(abc, word) {
      ZeroesFirst(zeroes, Values(abc, word));
    }
  }

  method DecodeAfterOnes(pszBase58: string, zeroes: nat, psz: string) returns (ok: bool, vch: seq<byte>)
    requires IsAlphabet(pszBase58)
    ensures ok <==> DecodeRest(pszBase58, zeroes, psz).Some?
    ensures ok ==> vch == DecodeRest(pszBase58, zeroes, psz).value
  {
    DecodeRestParted(pszBase58, zeroes, psz, Word(psz));
    var good, end, digits := FromLetters(pszBase58, psz);
    if !good {
      return false, [];
    }
    var after := SkipSpaces(psz, end);
    if after < |psz| {
      return false, [];
    }
    ok := true;
    vch := Repeated(0, zeroes) + digits;
  }

  method SkipOnes(psz: string, from: nat) returns (at: nat)
    requires from <= |psz|
    ensures from <= at <= |psz| && Leading(psz[from..], '1') == at - from
    ensures psz[from..][at - from..] == psz[at..]
  {
    at := from;
    while at < |psz| && psz[at] == '1'
      invariant from <= at <= |psz| && forall i :: from <= i < at ==> psz[i] == '1'
    {
      at := at + 1;
    }
    LeadingIs(psz[from..], '1', at - from);
  }

  method SkipSpaces(psz: string, from: nat) returns (at: nat)
    requires from <= |psz|
    ensures from <= at <= |psz| && DropSpaces(psz[from..]) == psz[at..]
  {
    at := from;
    while at < |psz| && IsSpace(psz[at])
      invariant from <= at <= |psz| && DropSpaces(psz[from..]) == DropSpaces(psz[at..])
    {
      assert psz[at..][1..] == psz[at + 1..];
      at := at + 1;
    }
  }

  lemma OneMoreDigit(values: seq<nat>, ch: nat, length: nat, size: nat)
    requires AreDigits(values, 58) && ch < 58 && |values| < length && Exp(58, length) < Exp(256, size)
    ensures Num(values + [ch], 58) == 58 * Num(values, 58) + ch < Exp(256, size)
  {
    var longer := values + [ch];
    assert longer[..|values|] == values;
    NumBound(longer, 58);
    ExpUpTo(58, |longer|, length);
  }

  // Applies one letter: the number in the array times 58 plus the letter's value.
  method ApplyLetter(pszBase58: string, letter: char, b256: array<nat>, ghost values: seq<nat>, ghost length: nat)
    returns (known: bool)
    requires IsAlphabet(pszBase58) && AreDigits(b256[..], 256) && AreDigits(values, 58)
    requires |values| < length && Exp(58, length) < Exp(256, b256.Length)
    requires Tail(b256[..], 256, b256.Length) == Num(values, 58)
    modifies b256
    ensures known <==> letter in pszBase58
    ensures AreDigits(b256[..], 256)
    ensures known ==> Tail(b256[..], 256, b256.Length) == Num(values + [IndexOf(pszBase58, letter)], 58)
  {
    var ch := IndexOf(pszBase58, letter);
    known := ch != |pszBase58|;
    if known {
      OneMoreDigit(values, ch, length, b256.Length);
      MultiplyAll(b256, 256, 58, ch);
    }
  }

  // The values of the first letters of a word.
  ghost predicate AreValues(abc: string, word: string, values: seq<nat>) {
    && |values| <= |word| && AreDigits(values, 58)
    && forall i :: 0 <= i < |values| ==> word[i] in abc && values[i] == IndexOf(abc, word[i])
  }

  lemma OneMoreValue(abc: string, word: string, values: seq<nat>)
    requires IsAlphabet(abc) && AreValues(abc, word, values) && |values| < |word|
    ensures AreLetters(abc, word) ==> word[|values|] in abc
    ensures word[|values|] in abc ==> AreValues(abc, word, values + [IndexOf(abc, word[|values|])])
  {}

  lemma AllValues(abc: string, word: string, values: seq<nat>)
    requires IsAlphabet(abc) && AreValues(abc, word, values) && |values| == |word|
    ensures AreLetters(abc, word) && values == Values(abc, word)
  {}

  // The bytes for the letters before the first space, or not good at the first other character.
  method FromLetters(pszBase58: string, psz: string) returns (good: bool, end: nat, digits: seq<byte>)
    requires IsAlphabet(pszBase58)
    ensures good <==> AreLetters(pszBase58, Word(psz))
    ensures good ==> end == |Word(psz)| && digits == ToBytes(0, Values(pszBase58, Word(psz)))
  {
    good, end, digits := false, 0, [];
    var size := |psz| * 733 / 1000 + 1;
    DecodeFits(|psz|);
    var b256 := new nat[size](i => 0);
    ghost var word, values := Word(psz), [];
    TailOfZeros(b256[..], 256, 0, size);
    while end < |psz| && !IsSpace(psz[end])
      invariant 0 <= end <= |word| && |values| == end && AreValues(pszBase58, word, values)
      invariant AreDigits(b256[..], 256) && Tail(b256[..], 256, size) == Num(values, 58)
    {
      assert end < |word| && word[end] == psz[end];
      OneMoreValue(pszBase58, word, values);
      var known := ApplyLetter(pszBase58, psz[end], b256, values, |psz|);
      if !known {
        return;
      }
      values := values + [IndexOf(pszBase58, psz[end])];
      end := end + 1;
    }
    good := true;
    AllValues(pszBase58, word, values);
    digits := TakeBytes(b256, values);
  }

  method TakeBytes(b256: array<nat>, ghost values: seq<nat>) returns (digits: seq<byte>)
    requires AreDigits(b256[..], 256) && AreDigits(values, 58)
    requires Tail(b256[..], 256, b256.Length) == Num(values, 58)
    ensures digits == ToBytes(0, values)
  {
    var at := FirstDigit(b256, 0);
    TailIsNum(b256[..], 256);
    StripIsDigits(b256[..], 256);
    digits := b256[at..];
  }
}
