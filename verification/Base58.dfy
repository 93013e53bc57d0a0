/** Base58: byte strings as text, most significant digit first, with a '1' for each leading zero byte. */
module Base58 {
  import opened Helpers
  import opened Radix

  datatype Option<T> = None | Some(value: T)

  predicate IsSpace(c: char) {
    c == ' ' || '\t' <= c <= '\r'
  }

  // The position of a character in a string, or its length.
  function IndexOf(s: string, c: char): (r: nat)
    ensures r <= |s| && (r < |s| ==> s[r] == c) && (r == |s| ==> c !in s)
  {
    if s == [] || s[0] == c then 0 else 1 + IndexOf(s[1..], c)
  }

  // What the codec needs of its alphabet: 58 different characters, none of them white space, '1' first.
  ghost predicate IsAlphabet(abc: string) {
    && |abc| == 58 && abc[0] == '1'
    && (forall i, j :: 0 <= i < j < 58 ==> abc[i] != abc[j])
    && forall i :: 0 <= i < 58 ==> !IsSpace(abc[i])
  }

  predicate AreLetters(abc: string, s: string) {
    forall i :: 0 <= i < |s| ==> s[i] in abc
  }

  /* ---- The alphabet ---- */

  // Digits, capitals and small letters, without those that are easily taken for one another.
  const ALPHABET := "123456789" + "ABCDEFGH" + "JKLMN" + "PQRSTUVWXYZ" + "abcdefghijk" + "mnopqrstuvwxyz"

  // Consecutive characters from one on.
  ghost predicate IsStretch(s: string, first: char) {
    forall i :: 0 <= i < |s| ==> s[i] as int == first as int + i
  }

  lemma StretchHas(s: string, first: char, c: char)
    requires IsStretch(s, first)
    ensures c in s <==> first as int <= c as int < first as int + |s|
  {
    if first as int <= c as int < first as int + |s| {
      assert s[c as int - first as int] == c;
    }
  }

  predicate IsLetterOrDigit(c: char) {
    '0' <= c <= '9' || 'A' <= c <= 'Z' || 'a' <= c <= 'z'
  }

  lemma AlphabetHas(c: char)
    ensures c in ALPHABET <==> IsLetterOrDigit(c) && c != '0' && c != 'O' && c != 'I' && c != 'l'
  {
    StretchHas("123456789", '1', c);
    StretchHas("ABCDEFGH", 'A', c);
    StretchHas("JKLMN", 'J', c);
    StretchHas("PQRSTUVWXYZ", 'P', c);
    StretchHas("abcdefghijk", 'a', c);
    StretchHas("mnopqrstuvwxyz", 'm', c);
  }

  ghost predicate IsAscending(abc: string) {
    |abc| == 58 && forall i :: 0 <= i < 57 ==> abc[i] < abc[i + 1]
  }

  lemma Ascending()
    ensures IsAscending(ALPHABET) && ALPHABET[0] == '1'
  {}

  lemma {:induction false} Ordered(abc: string, i: nat, j: nat)
    requires IsAscending(abc) && i < j < 58
    ensures abc[i] < abc[j]
  {
    if i < j - 1 {
      Ordered(abc, i, j - 1);
    }
  }

  // Characters that ascend from '1' on are different, and none is white space.
  lemma AscendingIsAlphabet(abc: string)
    requires IsAscending(abc) && abc[0] == '1'
    ensures IsAlphabet(abc)
  {
    forall i, j | 0 <= i < j < 58
      ensures abc[i] != abc[j]
    {
      Ordered(abc, i, j);
    }
    forall i | 0 < i < 58
      ensures !IsSpace(abc[i])
    {
      Ordered(abc, 0, i);
    }
  }

  // The alphabet is one the codec can use: the digits and letters but for four, in ascending order.
  lemma AlphabetIsOne()
    ensures IsAlphabet(ALPHABET) && IsAscending(ALPHABET)
    ensures forall c: char ::
      c in ALPHABET <==> IsLetterOrDigit(c) && c != '0' && c != 'O' && c != 'I' && c != 'l'
  {
    Ascending();
    AscendingIsAlphabet(ALPHABET);
    forall c: char
      ensures c in ALPHABET <==> IsLetterOrDigit(c) && c != '0' && c != 'O' && c != 'I' && c != 'l'
    {
      AlphabetHas(c);
    }
  }

  lemma LetterIndex(abc: string, i: nat)
    requires IsAlphabet(abc) && i < 58
    ensures IndexOf(abc, abc[i]) == i
  {}

  function Letters(abc: string, digits: seq<nat>): (s: string)
    requires IsAlphabet(abc) && AreDigits(digits, 58)
    ensures |s| == |digits| && AreLetters(abc, s)
  {
    seq(|digits|, i requires 0 <= i < |digits| => abc[digits[i]])
  }

  function Values(abc: string, s: string): (d: seq<nat>)
    requires IsAlphabet(abc) && AreLetters(abc, s)
    ensures |d| == |s| && AreDigits(d, 58)
  {
    seq(|s|, i requires 0 <= i < |s| => IndexOf(abc, s[i]))
  }

  lemma LettersValues(abc: string, digits: seq<nat>)
    requires IsAlphabet(abc) && AreDigits(digits, 58)
    ensures Values(abc, Letters(abc, digits)) == digits
  {
    forall i | 0 <= i < |digits| {
      LetterIndex(abc, digits[i]);
    }
  }

  lemma ValuesLetters(abc: string, s: string)
    requires IsAlphabet(abc) && AreLetters(abc, s)
    ensures Letters(abc, Values(abc, s)) == s
  {}

  /* ---- Encoding ---- */

  // How many times an element is repeated at the start.
  function Leading<T(==)>(s: seq<T>, x: T): (r: nat)
    ensures r <= |s| && (forall i :: 0 <= i < r ==> s[i] == x) && (r < |s| ==> s[r] != x)
  {
    if s != [] && s[0] == x then 1 + Leading(s[1..], x) else 0
  }

  function Repeated<T>(x: T, n: nat): (r: seq<T>)
    ensures |r| == n && forall i :: 0 <= i < n ==> r[i] == x
  {
    seq(n, i => x)
  }

  function Encode(abc: string, bytes: seq<byte>): (r: string)
    requires IsAlphabet(abc)
  {
    var zeroes := Leading(bytes, 0);
    NumOfDigits(Num(bytes[zeroes..], 256), 58);
    Repeated('1', zeroes) + Letters(abc, Digits(Num(bytes[zeroes..], 256), 58))
  }

  /* ---- Decoding ---- */

  function DropSpaces(s: string): (r: string)
    ensures |r| <= |s| && r == s[|s| - |r|..] && (r != "" ==> !IsSpace(r[0]))
    ensures forall i :: 0 <= i < |s| - |r| ==> IsSpace(s[i])
  {
    if s != "" && IsSpace(s[0]) then DropSpaces(s[1..]) else s
  }

  // The characters before the first space.
  function Word(s: string): (r: string)
    ensures |r| <= |s| && r == s[..|r|] && (|r| < |s| ==> IsSpace(s[|r|]))
    ensures forall i :: 0 <= i < |r| ==> !IsSpace(r[i])
  {
    if s == "" || IsSpace(s[0]) then "" else [s[0]] + Word(s[1..])
  }

  function ToBytes(zeroes: nat, digits: seq<nat>): (r: seq<byte>)
    requires AreDigits(digits, 58)
  {
    var n := Num(digits, 58);
    NumOfDigits(n, 256);
    var bytes: seq<byte> := Digits(n, 256);
    Repeated(0, zeroes) + bytes
  }

  // Letters, then nothing but white space.
  function DecodeRest(abc: string, zeroes: nat, rest: string): (r: Option<seq<byte>>)
    requires IsAlphabet(abc)
  {
    var word := Word(rest);
    if AreLetters(abc, word) && DropSpaces(rest[|word|..]) == "" then Some(ToBytes(zeroes, Values(abc, word))) else None
  }

  function Decode(abc: string, psz: string): (r: Option<seq<byte>>)
    requires IsAlphabet(abc)
  {
    var s := DropSpaces(psz);
    DecodeRest(abc, Leading(s, '1'), s[Leading(s, '1')..])
  }

  /* ---- Round trips ---- */

  lemma SplitLeading<T>(s: seq<T>, x: T)
    ensures s == Repeated(x, Leading(s, x)) + s[Leading(s, x)..]
  {}

  lemma LeadingOf<T>(n: nat, x: T, s: seq<T>)
    requires s == [] || s[0] != x
    ensures Leading(Repeated(x, n) + s, x) == n && (Repeated(x, n) + s)[n..] == s
  {}

  // Text without white space is parsed whole.
  lemma WholeWord(abc: string, s: string)
    requires IsAlphabet(abc) && AreLetters(abc, s)
    ensures DropSpaces(s) == s && Word(s) == s
  {}

  lemma FirstLetter(abc: string, digits: seq<nat>)
    requires IsAlphabet(abc) && AreDigits(digits, 58) && digits != []
    ensures digits[0] == 0 <==> Letters(abc, digits)[0] == '1'
  {
  }

  lemma OnesAreLetters(abc: string, n: nat, s: string)
    requires IsAlphabet(abc) && AreLetters(abc, s)
    ensures AreLetters(abc, Repeated('1', n) + s)
  {
    assert abc[0] == '1';
  }

  // What Decode does with ones and then letters.
  lemma DecodeShape(abc: string, zeroes: nat, letters: string)
    requires IsAlphabet(abc) && AreLetters(abc, letters) && (letters != "" ==> letters[0] != '1')
    ensures Decode(abc, Repeated('1', zeroes) + letters) == Some(ToBytes(zeroes, Values(abc, letters)))
  {
    var s := Repeated('1', zeroes) + letters;
    OnesAreLetters(abc, zeroes, letters);
    WholeWord(abc, s);
    LeadingOf(zeroes, '1', letters);
    WholeWord(abc, letters);
  }

  // Bytes without a leading zero are the digits of their number.
  lemma ToBytesOf(zeroes: nat, digits: seq<nat>, rest: seq<byte>)
    requires AreDigits(digits, 58) && Num(digits, 58) == Num(rest, 256) && (rest != [] ==> rest[0] != 0)
    ensures ToBytes(zeroes, digits) == Repeated(0, zeroes) + rest
  {
    DigitsOfNum(rest, 256);
    NumOfDigits(Num(rest, 256), 256);
  }

  // Every byte string survives encoding and decoding.
  lemma DecodeEncode(abc: string, bytes: seq<byte>)
    requires IsAlphabet(abc)
    ensures Decode(abc, Encode(abc, bytes)) == Some(bytes)
  {
    var zeroes := Leading(bytes, 0);
    var rest := bytes[zeroes..];
    var digits := Digits(Num(rest, 256), 58);
    NumOfDigits(Num(rest, 256), 58);
    if digits != [] {
      FirstLetter(abc, digits);
    }
    DecodeShape(abc, zeroes, Letters(abc, digits));
    LettersValues(abc, digits);
    ToBytesOf(zeroes, digits, rest);
    SplitLeading(bytes, 0);
  }

  lemma {:induction false} NumOfZeros(zeroes: nat, s: seq<nat>, b: nat)
    ensures Num(Repeated(0, zeroes) + s, b) == Num(s, b)
  {
    var all := Repeated(0, zeroes) + s;
    if zeroes == 0 {
      assert all == s;
    } else {
      assert all[1..] == Repeated(0, zeroes - 1) + s;
      NumOfPrefixed(all, b);
      NumOfZeros(zeroes - 1, s, b);
    }
  }

  // The text is the number that the bytes stand for, most significant digit first, in base 58.
  lemma EncodeIsNumber(abc: string, bytes: seq<byte>)
    requires IsAlphabet(abc)
    ensures AreLetters(abc, Encode(abc, bytes)) && Num(Values(abc, Encode(abc, bytes)), 58) == Num(bytes, 256)
  {
    var zeroes := Leading(bytes, 0);
    var n := Num(bytes[zeroes..], 256);
    NumOfDigits(n, 58);
    OnesThenDigits(abc, zeroes, Digits(n, 58));
    WithZeros(bytes, zeroes);
  }

  lemma WithZeros(bytes: seq<byte>, zeroes: nat)
    requires zeroes == Leading(bytes, 0)
    ensures Num(bytes, 256) == Num(bytes[zeroes..], 256)
  {
    var padding: seq<nat>, rest: seq<nat> := Repeated(0, zeroes), bytes[zeroes..];
    assert bytes == padding + rest;
    NumOfZeros(zeroes, rest, 256);
  }

  lemma OnesThenDigits(abc: string, zeroes: nat, digits: seq<nat>)
    requires IsAlphabet(abc) && AreDigits(digits, 58)
    ensures var s := Repeated('1', zeroes) + Letters(abc, digits);
      AreLetters(abc, s) && Num(Values(abc, s), 58) == Num(digits, 58)
  {
    var s := Repeated('1', zeroes) + Letters(abc, digits);
    OnesAreLetters(abc, zeroes, Letters(abc, digits));
    LetterIndex(abc, 0);
    LettersValues(abc, digits);
    assert Values(abc, s) == Repeated(0, zeroes) + Values(abc, Letters(abc, digits));
    NumOfZeros(zeroes, digits, 58);
  }

  // Every text over the alphabet is the encoding of what it decodes to.
  lemma EncodeDecode(abc: string, s: string)
    requires IsAlphabet(abc) && AreLetters(abc, s)
    ensures Decode(abc, s).Some? && Encode(abc, Decode(abc, s).value) == s
  {
    var zeroes := Leading(s, '1');
    var letters := s[zeroes..];
    SplitLeading(s, '1');
    DecodeShape(abc, zeroes, letters);
    var digits := Values(abc, letters);
    if letters != "" {
      ValuesLetters(abc, letters);
      FirstLetter(abc, digits);
    }
    ValuesLetters(abc, letters);
    EncodeShape(abc, zeroes, digits);
  }

  // What Encode does with zero bytes and then the bytes of a digit string.
  lemma EncodeShape(abc: string, zeroes: nat, digits: seq<nat>)
    requires IsAlphabet(abc) && AreDigits(digits, 58) && (digits != [] ==> digits[0] != 0)
    ensures Encode(abc, ToBytes(zeroes, digits)) == Repeated('1', zeroes) + Letters(abc, digits)
  {
    var n := Num(digits, 58);
    NumOfDigits(n, 256);
    DigitsOfNum(digits, 58);
    var rest: seq<byte> := ToBytes(0, digits);
    assert Digits(n, 256) == rest;
    ToBytesOf(zeroes, digits, rest);
    LeadingOf(zeroes, 0, rest);
  }

  ghost predicate AreSpaces(s: string) {
    forall i :: 0 <= i < |s| ==> IsSpace(s[i])
  }

  // What stays starts at the first character that is no space.
  lemma DropsAre(s: string, k: nat)
    requires k <= |s| && (forall i :: 0 <= i < k ==> IsSpace(s[i])) && (k < |s| ==> !IsSpace(s[k]))
    ensures DropSpaces(s) == s[k..]
  {
    var r := DropSpaces(s);
    var dropped := |s| - |r|;
    assert dropped < |s| ==> r[0] == s[dropped];
    assert dropped == k;
  }

  lemma DropThrough(before: string, s: string)
    requires AreSpaces(before) && (s != "" ==> !IsSpace(s[0]))
    ensures DropSpaces(before + s) == s
  {
    var all := before + s;
    assert forall i :: 0 <= i < |before| ==> all[i] == before[i];
    assert all[|before|..] == s;
    DropsAre(all, |before|);
  }

  lemma {:induction false} WordUpTo(s: string, after: string)
    requires forall i :: 0 <= i < |s| ==> !IsSpace(s[i])
    requires AreSpaces(after)
    ensures Word(s + after) == s
  {
    if s == "" {
      assert s + after == after;
    } else {
      WordUpTo(s[1..], after);
      assert (s + after)[1..] == s[1..] + after;
    }
  }

  lemma AllSpaces(s: string)
    requires AreSpaces(s)
    ensures DropSpaces(s) == ""
  {
    DropThrough(s, "");
    assert s + "" == s;
  }

  lemma DecodeRestOf(abc: string, zeroes: nat, letters: string, after: string)
    requires IsAlphabet(abc) && AreLetters(abc, letters) && AreSpaces(after)
    ensures DecodeRest(abc, zeroes, letters + after) == Some(ToBytes(zeroes, Values(abc, letters)))
  {
    AllSpaces(after);
    WholeWord(abc, letters);
    WordUpTo(letters, after);
    assert (letters + after)[|letters|..] == after;
  }

  // What Decode does with white space, ones, letters and white space again.
  lemma DecodeParts(abc: string, before: string, zeroes: nat, letters: string, after: string)
    requires IsAlphabet(abc) && AreSpaces(before) && AreLetters(abc, letters) && AreSpaces(after)
    requires letters != "" ==> letters[0] != '1'
    ensures Decode(abc, before + (Repeated('1', zeroes) + (letters + after))) ==
      Some(ToBytes(zeroes, Values(abc, letters)))
  {
    var rest := letters + after;
    DecodeRestOf(abc, zeroes, letters, after);
    LeadingOf(zeroes, '1', rest);
    if zeroes == 0 && letters == "" {
      assert Repeated('1', zeroes) + rest == after;
      assert "" + "" == rest[|rest|..];
      AllSpaces(before + after);
      DecodeRestOf(abc, 0, "", "");
    } else {
      WholeWord(abc, letters);
      DropThrough(before, Repeated('1', zeroes) + rest);
    }
  }

  // White space around the text is ignored.
  lemma DecodeTrims(abc: string, before: string, s: string, after: string)
    requires IsAlphabet(abc) && AreSpaces(before) && AreLetters(abc, s) && AreSpaces(after)
    ensures Decode(abc, before + (s + after)) == Decode(abc, s) && Decode(abc, s).Some?
  {
    var zeroes := Leading(s, '1');
    SplitLeading(s, '1');
    Append3(Repeated('1', zeroes), s[zeroes..], after);
    DecodeParts(abc, before, zeroes, s[zeroes..], after);
    DecodeShape(abc, zeroes, s[zeroes..]);
  }

  // Only such text is accepted.
  lemma DecodeAccepts(abc: string, psz: string) returns (before: string, s: string, after: string)
    requires IsAlphabet(abc) && Decode(abc, psz).Some?
    ensures psz == before + (s + after) && AreSpaces(before) && AreLetters(abc, s) && AreSpaces(after)
  {
    var t: string;
    before, t := LeadingSpaces(psz);
    s, after := AcceptedText(abc, t, Leading(t, '1'));
  }

  lemma LeadingSpaces(s: string) returns (before: string, t: string)
    ensures s == before + t && AreSpaces(before) && t == DropSpaces(s)
  {
    t := DropSpaces(s);
    before := s[..|s| - |t|];
  }

  lemma AcceptedText(abc: string, t: string, zeroes: nat) returns (s: string, after: string)
    requires IsAlphabet(abc) && zeroes == Leading(t, '1') && DecodeRest(abc, zeroes, t[zeroes..]).Some?
    ensures t == s + after && AreLetters(abc, s) && AreSpaces(after)
  {
    var word: string;
    word, after := AcceptedWord(abc, zeroes, t[zeroes..]);
    s := Repeated('1', zeroes) + word;
    OnesAreLetters(abc, zeroes, word);
    SplitLeading(t, '1');
    Append3(Repeated('1', zeroes), word, after);
  }

  lemma AcceptedWord(abc: string, zeroes: nat, rest: string) returns (word: string, after: string)
    requires IsAlphabet(abc) && DecodeRest(abc, zeroes, rest).Some?
    ensures rest == word + after && AreLetters(abc, word) && AreSpaces(after)
  {
    word := Word(rest);
    after := rest[|word|..];
  }

  /* ---- Checksums ---- */

  // The first four bytes of a hash.
  type Checksum = seq<byte> -> seq<byte>

  function EncodeCheck(abc: string, hash: Checksum, bytes: seq<byte>): (r: string)
    requires IsAlphabet(abc)
  {
    Encode(abc, bytes + hash(bytes))
  }

  // Data and the checksum after it, if that is right.
  function Unchecked(hash: Checksum, all: seq<byte>): (r: Option<seq<byte>>) {
    if |all| < 4 then None
    else if hash(all[..|all| - 4]) == all[|all| - 4..] then Some(all[..|all| - 4])
    else None
  }

  function DecodeCheck(abc: string, hash: Checksum, psz: string): (r: Option<seq<byte>>)
    requires IsAlphabet(abc)
  {
    var all := Decode(abc, psz);
    if all.None? then None else Unchecked(hash, all.value)
  }

  lemma UncheckedIs(hash: Checksum, all: seq<byte>, bytes: seq<byte>)
    requires |hash(bytes)| == 4
    ensures Unchecked(hash, all) == Some(bytes) <==> all == bytes + hash(bytes)
  {
    if all == bytes + hash(bytes) {
      assert all[..|bytes|] == bytes;
    }
  }

  lemma CheckLetters(abc: string, hash: Checksum, s: string, bytes: seq<byte>)
    requires IsAlphabet(abc) && |hash(bytes)| == 4 && AreLetters(abc, s)
    ensures DecodeCheck(abc, hash, s) == Some(bytes) <==> s == EncodeCheck(abc, hash, bytes)
  {
    DecodeEncode(abc, bytes + hash(bytes));
    EncodeDecode(abc, s);
    UncheckedIs(hash, Decode(abc, s).value, bytes);
  }

  lemma EncodeIsLetters(abc: string, bytes: seq<byte>)
    requires IsAlphabet(abc)
    ensures AreLetters(abc, Encode(abc, bytes))
  {
    var zeroes := Leading(bytes, 0);
    var n := Num(bytes[zeroes..], 256);
    NumOfDigits(n, 58);
    OnesAreLetters(abc, zeroes, Letters(abc, Digits(n, 58)));
  }

  // A text with white space before and after it.
  ghost predicate Spaced(psz: string, s: string) {
    exists before, after :: AreSpaces(before) && AreSpaces(after) && psz == before + (s + after)
  }

  // Checked decoding accepts exactly the checked encoding of the answer, with any white space around it.
  lemma CheckRoundTrip(abc: string, hash: Checksum, psz: string, bytes: seq<byte>)
    requires IsAlphabet(abc) && |hash(bytes)| == 4
    ensures DecodeCheck(abc, hash, psz) == Some(bytes) <==> Spaced(psz, EncodeCheck(abc, hash, bytes))
  {
    if DecodeCheck(abc, hash, psz) == Some(bytes) {
      var before, s, after := DecodeAccepts(abc, psz);
      DecodeTrims(abc, before, s, after);
      CheckLetters(abc, hash, s, bytes);
    }
    var s := EncodeCheck(abc, hash, bytes);
    if Spaced(psz, s) {
      var before, after :| AreSpaces(before) && AreSpaces(after) && psz == before + (s + after);
      EncodeIsLetters(abc, bytes + hash(bytes));
      DecodeTrims(abc, before, s, after);
      CheckLetters(abc, hash, s, bytes);
    }
  }

  /* ---- Buffer sizes ---- */

  lemma {:induction false} ExpUpTo(b: nat, m: nat, n: nat)
    requires b >= 2 && m <= n
    ensures Exp(b, m) <= Exp(b, n)
  {
    if m < n {
      ExpGrows(b, m, n);
    }
  }

  const TEN_62 := 100000000000000000000000000000000000000000000000000000000000000

  lemma Exp58()
    ensures Exp(58, 71) == 1597303866630780663453064473371615846967699048984100789132430295 * TEN_62 +
      77507397293846405390982563136983769384625594118558891106107392
  {
    Exp58By64();
    assert Exp(58, 7) == 2207984167552;
    ExpAdds(58, 64, 7);
  }

  lemma Exp58By64()
    ensures Exp(58, 64) == 723421793554669014712589276121501539077218482343164 * TEN_62 +
      45933056526044582001260898145151856420451025374266490194231296
  {
    assert Exp(58, 32) == 268965015114358137726910587140455987105619365599731777536 by {
      Exp58By32();
    }
    ExpAdds(58, 32, 32);
  }

  lemma Exp58By32()
    ensures Exp(58, 32) == 268965015114358137726910587140455987105619365599731777536
  {
    assert Exp(58, 8) == 128063081718016;
    ExpAdds(58, 8, 8);
    ExpAdds(58, 16, 16);
  }

  lemma Exp256()
    ensures Exp(256, 52) > 1597303866630780663453064473371615846967699048984100789132430295 * TEN_62 +
      77507397293846405390982563136983769384625594118558891106107392
  {
    assert Exp(256, 13) == 20282409603651670423947251286016;
    ExpAdds(256, 13, 13);
    ExpAdds(256, 26, 26);
  }

  lemma Exp8()
    ensures Exp(256, 8) <= Exp(58, 11)
  {
  }

  // 138/100 base58 digits per byte are enough,
  lemma EncodeFits(length: nat)
    ensures Exp(256, length) < Exp(58, length * 138 / 100 + 1)
  {
    Exp8();
    DigitsFit(256, 58, 8, 11, length, length * 138 / 100 + 1);
  }

  // and so are 733/1000 bytes per base58 digit.
  lemma DecodeFits(length: nat)
    ensures Exp(58, length) < Exp(256, length * 733 / 1000 + 1)
  {
    Exp58();
    Exp256();
    DigitsFit(58, 256, 71, 52, length, length * 733 / 1000 + 1);
  }
}
