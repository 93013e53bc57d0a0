/** The compact form of difficulty targets, and the work a target stands for. */
module CompactTarget {
  import opened Arithmetic
  import opened Bits
  import opened Limbs
  import opened LimbShifts
  import opened BaseUint

  const WIDTH := 8

  // 2^256, the number of values of an arith_uint256.
  function Range(): (r: nat) {
    Pow(WIDTH)
  }

  /* ---- Decoding ---- */

  function Size(nCompact: uint32): (r: nat) {
    nCompact / 0x100_0000
  }

  function Word(nCompact: uint32): (r: nat) {
    nCompact % 0x80_0000
  }

  predicate SignBit(nCompact: uint32) {
    nCompact / 0x80_0000 % 2 == 1
  }

  // The mantissa that is left when the exponent is below three.
  function Mantissa(nCompact: uint32): (r: nat) {
    if Size(nCompact) <= 3 then Shr(Word(nCompact), 8 * (3 - Size(nCompact))) else Word(nCompact)
  }

  // mantissa * 256^(exponent - 3), rounded down; not bounded by 256 bits.
  function Target(nCompact: uint32): (r: nat) {
    if Size(nCompact) <= 3 then Mantissa(nCompact) else Shl(Word(nCompact), 8 * (Size(nCompact) - 3))
  }

  predicate IsNegative(nCompact: uint32) {
    SignBit(nCompact) && Mantissa(nCompact) != 0
  }

  lemma ShlCompare(x: nat, y: nat, h: nat)
    ensures Shl(x, h) <= Shl(y, h) <==> x <= y
  {
    ShlGrows(h);
    if x <= y {
      ShlMonotone(x, y, h);
    } else {
      ShlAdds(y, 1, h);
      ShlMonotone(y + 1, x, h);
    }
  }

  lemma RangeIsShl()
    ensures Range() == Shl(1, 256)
  {
    PowIsShl(WIDTH);
  }

  lemma ShrAtMost(x: nat, h: nat)
    ensures Shr(x, h) <= x
  {
    ShrDrops(x, h);
    ShlTimes(Shr(x, h), h);
    ShlGrows(h);
    MulMonotone(1, Shl(1, h), Shr(x, h));
  }

  // The overflow test of SetCompact is exact.
  lemma OverflowIsExact(nCompact: uint32)
    ensures var nSize, nWord := Size(nCompact), Mantissa(nCompact);
      Target(nCompact) >= Range() <==>
      nWord != 0 && (nSize > 34 || (nWord > 0xff && nSize > 33) || (nWord > 0xffff && nSize > 32))
  {
    var nSize, nWord := Size(nCompact), Word(nCompact);
    RangeIsShl();
    Powers();
    if nSize <= 3 {
      ShrAtMost(nWord, 8 * (3 - nSize));
      ShlExponent(32, 256);
    } else {
      var e := 8 * (nSize - 3);
      if e <= 256 {
        ShlTwice(1, 256 - e, e);
        ShlCompare(Shl(1, 256 - e), nWord, e);
        if e <= 232 {
          ShlExponent(24, 256 - e);
          ShlTwice(1, 8, 16);
          ShlTimes(256, 16);
        } else {
          assert e == 240 || e == 248 || e == 256;
        }
      } else {
        ShlTimes(0, e);
        ShlExponent(256, e);
        if nWord > 0 {
          ShlMonotone(1, nWord, e);
        }
      }
    }
  }

  method SetCompact(a: base_uint, nCompact: uint32) returns (fNegative: bool, fOverflow: bool)
    requires a.pn.Length == WIDTH
    modifies a.pn
    ensures a.Num() == Target(nCompact) % Range()
    ensures fNegative <==> IsNegative(nCompact)
    ensures fOverflow <==> Target(nCompact) >= Range()
  {
    var nSize := nCompact / 0x100_0000;
    var nWord: nat := nCompact % 0x80_0000;
    OverflowIsExact(nCompact);
    if nSize <= 3 {
      ShrAtMost(nWord, 8 * (3 - nSize));
      nWord := Shr(nWord, 8 * (3 - nSize));
      a.Assign64(nWord);
      DivisionIs(nWord, Range(), 0, nWord) by {
        ValBound(a.pn[..], WIDTH);
      }
    } else {
      a.Assign64(nWord);
      a.ShlAssign(8 * (nSize - 3));
    }
    fNegative := nWord != 0 && nCompact / 0x80_0000 % 2 == 1;
    fOverflow := nWord != 0 && (nSize > 34 || (nWord > 0xff && nSize > 33) || (nWord > 0xffff && nSize > 32));
  }

  /* ---- Encoding ---- */

  function BitLength(v: nat): (r: nat) {
    if v == 0 then 0 else 1 + BitLength(v / 2)
  }

  lemma {:induction false} BitLengthBounds(v: nat)
    ensures IsBitLength(v, BitLength(v))
  {
    if v > 0 {
      BitLengthBounds(v / 2);
      var n := BitLength(v / 2);
      ShlAdds(1, 1, n);
      if n > 0 {
        ShlAdds(1, 1, n - 1);
      }
    }
  }

  lemma BitLengthIs(v: nat, r: nat)
    requires IsBitLength(v, r)
    ensures r == BitLength(v)
  {
    BitLengthBounds(v);
    if r < BitLength(v) {
      ShlExponent(r, BitLength(v) - 1);
    } else if r > BitLength(v) {
      ShlExponent(BitLength(v), r - 1);
    }
  }

  // The number of bytes of v, and its top three bytes.
  function Bytes(v: nat): (r: nat) {
    (BitLength(v) + 7) / 8
  }

  function Top(v: nat): (r: nat) {
    if Bytes(v) <= 3 then Shl(v, 8 * (3 - Bytes(v))) else Shr(v, 8 * (Bytes(v) - 3))
  }

  // Exponent and mantissa after making room for the sign bit.
  function Exponent(v: nat): (r: nat) {
    if Top(v) >= 0x80_0000 then Bytes(v) + 1 else Bytes(v)
  }

  function Fraction(v: nat): (r: nat) {
    if Top(v) >= 0x80_0000 then Top(v) / 256 else Top(v)
  }

  lemma BytesBound(v: nat)
    ensures v < Shl(1, 8 * Bytes(v))
    ensures v > 0 ==> Bytes(v) > 0 && Shl(1, 8 * (Bytes(v) - 1)) <= v
    ensures v < Range() ==> Bytes(v) <= 32
  {
    BitLengthBounds(v);
    var n, b := BitLength(v), Bytes(v);
    ShlExponent(n, 8 * b);
    if v > 0 {
      ShlExponent(8 * (b - 1), n - 1);
    }
    RangeIsShl();
    if b > 32 {
      ShlExponent(256, 8 * (b - 1));
    }
  }

  lemma TopIsThreeBytes(v: nat)
    ensures Top(v) < 0x100_0000
    ensures v > 0 ==> Top(v) >= 0x1_0000
  {
    BytesBound(v);
    var b := Bytes(v);
    Powers();
    ShlTwice(1, 8, 16);
    ShlTimes(256, 16);
    if b <= 3 {
      var s := 8 * (3 - b);
      ShlTwice(1, 8 * b, s);
      ShlCompare(Shl(1, 8 * b), v, s);
      if v > 0 {
        ShlTwice(1, 8 * (b - 1), s);
        ShlMonotone(Shl(1, 8 * (b - 1)), v, s);
      }
    } else {
      var s := 8 * (b - 3);
      ShlTwice(1, 24, s);
      ShrFloors(v, s, 0x100_0000 - 1);
      ShlTwice(1, 16, s);
      ShrFloors(v, s, 0x1_0000 - 1);
    }
  }

  // The exponent, the sign and the mantissa share no bits.
  function Packed(fraction: nat, exponent: nat, negative: bool): (r: uint32)
    requires fraction < 0x80_0000 && exponent < 256
  {
    fraction + 0x100_0000 * exponent + if negative then 0x80_0000 else 0
  }

  lemma PackedFields(fraction: nat, exponent: nat, negative: bool)
    requires fraction < 0x80_0000 && exponent < 256
    ensures var c := Packed(fraction, exponent, negative);
      Size(c) == exponent && Word(c) == fraction && SignBit(c) == negative
  {
    var c := Packed(fraction, exponent, negative);
    DivisionIs(c, 0x80_0000, 2 * exponent + if negative then 1 else 0, fraction);
  }

  lemma FieldsFit(v: nat)
    requires v < Range()
    ensures Fraction(v) < 0x80_0000 && Exponent(v) < 256
  {
    TopIsThreeBytes(v);
    BytesBound(v);
  }

  function Encode(v: nat, fNegative: bool): (r: uint32)
    requires v < Range()
  {
    FieldsFit(v);
    Packed(Fraction(v), Exponent(v), fNegative && Fraction(v) != 0)
  }

  lemma Truncates(x: nat)
    requires x < BASE
    ensures x % 0x1_0000_0000_0000_0000 == x && x % BASE == x
  {}

  method TopBytes(a: base_uint, nSize: nat) returns (r: uint32)
    requires a.pn.Length == WIDTH && nSize == Bytes(a.Num())
    ensures r == Top(a.Num())
  {
    ghost var v: nat := a.Num();
    ghost var top := Top(v);
    TopIsThreeBytes(v);
    Truncates(top);
    if nSize <= 3 {
      SmallIsLow(v);
      Truncates(v);
      var low := a.GetLow64();
      r := Shl(low, 8 * (3 - nSize)) % 0x1_0000_0000_0000_0000 % BASE;
    } else {
      var bn := new base_uint.Copy(a);
      bn.ShrAssign(8 * (nSize - 3));
      assert bn.Num() == top;
      var low := bn.GetLow64();
      r := low % BASE;
    }
  }

  lemma SignBitIsTop(top: nat)
    requires top < 0x100_0000
    ensures top / 0x80_0000 % 2 == 1 <==> top >= 0x80_0000
  {}

  // Exponent and mantissa, with the mantissa a byte shorter if its top bit is where the sign goes.
  method Fields(a: base_uint, ghost v: nat) returns (mantissa: nat, nSize: nat)
    requires a.pn.Length == WIDTH && v == a.Num()
    ensures mantissa == Fraction(v) && nSize == Exponent(v)
  {
    var bits := a.Bits();
    BitLengthIs(v, bits);
    nSize := (bits + 7) / 8;
    mantissa := TopBytes(a, nSize);
    TopIsThreeBytes(v);
    SignBitIsTop(mantissa);
    if mantissa / 0x80_0000 % 2 == 1 {
      mantissa := mantissa / 256;
      nSize := nSize + 1;
    }
  }

  method GetCompact(a: base_uint, fNegative: bool) returns (nCompact: uint32)
    requires a.pn.Length == WIDTH
    ensures a.Num() < Range() && nCompact == Encode(a.Num(), fNegative)
  {
    ghost var v: nat := a.Num();
    ValBound(a.pn[..], WIDTH);
    FieldsFit(v);
    var mantissa, nSize := Fields(a, v);
    assert mantissa < 0x80_0000;
    assert nSize < 256;
    nCompact := Packed(mantissa, nSize, fNegative && mantissa != 0);
  }

  lemma SmallIsLow(v: nat)
    requires Bytes(v) <= 3
    ensures v < BASE
  {
    BitLengthBounds(v);
    Powers();
    ShlExponent(BitLength(v), 32);
  }

  /* ---- Encoding and decoding ---- */

  lemma EncodedFields(v: nat, fNegative: bool)
    requires v < Range()
    ensures var c := Encode(v, fNegative);
      Size(c) == Exponent(v) && Word(c) == Fraction(v) && (SignBit(c) <==> fNegative && Fraction(v) != 0)
  {
    FieldsFit(v);
    PackedFields(Fraction(v), Exponent(v), fNegative && Fraction(v) != 0);
  }

  lemma ShrTwice(x: nat, a: nat, b: nat)
    ensures Shr(Shr(x, a), b) == Shr(x, a + b)
    decreases a
  {
    if a > 0 {
      ShrTwice(x / 2, a - 1, b);
    }
  }

  lemma ShrUndoes(x: nat, h: nat)
    ensures Shr(Shl(x, h), h) == x
  {
    ShlGrows(h);
    ShlAdds(x, 1, h);
    ShrIs(Shl(x, h), h, x);
  }

  // The bytes GetCompact leaves out.
  function Dropped(v: nat): (r: nat) {
    if Exponent(v) <= 3 then 0 else Exponent(v) - 3
  }

  lemma ShrByte(x: nat)
    ensures Shr(x, 8) == x / 256
  {
    Powers();
    ShlTimes(x / 256, 8);
    ShlAdds(x / 256, 1, 8);
    ShrIs(x, 8, x / 256);
  }

  lemma DecodeSmall(v: nat, fNegative: bool)
    requires v < Range() && Exponent(v) <= 3
    ensures Target(Encode(v, fNegative)) == v
  {
    EncodedFields(v, fNegative);
    var h := 8 * (3 - Bytes(v));
    ShrUndoes(v, h);
    if Top(v) >= 0x80_0000 {
      ShrByte(Top(v));
      ShrTwice(Top(v), 8, h - 8);
    }
  }

  lemma FractionOf(v: nat)
    requires Exponent(v) > 3
    ensures Fraction(v) == Shr(v, 8 * Dropped(v))
  {
    if Top(v) >= 0x80_0000 {
      ShrByte(Top(v));
      if Bytes(v) > 3 {
        ShrTwice(v, 8 * (Bytes(v) - 3), 8);
      }
    }
  }

  lemma DecodeLarge(v: nat, fNegative: bool)
    requires v < Range() && Exponent(v) > 3
    ensures Target(Encode(v, fNegative)) == Shl(Shr(v, 8 * Dropped(v)), 8 * Dropped(v))
  {
    EncodedFields(v, fNegative);
    FractionOf(v);
  }

  // Decoding an encoding gives the number with its lowest bytes cleared, and keeps the sign.
  lemma DecodeEncode(v: nat, fNegative: bool)
    requires v < Range()
    ensures var c := Encode(v, fNegative);
      && Target(c) == Shl(Shr(v, 8 * Dropped(v)), 8 * Dropped(v)) <= v
      && (IsNegative(c) <==> fNegative && v != 0)
  {
    EncodedFields(v, fNegative);
    TopIsThreeBytes(v);
    ShrDrops(v, 8 * Dropped(v));
    if Exponent(v) <= 3 {
      DecodeSmall(v, fNegative);
    } else {
      DecodeLarge(v, fNegative);
      assert v != 0 by {
        BitLengthBounds(v);
      }
    }
  }

  lemma DroppedAtMost(v: nat, w: nat, e: nat)
    requires v == Shl(w, 8 * e) && w < 0x80_0000
    ensures Dropped(v) <= e
  {
    BitLengthBounds(v);
    Powers();
    ShlTwice(1, 23, 8 * e);
    ShlTwice(1, 16, 7);
    assert Shl(0x1_0000, 7) == 0x80_0000;
    ShlCompare(Shl(1, 23), w, 8 * e);
    if BitLength(v) > 23 + 8 * e {
      ShlExponent(23 + 8 * e, BitLength(v) - 1);
    }
    if Bytes(v) == e + 3 {
      ShrUndoes(w, 8 * e);
    }
  }

  // What a compact form stands for is its mantissa and whole zero bytes.
  lemma TargetIs(nCompact: uint32, w: nat, e: nat)
    requires w == Mantissa(nCompact) && e == if Size(nCompact) <= 3 then 0 else Size(nCompact) - 3
    ensures Target(nCompact) == Shl(w, 8 * e) && w < 0x80_0000
    ensures Target(nCompact) == 0 <==> w == 0
  {
    if Size(nCompact) <= 3 {
      ShrAtMost(Word(nCompact), 8 * (3 - Size(nCompact)));
    }
    ShlCompare(1, w, 8 * e);
    ShlGrows(8 * e);
    ShlTimes(0, 8 * e);
  }

  lemma NothingDropped(v: nat, w: nat, e: nat)
    requires v == Shl(w, 8 * e) && w < 0x80_0000
    ensures Shl(Shr(v, 8 * Dropped(v)), 8 * Dropped(v)) == v
  {
    var d := 8 * Dropped(v);
    DroppedAtMost(v, w, e);
    ShlTwice(w, 8 * e - d, d);
    ShrUndoes(Shl(w, 8 * e - d), d);
  }

  // A value that came from a compact form survives re-encoding unchanged.
  lemma CompactRoundTrip(nCompact: uint32)
    requires Target(nCompact) < Range()
    ensures var c := Encode(Target(nCompact), IsNegative(nCompact));
      Target(c) == Target(nCompact) && (IsNegative(c) <==> IsNegative(nCompact))
  {
    var w, e := Mantissa(nCompact), if Size(nCompact) <= 3 then 0 else Size(nCompact) - 3;
    TargetIs(nCompact, w, e);
    NothingDropped(Target(nCompact), w, e);
    DecodeEncode(Target(nCompact), IsNegative(nCompact));
  }

  /* ---- Work ---- */

  // The expected number of hashes to meet a target: 2^256 / (target + 1), or nothing for a bad target.
  function Work(nBits: uint32): (r: nat) {
    if IsNegative(nBits) || Target(nBits) >= Range() then 0
    else if Target(nBits) == 0 then 0
    else Range() / (Target(nBits) + 1)
  }

  // A decoded target is never all ones, so one more does not wrap around.
  lemma TargetLeavesRoom(nCompact: uint32)
    requires Target(nCompact) < Range()
    ensures Target(nCompact) + 1 < Range()
  {
    RangeIsShl();
    if Size(nCompact) <= 3 {
      ShrAtMost(Word(nCompact), 8 * (3 - Size(nCompact)));
      Powers();
      ShlExponent(32, 256);
    } else {
      var half := Shl(Word(nCompact), 8 * (Size(nCompact) - 3) - 1);
      assert Target(nCompact) == 2 * half by {
        ShlAdds(Word(nCompact), Word(nCompact), 8 * (Size(nCompact) - 3) - 1);
      }
      assert Range() == 2 * Shl(1, 255) by {
        ShlAdds(1, 1, 255);
      }
    }
  }

  // 2^256 / (t + 1), computed without representing 2^256.
  lemma DivideByComplement(m: nat, t: nat)
    requires 0 < t && t + 1 < m
    ensures (m - 1 - t) / (t + 1) + 1 == m / (t + 1) < m
  {
    var q, r := (m - 1 - t) / (t + 1), (m - 1 - t) % (t + 1);
    Distribute(q, 1, t + 1);
    DivisionIs(m, t + 1, q + 1, r);
    MulMonotone(2, t + 1, q + 1);
  }

  // The division itself, in 256 bits: one more than the complement of the target divided by its successor.
  method DivideRange(bnTarget: base_uint, ghost t: nat) returns (work: base_uint)
    requires bnTarget.pn.Length == WIDTH && bnTarget.Num() == t && 0 < t && t + 1 < Range()
    ensures fresh(work) && fresh(work.pn) && work.pn.Length == WIDTH
    ensures work.Num() == Range() / (t + 1)
  {
    ghost var m := Range();
    DivideByComplement(m, t);
    DivisionIs(t + 1, m, 0, t + 1);
    DivisionIs(m / (t + 1), m, 0, m / (t + 1));
    var next := new base_uint.Copy(bnTarget);
    var one := new base_uint.From64(WIDTH, 1);
    next.AddAssign(one);
    assert next.Num() == t + 1;
    work := bnTarget.Complement();
    var ok := work.DivAssign(next);
    work.AddAssign(one);
  }

  method GetBlockProof(nBits: uint32) returns (work: base_uint)
    ensures work.pn.Length == WIDTH && work.Num() == Work(nBits)
  {
    var bnTarget := new base_uint(WIDTH);
    var fNegative, fOverflow := SetCompact(bnTarget, nBits);
    if !fOverflow {
      DivisionIs(Target(nBits), Range(), 0, Target(nBits));
    }
    var zero := bnTarget.EqualTo(0);
    if fNegative || fOverflow || zero {
      work := new base_uint(WIDTH);
    } else {
      TargetLeavesRoom(nBits);
      work := DivideRange(bnTarget, Target(nBits));
    }
  }

  lemma DivMonotone(m: nat, x: nat, y: nat)
    requires 0 < x <= y
    ensures m / x >= m / y
  {
    if m / x < m / y {
      MulMonotone(m / x + 1, m / y, x);
      MulMonotone(x, y, m / y);
      Distribute(m / x, 1, x);
    }
  }

  // A smaller target never stands for less work, and a valid one always for some.
  lemma WorkIsMonotone(a: uint32, b: uint32)
    requires !IsNegative(a) && !IsNegative(b) && 0 < Target(a) <= Target(b) < Range()
    ensures Work(a) >= Work(b) > 0
  {
    TargetLeavesRoom(b);
    QuotientsAre(Range(), Target(a), Target(b));
  }

  lemma QuotientsAre(m: nat, t: nat, u: nat)
    requires 0 < t <= u && u + 1 < m
    ensures m / (t + 1) >= m / (u + 1) > 0
  {
    DivMonotone(m, t + 1, u + 1);
    DivideByComplement(m, u);
  }

  // The work is how many times target + 1 goes into 2^256, and nothing for a target that is negative, too
  // large or zero.
  lemma WorkIsShare(nBits: uint32)
    ensures Range() == Shl(1, 256)
    ensures Work(nBits) == 0 <==> IsNegative(nBits) || Target(nBits) >= Range() || Target(nBits) == 0
    ensures Work(nBits) > 0 ==>
      Work(nBits) * (Target(nBits) + 1) <= Range() < (Work(nBits) + 1) * (Target(nBits) + 1)
  {
    RangeIsShl();
    if !IsNegative(nBits) && 0 < Target(nBits) < Range() {
      TargetLeavesRoom(nBits);
      ShareIs(Range(), Target(nBits) + 1);
    }
  }

  lemma ShareIs(m: nat, d: nat)
    requires 1 < d < m
    ensures m / d > 0 && m / d * d <= m < (m / d + 1) * d
  {
    Distribute(m / d, 1, d);
  }
}
