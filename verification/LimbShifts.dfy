/** Shifts, bit lengths and single bits of numbers made of limbs. */
module LimbShifts {
  import opened Arithmetic
  import opened Bits
  import opened Limbs

  lemma {:induction false} PowIsShl(n: nat)
    ensures Pow(n) == Shl(1, 32 * n)
  {
    if n > 0 {
      PowIsShl(n - 1);
      ShlTwice(1, 32, 32 * (n - 1));
      ShlTimes(Shl(1, 32), 32 * (n - 1));
      Powers();
    }
  }

  // Shifting by whole limbs and some bits multiplies by a power of the base and a power of two.
  lemma ShiftIsProduct(x: nat, k: nat, s: nat)
    ensures Shl(x, 32 * k + s) == x * Shl(1, s) * Pow(k)
  {
    ShlTwice(x, s, 32 * k);
    ShlTimes(x, s);
    ShlTimes(Shl(x, s), 32 * k);
    PowIsShl(k);
  }

  /* ---- One limb ---- */

  // The low s bits.
  function Low(x: nat, s: nat): (r: nat) {
    ShrDrops(x, s);
    x - Shl(Shr(x, s), s)
  }

  // A limb shifted left spills its top bits and keeps the rest.
  lemma LimbShl(x: uint32, s: nat)
    requires s < 32
    ensures Shl(x, s) / BASE == Shr(x, 32 - s) < Shl(1, s)
    ensures Shl(x, s) % BASE == Shl(Low(x, 32 - s), s) <= BASE - Shl(1, s)
  {
    var q, lo := Shr(x, 32 - s), Low(x, 32 - s);
    Powers();
    ShlTwice(1, s, 32 - s);
    ShlTwice(1, 32 - s, s);
    assert Shl(x, s) == q * BASE + Shl(lo, s) by {
      ShlAdds(Shl(q, 32 - s), lo, s);
      ShlTwice(q, 32 - s, s);
      ShlTimes(q, 32);
    }
    assert Shl(lo, s) <= BASE - Shl(1, s) by {
      ShrDrops(x, 32 - s);
      ShlMonotone(lo + 1, Shl(1, 32 - s), s);
      ShlAdds(lo, 1, s);
    }
    ShlGrows(s);
    DivisionIs(Shl(x, s), BASE, q, Shl(lo, s));
    ShrFloors(x, 32 - s, Shl(1, s) - 1);
  }

  lemma ShrSmall(x: uint32, s: nat)
    requires s < 32
    ensures Shr(x, s) < BASE && (s > 0 ==> Shr(x, s) < Shl(1, 32 - s))
  {
    Powers();
    ShlTwice(1, 32 - s, s);
    ShrFloors(x, s, Shl(1, 32 - s) - 1) by {
      ShlGrows(32 - s);
    }
  }

  // Or-ing a shifted limb into one whose upper bits are still clear.
  lemma OrLimb(y: uint32, x: uint32, s: nat)
    requires s < 32 && y < Shl(1, s)
    ensures Or(y, Shl(x, s) % BASE) == y + Shl(x, s) % BASE < BASE
  {
    LimbShl(x, s);
    OrIsSum(Low(x, 32 - s), y, s);
    OrCommutes(y, Shl(Low(x, 32 - s), s));
  }

  /* ---- Shifts to the left ---- */

  function ShlLimb(a: seq<uint32>, k: nat, s: nat, m: nat): (r: nat)
    requires m < |a|
  {
    if m < k then 0 else Shl(a[m - k], s) % BASE + if m > k then Shl(a[m - k - 1], s) / BASE else 0
  }

  lemma ShlTerms(lo: nat, hi: nat, prev: nat, x: nat, c: nat, va: nat, vr: nat, pk: nat, pt: nat)
    requires lo + hi * BASE == x * c && vr + prev * (pk * pt) == va * c * pk
    ensures vr + (lo + prev) * (pk * pt) + hi * (BASE * (pk * pt)) == (va + x * pt) * c * pk
  {
    var p := pk * pt;
    Distribute(lo, prev, p);
    Associate(hi, BASE, p);
    Distribute(lo, hi * BASE, p);
    Distribute(va, x * pt, c);
    Distribute(va * c, x * pt * c, pk);
    assert x * c * p == x * pt * c * pk;
  }

  lemma {:induction false} ShlVal(a: seq<uint32>, r: seq<uint32>, k: nat, s: nat, t: nat)
    requires |a| == |r| && k + t <= |a| && forall m :: 0 <= m < |r| ==> r[m] == ShlLimb(a, k, s, m)
    ensures Val(r, k + t) + (if t > 0 then Shl(a[t - 1], s) / BASE else 0) * Pow(k + t) ==
      Val(a, t) * Shl(1, s) * Pow(k)
  {
    if t == 0 {
      ValZero(r, k);
    } else {
      ShlVal(a, r, k, s, t - 1);
      PowAdds(k, t - 1);
      ShlTimes(a[t - 1], s);
      var w := Shl(a[t - 1], s);
      ShlTerms(w % BASE, w / BASE, if t > 1 then Shl(a[t - 2], s) / BASE else 0, a[t - 1], Shl(1, s), Val(a, t - 1),
               Val(r, k + t - 1), Pow(k), Pow(t - 1));
    }
  }

  // All limbs are shifted out.
  lemma ShlOut(a: seq<uint32>, r: seq<uint32>, k: nat, s: nat)
    requires |a| == |r| <= k && forall m :: 0 <= m < |r| ==> r[m] == ShlLimb(a, k, s, m)
    ensures Val(r, |r|) == Shl(Val(a, |a|), 32 * k + s) % Pow(|a|)
  {
    var n, v, c := |a|, Val(a, |a|), Shl(1, s);
    ShiftIsProduct(v, k, s);
    ValBound(r, n);
    ValZero(r, n);
    PowAdds(k - n, n);
    Associate(v * c, Pow(k - n), Pow(n));
    DivisionIs(Shl(v, 32 * k + s), Pow(n), v * c * Pow(k - n), 0);
  }

  // The shifted number, in what stays and what is shifted out with the top k limbs.
  lemma ShiftedTerms(a: seq<uint32>, k: nat, s: nat, t: nat) returns (kept: nat, over: nat)
    requires |a| == k + t
    ensures Shl(Val(a, |a|), 32 * k + s) == kept + over * Pow(|a|)
    ensures kept == Val(a, t) * Shl(1, s) * Pow(k)
  {
    kept, over := Val(a, t) * Shl(1, s) * Pow(k), Val(a[t..], k) * Shl(1, s);
    ShiftIsProduct(Val(a, |a|), k, s);
    ValSplit(a, t, k);
    PowAdds(t, k);
    OverflowTerms(Val(a, |a|), Val(a, t), Val(a[t..], k), Shl(1, s), Pow(k), Pow(t), Pow(|a|));
  }

  // A part of the limb below them is shifted out too.
  lemma ShlKept(a: seq<uint32>, r: seq<uint32>, k: nat, s: nat, t: nat, n: nat, kept: nat) returns (hi: nat)
    requires |a| == |r| == k + t == n && t > 0 && forall m :: 0 <= m < |r| ==> r[m] == ShlLimb(a, k, s, m)
    requires kept == Val(a, t) * Shl(1, s) * Pow(k)
    ensures Val(r, n) + hi * Pow(n) == kept && Val(r, n) < Pow(n)
  {
    hi := Shl(a[t - 1], s) / BASE;
    ShlVal(a, r, k, s, t);
    ValBound(r, n);
  }

  lemma ShlSome(a: seq<uint32>, r: seq<uint32>, k: nat, s: nat, t: nat)
    requires |a| == |r| == k + t && t > 0 && forall m :: 0 <= m < |r| ==> r[m] == ShlLimb(a, k, s, m)
    ensures Val(r, |r|) == Shl(Val(a, |a|), 32 * k + s) % Pow(|a|)
  {
    var kept, over := ShiftedTerms(a, k, s, t);
    var hi := ShlKept(a, r, k, s, t, |r|, kept);
    OverflowIs(Shl(Val(a, |a|), 32 * k + s), kept, Val(r, |r|), hi, over, Pow(|a|));
  }

  lemma OverflowIs(x: nat, low: nat, r: nat, hi: nat, top: nat, m: nat)
    requires r < m && r + hi * m == low && x == low + top * m
    ensures x % m == r
  {
    Distribute(hi, top, m);
    DivisionIs(x, m, hi + top, r);
  }

  // Limb-wise left shift is a shift of the number, modulo the range.
  lemma ShlIsShift(a: seq<uint32>, r: seq<uint32>, k: nat, s: nat)
    requires |a| == |r| && forall m :: 0 <= m < |r| ==> r[m] == ShlLimb(a, k, s, m)
    ensures Val(r, |r|) == Shl(Val(a, |a|), 32 * k + s) % Pow(|a|)
  {
    if k >= |a| {
      ShlOut(a, r, k, s);
    } else {
      ShlSome(a, r, k, s, |a| - k);
    }
  }

  lemma OverflowTerms(v: nat, low: nat, top: nat, c: nat, pk: nat, pt: nat, pn: nat)
    requires v == low + pt * top && pn == pt * pk
    ensures v * c * pk == low * c * pk + (top * c) * pn
  {
    Distribute(low, pt * top, c);
    Distribute(low * c, pt * top * c, pk);
    assert pt * top * c * pk == (top * c) * (pt * pk);
  }

  /* ---- Shifts to the right ---- */

  function ShrLimb(a: seq<uint32>, k: nat, s: nat, m: nat): (r: nat)
    requires m < |a| && s < 32
  {
    if m + k >= |a| then 0
    else Shr(a[m + k], s) + if m + k + 1 < |a| && s > 0 then Shl(a[m + k + 1], 32 - s) % BASE else 0
  }

  // The bits that limb m + k loses, and those it gains from the limb above.
  lemma ShrLimbTimes(a: seq<uint32>, k: nat, s: nat, m: nat)
    requires m + k < |a| && s < 32
    ensures ShrLimb(a, k, s, m) * Shl(1, s) ==
            a[m + k] - Low(a[m + k], s) + (if m + k + 1 < |a| then Low(a[m + k + 1], s) else 0) * BASE
  {
    var x := a[m + k];
    ShlTimes(Shr(x, s), s);
    if m + k + 1 < |a| && s > 0 {
      LowGained(a[m + k + 1], s);
      Distribute(Shr(x, s), Shl(a[m + k + 1], 32 - s) % BASE, Shl(1, s));
    } else if m + k + 1 < |a| {
      LowOfNone(a[m + k + 1]);
    }
  }

  lemma LowOfNone(y: uint32)
    ensures Low(y, 0) == 0
  {}

  // The low bits of the limb above, moved to the top.
  lemma LowGained(y: uint32, s: nat)
    requires 0 < s < 32
    ensures Shl(y, 32 - s) % BASE * Shl(1, s) == Low(y, s) * BASE
  {
    LimbShl(y, 32 - s);
    ShlTwice(Low(y, s), 32 - s, s);
    ShlTimes(Low(y, s), 32);
    Powers();
    ShlTimes(Shl(Low(y, s), 32 - s), s);
  }

  lemma ShrTerms(c: nat, r: nat, x: nat, low: nat, next: nat, vr: nat, va: nat, first: nat, p: nat)
    requires r * c == x - low + next * BASE && c * vr + first == va + low * p
    ensures c * (vr + r * p) + first == va + x * p + next * (BASE * p)
  {
    Distribute(vr, r * p, c);
    Associate(c, r, p);
    Distribute(x - low, next * BASE, p);
    Distribute(x, -(low as int), p);
    Associate(next, BASE, p);
  }

  // The bits that the first t limbs of the result have from the limb above them.
  function Carried(a: seq<uint32>, k: nat, s: nat, t: nat): (r: nat) {
    if k + t < |a| then Low(a[k + t], s) else 0
  }

  // The low bits of the first limb are lost, those carried in make up for the limbs not reached.
  ghost predicate ShrSoFar(a: seq<uint32>, r: seq<uint32>, k: nat, s: nat, t: nat)
    requires k < |a| && k + t <= |a| && t <= |r|
  {
    Shl(1, s) * Val(r, t) + Low(a[k], s) == Val(a[k..], t) + Carried(a, k, s, t) * Pow(t)
  }

  lemma ShrStep(a: seq<uint32>, r: seq<uint32>, k: nat, s: nat, t: nat)
    requires k < |a| && k + t < |a| && t < |r| && s < 32
    requires r[t] == ShrLimb(a, k, s, t) && ShrSoFar(a, r, k, s, t)
    ensures ShrSoFar(a, r, k, s, t + 1)
  {
    ShrLimbTimes(a, k, s, t);
    ShrTerms(Shl(1, s), r[t], a[k + t], Low(a[k + t], s), Carried(a, k, s, t + 1), Val(r, t), Val(a[k..], t),
      Low(a[k], s), Pow(t));
  }

  lemma {:induction false} ShrVal(a: seq<uint32>, r: seq<uint32>, k: nat, s: nat, t: nat)
    requires |a| == |r| && k < |a| && k + t <= |a| && s < 32
    requires forall m :: 0 <= m < |r| ==> r[m] == ShrLimb(a, k, s, m)
    ensures ShrSoFar(a, r, k, s, t)
  {
    if t > 0 {
      ShrVal(a, r, k, s, t - 1);
      ShrStep(a, r, k, s, t - 1);
    }
  }

  lemma RemainderTerms(q: nat, c: nat, p: nat, low: nat, rest: nat, upper: nat)
    requires c * q + low == upper && low < c && rest < p
    ensures q * c * p <= rest + p * upper < (q + 1) * c * p
  {
    Distribute(c * q, low, p);
    MulMonotone(low + 1, c, p);
    Distribute(low, 1, p);
    Distribute(q, 1, c);
    Distribute(q * c, c, p);
  }

  lemma ShrNothing(a: seq<uint32>, r: seq<uint32>, k: nat, s: nat)
    requires |a| == |r| <= k && s < 32 && forall m :: 0 <= m < |r| ==> r[m] == ShrLimb(a, k, s, m)
    ensures Val(r, |r|) == 0 && Val(a, |a|) < Shl(1, s) * Pow(k)
  {
    var n := |a|;
    ValZero(r, n);
    ValBound(a, n);
    assert Pow(n) <= Pow(k) by {
      PowAdds(n, k - n);
      MulMonotone(1, Pow(k - n), Pow(n));
    }
    ShlGrows(s);
    MulMonotone(1, Shl(1, s), Pow(k));
  }

  lemma ShrSome(a: seq<uint32>, r: seq<uint32>, k: nat, s: nat, q: nat, v: nat)
    requires k < |a| == |r| && s < 32 && forall m :: 0 <= m < |r| ==> r[m] == ShrLimb(a, k, s, m)
    requires q == Val(r, |r|) && v == Val(a, |a|)
    ensures Shl(q, 32 * k + s) <= v < Shl(q + 1, 32 * k + s)
  {
    var t := |a| - k;
    assert q == Val(r, t) by {
      ValHighZero(r, t, |a|);
    }
    ShrVal(a, r, k, s, t);
    ValSplit(a, k, t);
    ValBound(a, k);
    ShrDrops(a[k], s);
    var c, p := Shl(1, s), Pow(k);
    assert q * c * p <= v < (q + 1) * c * p by {
      RemainderTerms(q, c, p, Low(a[k], s), Val(a, k), Val(a[k..], t));
    }
    ShiftIsProduct(q, k, s);
    ShiftIsProduct(q + 1, k, s);
  }

  // Limb-wise right shift is a shift of the number.
  lemma ShrIsShift(a: seq<uint32>, r: seq<uint32>, k: nat, s: nat)
    requires |a| == |r| && s < 32 && forall m :: 0 <= m < |r| ==> r[m] == ShrLimb(a, k, s, m)
    ensures Val(r, |r|) == Shr(Val(a, |a|), 32 * k + s)
  {
    var q := Val(r, |r|);
    if k >= |a| {
      ShrNothing(a, r, k, s);
      ShiftIsProduct(1, k, s);
      ShlTimes(0, 32 * k + s);
    } else {
      ShrSome(a, r, k, s, q, Val(a, |a|));
    }
    ShrIs(Val(a, |a|), 32 * k + s, q);
  }

  /* ---- Bit lengths ---- */

  // r is the position of the highest one bit of v plus one, or zero.
  ghost predicate IsBitLength(v: nat, r: nat) {
    v < Shl(1, r) && (r > 0 ==> Shl(1, r - 1) <= v)
  }

  lemma {:induction false} ValHighZero(s: seq<uint32>, i: nat, n: nat)
    requires i <= n <= |s| && forall k :: i <= k < n ==> s[k] == 0
    ensures Val(s, n) == Val(s, i)
  {
    if i < n {
      ValHighZero(s, i, n - 1);
    }
  }

  lemma BitLengthAt(s: seq<uint32>, pos: nat, b: nat)
    requires pos < |s| && forall k :: pos < k < |s| ==> s[k] == 0
    requires Shl(1, b) <= s[pos] < Shl(1, b + 1)
    ensures IsBitLength(Val(s, |s|), 32 * pos + b + 1)
  {
    ValHighZero(s, pos + 1, |s|);
    ValBound(s, pos);
    ShiftIsProduct(1, pos, b);
    ShiftIsProduct(1, pos, b + 1);
    MulMonotone(Shl(1, b), s[pos], Pow(pos));
    MulMonotone(s[pos] as nat + 1, Shl(1, b + 1), Pow(pos));
    Distribute(s[pos], 1, Pow(pos));
  }

  lemma BitLengthFits(s: seq<uint32>, r: nat)
    requires IsBitLength(Val(s, |s|), r)
    ensures r <= 32 * |s|
  {
    ValBound(s, |s|);
    PowIsShl(|s|);
    if r > 32 * |s| {
      ShlExponent(32 * |s|, r - 1);
    }
  }

  // A number with fewer bits than the divisor is divided to nothing.
  lemma Shorter(n: nat, d: nat, numBits: nat, divBits: nat)
    requires IsBitLength(n, numBits) && IsBitLength(d, divBits) && divBits > numBits
    ensures n < d && n / d == 0
  {
    ShlExponent(numBits, divBits - 1);
    DivisionIs(n, d, 0, n);
  }

  // The divisor can be aligned with the dividend without overflow.
  lemma Aligned(n: nat, d: nat, numBits: nat, divBits: nat, shift: nat, limbs: nat)
    requires IsBitLength(n, numBits) && IsBitLength(d, divBits) && divBits > 0
    requires numBits == divBits + shift <= 32 * limbs
    ensures Shl(d, shift) % Pow(limbs) == Shl(d, shift) && n < Shl(d, shift + 1)
  {
    ShlTwice(1, divBits, shift);
    ShlMonotone(d + 1, Shl(1, divBits), shift);
    ShlAdds(d, 1, shift);
    ShlGrows(shift);
    PowIsShl(limbs);
    ShlExponent(numBits, 32 * limbs);
    DivisionIs(Shl(d, shift), Pow(limbs), 0, Shl(d, shift));
    ShlTwice(1, divBits - 1, shift + 1);
    ShlMonotone(Shl(1, divBits - 1), d, shift + 1);
  }

  // One round of division: if the shifted divisor fits, taking it out of the rest sets one bit.
  lemma DivStep(d: nat, shift: nat, rest: nat, q: nat, n: nat)
    requires rest + q * d == n && rest < Shl(d, shift + 1)
    ensures Shr(Shl(d, shift), 1) == if shift > 0 then Shl(d, shift - 1) else d / 2
    ensures rest - Shl(d, shift) + (q + Shl(1, shift)) * d == n && rest - Shl(d, shift) < Shl(d, shift)
  {
    ShlAdds(d, d, shift);
    ShlTimes(d, shift);
    Distribute(q, Shl(1, shift), d);
    if shift > 0 {
      ShlAdds(d, d, shift - 1);
    }
  }

  /* ---- Single bits ---- */

  // The lowest e bits are zero.
  ghost predicate Clear(s: seq<uint32>, e: nat) {
    forall k :: 0 <= k < |s| ==>
                  && (32 * (k + 1) <= e ==> s[k] == 0)
                  && (32 * k < e < 32 * (k + 1) ==> Shl(Shr(s[k], e - 32 * k), e - 32 * k) == s[k])
  }

  lemma ClearZero(s: seq<uint32>, e: nat)
    requires Val(s, |s|) == 0
    ensures Clear(s, e)
  {
    ValZero(s, |s|);
    forall k | 0 <= k < |s| && 32 * k < e
      ensures Shl(Shr(s[k], e - 32 * k), e - 32 * k) == 0
    {
      ShrDrops(s[k], e - 32 * k);
    }
  }

  lemma OrNewBit(x: uint32, b: nat, q: nat)
    requires b < 32 && x == Shl(q, b + 1)
    ensures Or(x, Shl(1, b)) == x + Shl(1, b) < BASE
    ensures Shr(x, b) == 2 * q && Shr(x + Shl(1, b), b) == 2 * q + 1
    ensures Shl(2 * q, b) == x && Shl(2 * q + 1, b) == x + Shl(1, b)
  {
    ShlAdds(1, 1, b);
    ShlGrows(b);
    OrIsSum(q, Shl(1, b), b + 1);
    ShlAdds(2 * q, 1, b);
    ShlAdds(2 * q + 1, 1, b);
    ShrIs(x, b, 2 * q);
    ShrIs(x + Shl(1, b), b, 2 * q + 1);
    BitFits(x, b, q);
  }

  lemma BitFits(x: uint32, b: nat, q: nat)
    requires b < 32 && x == Shl(q, b + 1)
    ensures x + Shl(1, b) < BASE
  {
    Powers();
    ShlTwice(1, 31 - b, b + 1);
    if q >= Shl(1, 31 - b) {
      ShlMonotone(Shl(1, 31 - b), q, b + 1);
    }
    ShlMonotone(q + 1, Shl(1, 31 - b), b + 1);
    ShlAdds(q, 1, b + 1);
    ShlAdds(1, 1, b);
    ShlGrows(b);
  }

  // Setting bit e of a number whose bits up to e are zero adds 2^e.
  lemma SetBit(s: seq<uint32>, e: nat, w: nat, b: nat)
    requires w < |s| && b < 32 && e == 32 * w + b && Clear(s, e + 1)
    ensures Or(s[w], Shl(1, b)) < BASE
    ensures var t := s[w := Or(s[w], Shl(1, b))];
      Clear(s, e) && Clear(t, e) && Val(t, |t|) == Val(s, |s|) + Shl(1, e)
  {
    var q := if b == 31 then 0 else Shr(s[w], b + 1);
    ShlTimes(0, 32);
    OrNewBit(s[w], b, q);
    var t := s[w := Or(s[w], Shl(1, b))];
    ValRaise(s, t, w, Shl(1, b), |s|);
    ShiftIsProduct(1, w, b);
  }
}
