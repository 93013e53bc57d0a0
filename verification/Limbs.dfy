/** Big integers as little-endian lists of 32-bit limbs. */
module Limbs {
  // What a list is worth, and what one step of each limb-by-limb algorithm does to that worth.

  import opened Arithmetic

  const BASE := 0x1_0000_0000

  type uint32 = n: nat | n < 0x1_0000_0000
  type uint64 = n: nat | n < 0x1_0000_0000_0000_0000

  // BASE to the power of n.
  function Pow(n: nat): (r: nat)
    ensures r > 0
  {
    if n == 0 then 1 else BASE * Pow(n - 1)
  }

  // The number the lowest n limbs stand for.
  function Val(s: seq<uint32>, n: nat): (r: nat)
    requires n <= |s|
  {
    if n == 0 then 0 else Val(s, n - 1) + s[n - 1] * Pow(n - 1)
  }

  lemma {:induction false} PowAdds(a: nat, b: nat)
    ensures Pow(a + b) == Pow(a) * Pow(b)
  {
    if a > 0 {
      PowAdds(a - 1, b);
      Associate(BASE, Pow(a - 1), Pow(b));
    }
  }

  /* ---- Worth of a list ---- */

  lemma {:induction false} ValFrame(s: seq<uint32>, t: seq<uint32>, n: nat)
    requires n <= |s| && n <= |t| && forall k :: 0 <= k < n ==> s[k] == t[k]
    ensures Val(s, n) == Val(t, n)
  {
    if n > 0 {
      ValFrame(s, t, n - 1);
    }
  }

  lemma {:induction false} ValBound(s: seq<uint32>, n: nat)
    requires n <= |s|
    ensures Val(s, n) < Pow(n)
  {
    if n > 0 {
      ValBound(s, n - 1);
      MulMonotone(s[n - 1], BASE - 1, Pow(n - 1));
      Distribute(BASE - 1, 1, Pow(n - 1));
    }
  }

  lemma {:induction false} ValZero(s: seq<uint32>, n: nat)
    requires n <= |s|
    ensures Val(s, n) == 0 <==> forall k :: 0 <= k < n ==> s[k] == 0
  {
    if n > 0 {
      ValZero(s, n - 1);
      if s[n - 1] > 0 {
        MulMonotone(1, s[n - 1], Pow(n - 1));
      }
    }
  }

  // Limbs above the k-th are worth Pow(k) times as much as they would be on their own.
  lemma {:induction false} ValSplit(s: seq<uint32>, k: nat, n: nat)
    requires k + n <= |s|
    ensures Val(s, k + n) == Val(s, k) + Pow(k) * Val(s[k..], n)
  {
    if n > 0 {
      ValSplit(s, k, n - 1);
      PowAdds(k, n - 1);
      SplitTerms(Val(s[k..], n - 1), s[k + n - 1], Pow(k), Pow(n - 1));
    }
  }

  lemma SplitTerms(v: nat, x: nat, pk: nat, pn: nat)
    ensures pk * v + x * (pk * pn) == pk * (v + x * pn)
  {
    Associate(x, pn, pk);
    Distribute(v, x * pn, pk);
  }

  // Of two numbers that agree above a limb, the one with the smaller limb is smaller.
  lemma {:induction false} ValOrder(s: seq<uint32>, t: seq<uint32>, i: nat, n: nat)
    requires i < n <= |s| == |t| && s[i] < t[i] && forall k :: i < k < n ==> s[k] == t[k]
    ensures Val(s, n) < Val(t, n)
  {
    if n == i + 1 {
      ValBound(s, i);
      MulMonotone(s[i] + 1, t[i], Pow(i));
      Distribute(s[i], 1, Pow(i));
    } else {
      ValOrder(s, t, i, n - 1);
    }
  }

  // Raising limb i by x.
  lemma {:induction false} ValRaise(s: seq<uint32>, t: seq<uint32>, i: nat, x: nat, n: nat)
    requires i < n <= |s| == |t| && t[i] == s[i] + x && forall k :: 0 <= k < n && k != i ==> s[k] == t[k]
    ensures Val(t, n) == Val(s, n) + x * Pow(i)
  {
    if n == i + 1 {
      ValFrame(s, t, i);
      Distribute(s[i], x, Pow(i));
    } else {
      ValRaise(s, t, i, x, n - 1);
    }
  }

  // Storing the low half of n at limb i and carrying the high half on keeps n's worth.
  lemma CarryStep(s: seq<uint32>, i: nat, n: nat)
    requires i < |s| && s[i] == n % BASE
    ensures Val(s, i + 1) + (n / BASE) * Pow(i + 1) == Val(s, i) + n * Pow(i)
  {
    var lo, hi, p := n % BASE, n / BASE, Pow(i);
    assert n == lo + hi * BASE;
    Distribute(lo, hi * BASE, p);
    Associate(hi, BASE, p);
  }

  lemma AddTerms(carry: nat, x: nat, y: nat, va: nat, vb: nat, sum: nat, p: nat)
    requires sum + carry * p == va + vb
    ensures sum + (carry + x + y) * p == (va + x * p) + (vb + y * p)
  {
    Distribute(carry, x, p);
    Distribute(carry + x, y, p);
  }

  lemma MulTerms(lo: nat, hi: nat, carry: nat, b: nat, x: nat, va: nat, sum: nat, p: nat)
    requires lo + hi * BASE == carry + b * x && sum + carry * p == b * va
    ensures sum + lo * p + hi * (BASE * p) == b * (va + x * p)
  {
    Distribute(lo, hi * BASE, p);
    Associate(hi, BASE, p);
    Distribute(carry, b * x, p);
    Associate(b, x, p);
    Distribute(va, x * p, b);
  }

  // x - 1 in 32 bits.
  function OneLess(x: uint32): (r: uint32) {
    if x == 0 then BASE - 1 else x - 1
  }

  // A borrow from limb i: s becomes t.
  lemma BorrowStep(before: seq<uint32>, s: seq<uint32>, t: seq<uint32>, i: nat, carry: int)
    requires i < |before| == |s| == |t| && forall k :: 0 <= k < i ==> t[k] == s[k]
    requires t[i] == OneLess(before[i]) && carry == if before[i] == 0 then -1 else 0
    requires Val(s, i) - Pow(i) == Val(before, i) - 1
    ensures Val(t, i + 1) + carry * Pow(i + 1) == Val(before, i + 1) - 1
  {
    ValFrame(s, t, i);
    if before[i] == 0 {
      Distribute(BASE, -1, Pow(i));
    } else {
      Distribute(before[i], -1, Pow(i));
    }
  }

  // One limb of a multiplication by a 32-bit number: s becomes t, and a carry goes on.
  lemma ScaleStep(s: seq<uint32>, t: seq<uint32>, b: uint32, va: seq<uint32>, i: nat, carry: nat, carry': nat)
    requires i < |s| == |t| == |va| && forall k :: 0 <= k < i ==> t[k] == s[k]
    requires t[i] + carry' * BASE == carry + b * va[i]
    requires Val(s, i) + carry * Pow(i) == b * Val(va, i)
    ensures Val(t, i + 1) + carry' * Pow(i + 1) == b * Val(va, i + 1)
  {
    ValFrame(s, t, i);
    MulTerms(t[i], carry', carry, b, va[i], Val(va, i), Val(s, i), Pow(i));
  }

  // What stays the same above limb i cancels out.
  lemma {:induction false} ValDifference(s: seq<uint32>, t: seq<uint32>, i: nat, n: nat)
    requires i <= n <= |s| == |t| && forall k :: i <= k < n ==> s[k] == t[k]
    ensures Val(t, n) - Val(t, i) == Val(s, n) - Val(s, i)
  {
    if i < n {
      ValDifference(s, t, i, n - 1);
    }
  }

  lemma SumAbsorbed(s: seq<uint32>, t: seq<uint32>, i: nat, delta: int)
    requires i < |s| == |t| && forall k :: i <= k < |s| ==> s[k] == t[k]
    requires Val(t, i) == Val(s, i) + delta
    ensures Val(t, |t|) == (Val(s, |s|) + delta) % Pow(|s|)
  {
    ValDifference(s, t, i, |s|);
    ValBound(t, |t|);
    DivisionIs(Val(s, |s|) + delta, Pow(|s|), 0, Val(t, |t|));
  }

  // A change of delta in the low i limbs, up to a carry out of them that the higher limbs absorb.
  lemma SumModulo(s: seq<uint32>, t: seq<uint32>, i: nat, delta: int, carry: int)
    requires 0 < i <= |s| == |t| && forall k :: i <= k < |s| ==> s[k] == t[k]
    requires Val(t, i) + carry * Pow(i) == Val(s, i) + delta
    requires i < |s| ==> carry == 0
    ensures Val(t, |t|) == (Val(s, |s|) + delta) % Pow(|s|)
  {
    if i < |s| {
      SumAbsorbed(s, t, i, delta);
    } else {
      ValBound(t, |t|);
      DivisionIs(Val(s, |s|) + delta, Pow(|s|), carry, Val(t, |t|));
    }
  }

  lemma {:induction false} ComplementVal(s: seq<uint32>, t: seq<uint32>, n: nat)
    requires n <= |s| == |t| && forall k :: 0 <= k < n ==> t[k] == BASE - 1 - s[k]
    ensures Val(t, n) == Pow(n) - 1 - Val(s, n)
  {
    if n > 0 {
      ComplementVal(s, t, n - 1);
      Distribute(s[n - 1], t[n - 1], Pow(n - 1));
      Distribute(BASE - 1, 1, Pow(n - 1));
    }
  }

  // Limb products and carries fit in 64 bits, and so does the carry they leave in 32.
  lemma Products(x: uint32, y: uint32, carry: uint32, sum: uint32)
    ensures carry + sum + x * y < 0x1_0000_0000_0000_0000
    ensures (carry + sum + x * y) / BASE < BASE
  {
    MulMonotone(x, BASE - 1, y);
    MulMonotone(y, BASE - 1, BASE - 1);
  }

  lemma Val64(s: seq<uint32>)
    requires |s| >= 2 && forall k :: 2 <= k < |s| ==> s[k] == 0
    ensures Val(s, |s|) == s[0] + BASE * s[1]
  {
    ValSplit(s, 2, |s| - 2);
    ValZero(s[2..], |s| - 2);
    assert Val(s, 2) == s[0] + BASE * s[1] by {
      assert Pow(1) == BASE;
      assert Val(s, 1) == s[0];
    }
  }

  lemma Low64(s: seq<uint32>)
    requires |s| >= 2
    ensures s[0] + BASE * s[1] == Val(s, |s|) % 0x1_0000_0000_0000_0000
  {
    ValSplit(s, 2, |s| - 2);
    Val64(s[..2]);
    ValFrame(s, s[..2], 2);
    assert Pow(2) == 0x1_0000_0000_0000_0000 by {
      assert Pow(1) == BASE;
    }
    DivisionIs(Val(s, |s|), Pow(2), Val(s[2..], |s| - 2), s[0] + BASE * s[1]);
  }

  lemma AtLeast64(s: seq<uint32>, i: nat)
    requires 2 <= i < |s| && s[i] != 0
    ensures Val(s, |s|) >= 0x1_0000_0000_0000_0000
  {
    ValSplit(s, 2, |s| - 2);
    ValZero(s[2..], |s| - 2);
    assert s[2..][i - 2] != 0;
    assert Pow(2) == 0x1_0000_0000_0000_0000 by {
      assert Pow(1) == BASE;
    }
    MulMonotone(1, Val(s[2..], |s| - 2), Pow(2));
  }

  lemma RowTerms(lo: nat, hi: nat, carry: nat, was: nat, x: nat, y: nat, vb: nat, pi: nat, pj: nat)
    requires lo + hi * BASE == carry + was + x * y
    ensures lo * (pi * pj) + hi * (BASE * (pi * pj)) ==
      carry * (pi * pj) + was * (pi * pj) + x * (vb + y * pi) * pj - x * vb * pj
  {
    Distribute(lo, hi * BASE, pi * pj);
    Associate(hi, BASE, pi * pj);
    Distribute(carry, was, pi * pj);
    Distribute(carry + was, x * y, pi * pj);
    Distribute(vb, y * pi, x);
    Distribute(x * vb, x * (y * pi), pj);
    Associate(x, y, pi);
    Associate(x * y, pi, pj);
  }

  // One limb of a row of schoolbook multiplication: s becomes t, and a carry goes on.
  lemma RowStep(before: seq<uint32>, s: seq<uint32>, t: seq<uint32>, x: uint32, vb: seq<uint32>, i: nat, j: nat,
                carry: nat, carry': nat)
    requires i + j < |before| == |s| == |t| && i < |vb|
    requires forall k :: 0 <= k < i + j ==> t[k] == s[k]
    requires t[i + j] + carry' * BASE == carry + before[i + j] + x * vb[i]
    requires Val(s, i + j) + carry * Pow(i + j) == Val(before, i + j) + x * Val(vb, i) * Pow(j)
    ensures Val(t, i + j + 1) + carry' * Pow(i + j + 1) == Val(before, i + j + 1) + x * Val(vb, i + 1) * Pow(j)
  {
    PowAdds(i, j);
    ValFrame(s, t, i + j);
    RowTerms(t[i + j], carry', carry, before[i + j], x, vb[i], Val(vb, i), Pow(i), Pow(j));
  }

  lemma ColumnTerms(sum: nat, sum': nat, q: nat, dropped: nat, x: nat, va: nat, low: nat, top: nat, pj: nat, pr: nat)
    requires sum' + dropped * (pj * pr) == sum + x * low * pj
    requires sum + q * (pj * pr) == va * (low + pr * top)
    ensures sum' + (q + dropped + x * top) * (pj * pr) == (va + x * pj) * (low + pr * top)
  {
    var m := pj * pr;
    Distribute(q, dropped, m);
    Distribute(q + dropped, x * top, m);
    Distribute(va, x * pj, low + pr * top);
    Distribute(low, pr * top, x * pj);
    assert (x * pj) * low == x * low * pj;
    assert (x * pj) * (pr * top) == (x * top) * m;
  }

  // One row added: what the whole product has lost to truncation so far, in multiples of the modulus.
  lemma ColumnStep(sum: nat, sum': nat, q: nat, dropped: nat, va: seq<uint32>, vb: seq<uint32>, j: nat, n: nat)
    returns (q': nat)
    requires j < n == |va| == |vb|
    requires sum' + dropped * Pow(n) == sum + va[j] * Val(vb, n - j) * Pow(j)
    requires sum + q * Pow(n) == Val(va, j) * Val(vb, n)
    ensures sum' + q' * Pow(n) == Val(va, j + 1) * Val(vb, n)
  {
    var top := Val(vb[n - j..], j);
    q' := q + dropped + va[j] * top;
    ValSplit(vb, n - j, j);
    PowAdds(j, n - j);
    ColumnTerms(sum, sum', q, dropped, va[j], Val(va, j), Val(vb, n - j), top, Pow(j), Pow(n - j));
  }
}
