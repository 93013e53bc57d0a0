/** Numbers as lists of digits, most significant first, in any base. */
module Radix {
  import opened Arithmetic

  function Exp(b: nat, n: nat): (r: nat)
    ensures b > 0 ==> r > 0
  {
    if n == 0 then 1 else b * Exp(b, n - 1)
  }

  function Num(s: seq<nat>, b: nat): (r: nat) {
    if s == [] then 0 else Num(s[..|s| - 1], b) * b + s[|s| - 1]
  }

  ghost predicate AreDigits(s: seq<nat>, b: nat) {
    forall i :: 0 <= i < |s| ==> s[i] < b
  }

  // The digits of a number, without leading zeros.
  function Digits(n: nat, b: nat): (r: seq<nat>)
    requires b >= 2
  {
    if n == 0 then [] else
      QuotientShrinks(n, b);
      Digits(n / b, b) + [n % b]
  }

  lemma QuotientShrinks(n: nat, b: nat)
    requires n > 0 && b >= 2
    ensures n / b < n
  {}

  function Strip(s: seq<nat>): (r: seq<nat>) {
    if s != [] && s[0] == 0 then Strip(s[1..]) else s
  }

  /* ---- Powers ---- */

  function Times(a: nat, b: nat): (r: nat) {
    a * b
  }

  lemma {:induction false} ExpAdds(b: nat, m: nat, n: nat)
    ensures Exp(b, m + n) == Exp(b, m) * Exp(b, n)
  {
    if m > 0 {
      ExpAdds(b, m - 1, n);
      Associate(b, Exp(b, m - 1), Exp(b, n));
    }
  }

  lemma {:induction false} ExpTimes(b: nat, m: nat, n: nat)
    ensures Exp(Exp(b, m), n) == Exp(b, Times(m, n))
  {
    if n > 0 {
      ExpTimes(b, m, n - 1);
      ExpAdds(b, m, Times(m, n - 1));
      Distribute(1, n - 1, m);
    }
  }

  lemma {:induction false} ExpMonotone(x: nat, y: nat, n: nat)
    requires x <= y
    ensures Exp(x, n) <= Exp(y, n)
  {
    if n > 0 {
      ExpMonotone(x, y, n - 1);
      Product(x, y, Exp(x, n - 1), Exp(y, n - 1));
    }
  }

  lemma {:induction false} ExpGrows(b: nat, m: nat, n: nat)
    requires b >= 2 && m < n
    ensures Exp(b, m) < Exp(b, n)
  {
    assert Exp(b, n) >= 2 * Exp(b, n - 1) by {
      Product(2, b, Exp(b, n - 1), Exp(b, n - 1));
    }
    if m < n - 1 {
      ExpGrows(b, m, n - 1);
    }
  }

  lemma PowersAtMost(x: nat, y: nat, p: nat, q: nat, n: nat)
    requires Exp(x, p) <= Exp(y, q)
    ensures Exp(x, Times(p, n)) <= Exp(y, Times(q, n))
  {
    ExpMonotone(Exp(x, p), Exp(y, q), n);
    ExpTimes(x, p, n);
    ExpTimes(y, q, n);
  }

  // If p digits in base x never exceed q digits in base y, then n digits in base x fit in m digits
  // in base y whenever n : m is less than p : q.
  lemma DigitsFit(x: nat, y: nat, p: nat, q: nat, n: nat, m: nat)
    requires x >= 1 && y >= 2 && Exp(x, p) <= Exp(y, q) && Times(q, n) < Times(p, m)
    ensures Exp(x, n) < Exp(y, m)
  {
    if Exp(y, m) <= Exp(x, n) {
      var pn, qn, pm := Times(p, n), Times(q, n), Times(p, m);
      assert Exp(y, pm) <= Exp(x, pn) by {
        PowersAtMost(y, x, m, n, p);
        Commutes(n, p);
        Commutes(m, p);
      }
      assert Exp(x, pn) <= Exp(y, qn) by {
        PowersAtMost(x, y, p, q, n);
      }
      ExpGrows(y, qn, pm);
    }
  }

  lemma Commutes(a: nat, b: nat)
    ensures Times(a, b) == Times(b, a)
  {}

  /* ---- Digits and numbers ---- */

  lemma {:induction false} NumBound(s: seq<nat>, b: nat)
    requires AreDigits(s, b)
    ensures Num(s, b) < Exp(b, |s|)
  {
    if s != [] {
      NumBound(s[..|s| - 1], b);
      var n := Num(s[..|s| - 1], b);
      assert (n + 1) * b <= Exp(b, |s| - 1) * b by {
        Product(n + 1, Exp(b, |s| - 1), b, b);
      }
      assert (n + 1) * b == n * b + b;
    }
  }

  lemma {:induction false} NumOfDigits(n: nat, b: nat)
    requires b >= 2
    ensures Num(Digits(n, b), b) == n && AreDigits(Digits(n, b), b)
    ensures n > 0 ==> Digits(n, b) != [] && Digits(n, b)[0] != 0
  {
    if n > 0 {
      var q, r := n / b, n % b;
      QuotientShrinks(n, b);
      NumOfDigits(q, b);
      assert (Digits(q, b) + [r])[..|Digits(q, b)|] == Digits(q, b);
      Division(n, b);
    }
  }

  lemma {:induction false} DigitsOfNum(s: seq<nat>, b: nat)
    requires b >= 2 && AreDigits(s, b) && (s != [] ==> s[0] != 0)
    ensures Digits(Num(s, b), b) == s
    ensures s != [] ==> Num(s, b) > 0
  {
    if s != [] {
      var init, last := s[..|s| - 1], s[|s| - 1];
      DigitsOfNum(init, b);
      NumIsPositive(s, b, init, last);
      DivisionIs(Num(s, b), b, Num(init, b), last);
      assert s == init + [last];
    }
  }

  lemma NumIsPositive(s: seq<nat>, b: nat, init: seq<nat>, last: nat)
    requires b >= 2 && s != [] && init == s[..|s| - 1] && last == s[|s| - 1] && s[0] != 0
    requires init != [] ==> Num(init, b) > 0
    ensures Num(s, b) == Num(init, b) * b + last > 0
  {
    if init == [] {
      assert last == s[0];
    } else {
      Product(1, Num(init, b), 1, b);
    }
  }

  lemma PrefixTerms(first: nat, p: nat, middle: nat, b: nat, last: nat)
    ensures (first * p + middle) * b + last == first * (b * p) + (middle * b + last)
  {
    Distribute(first * p, middle, b);
    Associate(first, p, b);
  }

  lemma {:induction false} NumOfPrefixed(s: seq<nat>, b: nat)
    requires s != []
    ensures Num(s, b) == s[0] * Exp(b, |s| - 1) + Num(s[1..], b)
  {
    if |s| == 1 {
      assert s[..0] == [] && s[1..] == [];
    } else {
      var init, rest := s[..|s| - 1], s[1..];
      NumOfPrefixed(init, b);
      assert rest[..|rest| - 1] == init[1..];
      PrefixTerms(s[0], Exp(b, |s| - 2), Num(init[1..], b), b, s[|s| - 1]);
    }
  }

  // Leading zeros change neither the number nor its digits.
  lemma {:induction false} StripIsDigits(s: seq<nat>, b: nat)
    requires b >= 2 && AreDigits(s, b)
    ensures Strip(s) == Digits(Num(s, b), b)
  {
    if s != [] && s[0] == 0 {
      NumOfPrefixed(s, b);
      StripIsDigits(s[1..], b);
    } else {
      DigitsOfNum(s, b);
    }
  }

  /* ---- Buffers worked on from the end ---- */

  // The number the last i digits stand for.
  function Tail(s: seq<nat>, b: nat, i: nat): (r: nat)
    requires i <= |s|
  {
    if i == 0 then 0 else Tail(s, b, i - 1) + s[|s| - i] * Exp(b, i - 1)
  }

  lemma {:induction false} TailFrame(s: seq<nat>, t: seq<nat>, b: nat, i: nat)
    requires i <= |s| == |t| && forall k :: |s| - i <= k < |s| ==> s[k] == t[k]
    ensures Tail(s, b, i) == Tail(t, b, i)
  {
    if i > 0 {
      TailFrame(s, t, b, i - 1);
    }
  }

  lemma {:induction false} TailOfRest(s: seq<nat>, b: nat, i: nat)
    requires s != [] && i < |s|
    ensures Tail(s[1..], b, i) == Tail(s, b, i)
  {
    if i > 0 {
      TailOfRest(s, b, i - 1);
    }
  }

  lemma {:induction false} TailIsNum(s: seq<nat>, b: nat)
    ensures Tail(s, b, |s|) == Num(s, b)
  {
    if s != [] {
      TailIsNum(s[1..], b);
      TailOfRest(s, b, |s| - 1);
      NumOfPrefixed(s, b);
    }
  }

  lemma {:induction false} TailOfZeros(s: seq<nat>, b: nat, i: nat, j: nat)
    requires i <= j <= |s| && forall k :: |s| - j <= k < |s| - i ==> s[k] == 0
    ensures Tail(s, b, j) == Tail(s, b, i)
  {
    if i < j {
      TailOfZeros(s, b, i, j - 1);
    }
  }

  // One position of a carry loop that multiplies a buffer by m: s becomes t.
  lemma CarryStep(s: seq<nat>, t: seq<nat>, was: seq<nat>, b: nat, m: nat, d: nat, i: nat, carry: nat)
    requires b > 0 && i < |s| == |t| == |was| && forall k :: |s| - i <= k < |s| ==> s[k] == t[k]
    requires t[|s| - 1 - i] == (carry + m * was[|s| - 1 - i]) % b
    requires Tail(s, b, i) + carry * Exp(b, i) == m * Tail(was, b, i) + d
    ensures Tail(t, b, i + 1) + (carry + m * was[|s| - 1 - i]) / b * Exp(b, i + 1) == m * Tail(was, b, i + 1) + d
  {
    TailFrame(s, t, b, i);
    var p, x := Exp(b, i), was[|s| - 1 - i];
    var n := carry + m * x;
    CarryTerms(n % b, n / b, b, p, carry, m, x, Tail(was, b, i));
  }

  lemma CarryTerms(lo: nat, hi: nat, b: nat, p: nat, carry: nat, m: nat, x: nat, v: nat)
    requires lo + hi * b == carry + m * x
    ensures lo * p + hi * (b * p) == carry * p + m * (v + x * p) - m * v
  {
    Associate(hi, b, p);
    Distribute(lo, hi * b, p);
    Distribute(carry, m * x, p);
    Distribute(v, x * p, m);
    Associate(m, x, p);
  }

  // Nothing is left to carry out of a buffer that is long enough.
  lemma NoCarryLeft(s: seq<nat>, b: nat, carry: nat, total: nat)
    requires b > 0 && Tail(s, b, |s|) + carry * Exp(b, |s|) == total < Exp(b, |s|)
    ensures carry == 0
  {
    if carry > 0 {
      Product(1, carry, Exp(b, |s|), Exp(b, |s|));
    }
  }
}
