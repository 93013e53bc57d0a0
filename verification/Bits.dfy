/** Bitwise operators of unsigned machine words, on naturals. */
module Bits {

  /* ---- Shifts ---- */

  // x << h and x >> h.
  function Shl(x: nat, h: nat): (r: nat)
    decreases h
  {
    if h == 0 then x else Shl(2 * x, h - 1)
  }

  function Shr(x: nat, h: nat): (r: nat) {
    if h == 0 then x else Shr(x / 2, h - 1)
  }

  lemma {:induction false} ShlAdds(x: nat, y: nat, h: nat)
    ensures Shl(x + y, h) == Shl(x, h) + Shl(y, h)
    decreases h
  {
    if h > 0 {
      ShlAdds(2 * x, 2 * y, h - 1);
    }
  }

  lemma DoubleFirst(x: nat, p: nat)
    ensures 2 * x * p == x * (2 * p)
  {}

  lemma {:induction false} ShlTimes(x: nat, h: nat)
    ensures Shl(x, h) == x * Shl(1, h)
    decreases h
  {
    if h > 0 {
      ShlTimes(2 * x, h - 1);
      ShlAdds(1, 1, h - 1);
      DoubleFirst(x, Shl(1, h - 1));
    }
  }

  lemma {:induction false} ShlTwice(x: nat, a: nat, b: nat)
    ensures Shl(Shl(x, a), b) == Shl(x, a + b)
    decreases a
  {
    if a > 0 {
      ShlTwice(2 * x, a - 1, b);
    }
  }

  lemma {:induction false} ShlMonotone(x: nat, y: nat, h: nat)
    requires x <= y
    ensures Shl(x, h) <= Shl(y, h)
    decreases h
  {
    if h > 0 {
      ShlMonotone(2 * x, 2 * y, h - 1);
    }
  }

  lemma {:induction false} ShrIs(x: nat, h: nat, q: nat)
    requires Shl(q, h) <= x < Shl(q + 1, h)
    ensures Shr(x, h) == q
  {
    ShrFloors(x, h, q);
    if q > 0 {
      ShrFloors(x, h, q - 1);
    }
  }

  // x >> h drops the low h bits and nothing else.
  lemma {:induction false} ShrDrops(x: nat, h: nat)
    ensures Shl(Shr(x, h), h) <= x < Shl(Shr(x, h), h) + Shl(1, h)
  {
    ShrFloors(x, h, Shr(x, h));
    ShlAdds(Shr(x, h), 1, h);
    if Shr(x, h) > 0 {
      ShrFloors(x, h, Shr(x, h) - 1);
    } else {
      ShlTimes(0, h);
    }
  }

  // The powers of two that sizes of bytes, words and limbs rest on.
  lemma Powers()
    ensures Shl(1, 4) == 16 && Shl(1, 8) == 0x100 && Shl(1, 11) == 0x800 && Shl(1, 16) == 0x1_0000
    ensures Shl(1, 32) == 0x1_0000_0000
  {
    ShlTwice(1, 2, 2);
    assert Shl(1, 2) == 4 && Shl(4, 2) == 16;
    ShlTwice(1, 4, 4);
    ShlTimes(16, 4);
    ShlTwice(1, 8, 3);
    ShlTimes(256, 3);
    assert Shl(1, 3) == 8;
    ShlTwice(1, 8, 8);
    ShlTimes(256, 8);
    ShlTwice(1, 16, 16);
    ShlTimes(0x1_0000, 16);
  }

  lemma {:induction false} ShlGrows(h: nat)
    ensures Shl(1, h) > h
  {
    if h > 0 {
      ShlGrows(h - 1);
      ShlAdds(1, 1, h - 1);
    }
  }

  lemma ShlExponent(a: nat, b: nat)
    requires a <= b
    ensures Shl(1, a) <= Shl(1, b)
  {
    ShlTwice(1, b - a, a);
    ShlGrows(b - a);
    ShlMonotone(1, Shl(1, b - a), a);
  }

  lemma {:induction false} ShrFloors(x: nat, h: nat, pos: nat)
    ensures pos < Shr(x, h) <==> Shl(pos + 1, h) <= x
  {
    if h > 0 {
      ShrFloors(x / 2, h - 1, pos);
      ShlAdds(pos + 1, pos + 1, h - 1);
    }
  }

  /* ---- And, or ---- */

  // a & b
  function And(a: nat, b: nat): (r: nat) {
    if a == 0 || b == 0 then 0 else 2 * And(a / 2, b / 2) + if a % 2 == 1 && b % 2 == 1 then 1 else 0
  }

  // a | b
  function Or(a: nat, b: nat): (r: nat) {
    if a == 0 then b else if b == 0 then a
    else 2 * Or(a / 2, b / 2) + if a % 2 == 1 || b % 2 == 1 then 1 else 0
  }

  lemma {:induction false} AndSelf(a: nat)
    ensures And(a, a) == a
  {
    if a > 0 {
      AndSelf(a / 2);
    }
  }

  function LowestBit(n: nat): (r: nat)
    requires n > 0
    ensures 1 <= r <= n
  {
    if n % 2 == 1 then 1 else 2 * LowestBit(n / 2)
  }

  // n & (n - 1) turns the lowest one bit of n into a zero.
  lemma {:induction false} AndPredecessor(n: nat)
    requires n > 0
    ensures And(n, n - 1) == n - LowestBit(n)
  {
    if n % 2 == 1 {
      if n > 1 {
        assert (n - 1) / 2 == n / 2;
        AndSelf(n / 2);
      }
    } else {
      assert (n - 1) / 2 == n / 2 - 1;
      AndPredecessor(n / 2);
    }
  }

  // A bit-or of a number with s low zero bits and one of at most s bits is their sum.
  lemma {:induction false} OrIsSum(x: nat, y: nat, s: nat)
    requires y < Shl(1, s)
    ensures Or(Shl(x, s), y) == Shl(x, s) + y
  {
    if s > 0 {
      OrIsSum(x, y / 2, s - 1) by {
        ShlAdds(1, 1, s - 1);
      }
      ShlAdds(x, x, s - 1);
    }
  }

  lemma {:induction false} OrCommutes(x: nat, y: nat)
    ensures Or(x, y) == Or(y, x)
  {
    if x > 0 && y > 0 {
      OrCommutes(x / 2, y / 2);
    }
  }

  // The top bit of a number tested with a mask.
  lemma {:induction false} AndTopBit(x: nat, b: nat)
    requires x < Shl(1, b + 1)
    ensures And(x, Shl(1, b)) != 0 <==> Shl(1, b) <= x
  {
    ShlAdds(1, 1, b);
    if b > 0 {
      ShlAdds(1, 1, b - 1);
      AndTopBit(x / 2, b - 1);
    }
  }

  /* ---- Single bits ---- */

  // a ^ b
  function Xor(a: nat, b: nat): (r: nat) {
    if a == 0 then b else if b == 0 then a
    else 2 * Xor(a / 2, b / 2) + if a % 2 != b % 2 then 1 else 0
  }

  // ~x in n bits.
  function Not(x: nat, n: nat): (r: nat)
    requires x < Shl(1, n)
  {
    Shl(1, n) - 1 - x
  }

  predicate Bit(x: nat, b: nat) {
    if b == 0 then x % 2 == 1 else Bit(x / 2, b - 1)
  }

  lemma {:induction false} ZeroBit(b: nat)
    ensures !Bit(0, b)
  {
    if b > 0 {
      ZeroBit(b - 1);
    }
  }

  lemma {:induction false} AndBit(x: nat, y: nat, b: nat)
    ensures Bit(And(x, y), b) == (Bit(x, b) && Bit(y, b))
  {
    if x == 0 || y == 0 {
      ZeroBit(b);
    } else if b > 0 {
      AndBit(x / 2, y / 2, b - 1);
    }
  }

  lemma {:induction false} OrBit(x: nat, y: nat, b: nat)
    ensures Bit(Or(x, y), b) == (Bit(x, b) || Bit(y, b))
  {
    if x == 0 || y == 0 {
      ZeroBit(b);
    } else if b > 0 {
      OrBit(x / 2, y / 2, b - 1);
    }
  }

  lemma {:induction false} XorBit(x: nat, y: nat, b: nat)
    ensures Bit(Xor(x, y), b) == (Bit(x, b) != Bit(y, b))
  {
    if x == 0 || y == 0 {
      ZeroBit(b);
    } else if b > 0 {
      XorBit(x / 2, y / 2, b - 1);
    }
  }

  lemma {:induction false} NotBit(x: nat, n: nat, b: nat)
    requires x < Shl(1, n) && b < n
    ensures Bit(Not(x, n), b) == !Bit(x, b)
  {
    ShlAdds(1, 1, n - 1);
    assert Not(x, n) / 2 == Not(x / 2, n - 1);
    if b > 0 {
      NotBit(x / 2, n - 1, b - 1);
    }
  }

  lemma {:induction false} OneBit(b: nat, c: nat)
    ensures Bit(Shl(1, b), c) == (b == c)
  {
    if b > 0 {
      ShlAdds(1, 1, b - 1);
      if c > 0 {
        OneBit(b - 1, c - 1);
      }
    } else if c > 0 {
      ZeroBit(c - 1);
    }
  }

  // Words of n bits stay words of n bits.
  lemma {:induction false} WordBounds(x: nat, y: nat, n: nat)
    requires x < Shl(1, n) && y < Shl(1, n)
    ensures And(x, y) < Shl(1, n) && Or(x, y) < Shl(1, n) && Xor(x, y) < Shl(1, n)
  {
    if n > 0 {
      ShlAdds(1, 1, n - 1);
      WordBounds(x / 2, y / 2, n - 1);
    }
  }

  // Setting a bit of a word of n bits.
  lemma OrFits(x: nat, one: nat, n: nat)
    requires x < Shl(1, n) && one < n
    ensures Or(x, Shl(1, one)) < Shl(1, n)
  {
    ShlExponent(one, n - 1);
    ShlAdds(1, 1, n - 1);
    ShlGrows(n - 1);
    WordBounds(x, Shl(1, one), n);
  }

  lemma OrOne(x: nat, one: nat, b: nat)
    ensures Bit(Or(x, Shl(1, one)), b) == (Bit(x, b) || b == one)
  {
    OrBit(x, Shl(1, one), b);
    OneBit(one, b);
  }

  // Testing a bit with a mask.
  lemma {:induction false} AndMask(x: nat, b: nat)
    ensures And(x, Shl(1, b)) != 0 <==> Bit(x, b)
  {
    ShlGrows(b);
    if x == 0 {
      ZeroBit(b);
    } else if b > 0 {
      ShlAdds(1, 1, b - 1);
      AndMask(x / 2, b - 1);
    }
  }

  lemma XorStep(a: nat, b: nat)
    ensures Xor(a, b) / 2 == Xor(a / 2, b / 2)
    ensures Xor(a, b) % 2 == if a % 2 != b % 2 then 1 else 0
  {
    var q := Xor(a / 2, b / 2);
    if a > 0 && b > 0 {
      assert Xor(a, b) == 2 * q + if a % 2 != b % 2 then 1 else 0;
    }
  }

  lemma {:induction false} XorTwice(a: nat, b: nat)
    ensures Xor(Xor(a, b), b) == a
  {
    if a > 0 || b > 0 {
      var x := Xor(a, b);
      var y := Xor(x, b);
      XorStep(a, b);
      XorStep(x, b);
      XorTwice(a / 2, b / 2);
      assert y == 2 * (y / 2) + y % 2;
    }
  }
}
