/** How far the skip pointers of the block index jump, and how few jumps reach any height. */
module SkipList {
  import opened Bits

  function InvertLowestOne(n: nat): (r: nat)
    ensures n > 0 ==> r < n
    ensures n == 0 ==> r == 0
  {
    if n > 0 then
      AndPredecessor(n);
      And(n, n - 1)
    else 0
  }

  // Which height the skip pointer of a block jumps back to.
  function GetSkipHeight(height: nat): (r: nat)
    ensures height > 0 ==> r < height
    ensures height == 0 ==> r == 0
  {
    if height < 2 then 0
    else if height % 2 == 1 then InvertLowestOne(InvertLowestOne(height - 1)) + 1
    else InvertLowestOne(height)
  }

  // Whether the walk from a height to a lower one follows the skip pointer there.
  predicate TakesSkip(walk: nat, height: nat)
    requires height < walk
  {
    var skip, skipPrev := GetSkipHeight(walk), GetSkipHeight(walk - 1);
    skip == height || (skip > height && !(skipPrev < skip - 2 && skipPrev >= height))
  }

  function NextHeight(walk: nat, height: nat): (r: nat)
    requires height < walk
    ensures height <= r < walk
  {
    if TakesSkip(walk, height) then GetSkipHeight(walk) else walk - 1
  }

  // The rounds of a walk along a branch whose skip pointers are all built.
  function Rounds(walk: nat, height: nat): (r: nat)
    requires height <= walk
    decreases walk
  {
    if walk == height then 0 else 1 + Rounds(NextHeight(walk, height), height)
  }

  lemma Round(walk: nat, height: nat, next: nat)
    requires height < walk && next == NextHeight(walk, height)
    ensures Rounds(walk, height) == 1 + Rounds(next, height)
  {}

  /* ---- Numbers by their lowest one bit ---- */

  lemma {:induction false} LowestBitOfShl(m: nat, z: nat)
    requires m > 0
    ensures Shl(m, z) > 0 && LowestBit(Shl(m, z)) == Shl(LowestBit(m), z)
    decreases z
  {
    if z > 0 {
      LowestBitOfShl(2 * m, z - 1);
    }
  }

  lemma LowestOfShl(m: nat, b: nat, z: nat)
    requires m == 2 * b + 1
    ensures Shl(m, z) > 0 && InvertLowestOne(Shl(m, z)) == Shl(m, z) - Shl(1, z) == Shl(b, z + 1)
  {
    ShlAdds(2 * b, 1, z);
    LowestBitOfShl(m, z);
    AndPredecessor(Shl(m, z));
  }

  // A positive multiple of 2^i has its lowest one bit at some z from i on.
  lemma {:induction false} LowestOne(p: nat, i: nat) returns (m: nat, b: nat, z: nat)
    requires p > 0
    ensures i <= z && m == 2 * b + 1 && Shl(m, z) == Shl(p, i)
    decreases p
  {
    if p % 2 == 1 {
      m, b, z := p, p / 2, i;
    } else {
      m, b, z := LowestOne(p / 2, i + 1);
    }
  }

  lemma BitsLeft(m: nat, z: nat, k: nat)
    requires m > 0 && Shl(m, z) < Shl(1, k)
    ensures z < k
  {
    ShlMonotone(1, m, z);
    if z >= k {
      ShlExponent(k, z);
    }
  }

  lemma Fits(m: nat, z: nat, k: nat)
    requires m > 0 && Shl(m, z) < Shl(1, k)
    ensures z < k && (z == k - 1 ==> m == 1)
  {
    BitsLeft(m, z, k);
    if z == k - 1 && m > 1 {
      ShlMonotone(2, m, z);
    }
  }

  lemma MultipleOf(p: nat, a: nat, x: nat) returns (r: nat)
    requires p > 0 && x <= a
    ensures r > 0 && Shl(r, x) == Shl(p, a)
  {
    r := Shl(p, a - x);
    ShlTwice(p, a - x, x);
    ShlMonotone(1, p, a - x);
    ShlGrows(a - x);
  }

  lemma EvenShl(q: nat, j: nat)
    requires j > 0
    ensures Shl(q, j) % 2 == 0
  {
    ShlAdds(q, q, j - 1);
  }

  lemma Aligned(q: nat, j: nat, a: nat, t: nat) returns (p: nat)
    requires q >= 1 && a < j && t == Shl(q, j)
    ensures p == Shl(q, j - a - 1) >= 1 && t == Shl(p, a + 1)
  {
    p := Shl(q, j - a - 1);
    ShlTwice(q, j - a - 1, a + 1);
    ShlMonotone(1, q, j - a - 1);
    ShlGrows(j - a - 1);
  }

  lemma Doubled(a: nat)
    ensures Shl(1, a + 1) == 2 * Shl(1, a) >= 2
  {
    ShlAdds(1, 1, a);
    ShlGrows(a);
  }

  // The multiples of powers of two just below a multiple of a higher one.
  lemma Below(q: nat, j: nat, a: nat, t: nat, o: nat) returns (p: nat)
    requires q >= 1 && a < j && t == Shl(q, j) && o == Shl(1, a)
    ensures p == Shl(q, j - a - 1) >= 1 && t >= 2 * o >= 2 && Shl(1, a + 1) == 2 * o && Shl(1, a + 2) == 4 * o
    ensures t - o == Shl(2 * p - 1, a) && t - 2 * o == Shl(p - 1, a + 1)
    ensures InvertLowestOne(t - o) == t - 2 * o
    ensures t % 2 == 0 && (a > 0 ==> o % 2 == 0)
  {
    p := Aligned(q, j, a, t);
    Doubled(a);
    Doubled(a + 1);
    ShlMonotone(1, p, a + 1);
    ShlAdds(2 * p - 1, 1, a);
    ShlAdds(p - 1, 1, a + 1);
    LowestOfShl(2 * p - 1, p - 1, a);
    EvenShl(q, j);
    if a > 0 {
      EvenShl(1, a);
    }
  }

  /* ---- Which pointer is followed ---- */

  lemma NextOfOdd(walk: nat, height: nat)
    requires height < walk && walk % 2 == 1 && walk >= 3
    ensures NextHeight(walk, height) == if GetSkipHeight(walk) >= height then GetSkipHeight(walk) else walk - 1
  {}

  lemma BeforeEight(p: nat, w: nat, x: nat)
    requires p > 0 && w == Shl(p, x) && x == 3
    ensures w >= 8 && w % 2 == 0 && InvertLowestOne(w) <= w - 8
    ensures InvertLowestOne(w - 2) == w - 4 && InvertLowestOne(w - 4) == w - 8
  {
    var m, b, z := LowestOne(p, x);
    LowestOfShl(m, b, z);
    ShlExponent(x, z);
    var two: nat, four: nat := Shl(1, 1), Shl(1, 2);
    assert two == 2 && four == 4;
    var _ := Below(p, x, 1, w, two);
    var _ := Below(p, x, 2, w, four);
  }

  lemma NextOfEight(p: nat, w: nat, x: nat, height: nat)
    requires p > 0 && w == Shl(p, x) && x == 3 && height < w
    ensures NextHeight(w, height) == if InvertLowestOne(w) >= height then InvertLowestOne(w) else w - 1
  {
    BeforeEight(p, w, x);
    assert GetSkipHeight(w - 1) == w - 7;
  }

  /* ---- The bound inside an aligned block ---- */

  // An aligned block of 2^j heights ends below t = Shl(q, j). A walk from its end goes through the heights
  // t - o + 1, where o = Shl(1, a) for an odd a; each skip there makes a larger by two, and c counts them.

  // The most rounds from the end of an aligned block of 2^j heights to a height in it.
  function Most(j: nat): (r: nat) {
    if j <= 1 then 0 else Most(j - 1) + (j - 1) / 2 + 2
  }

  lemma {:induction false} MostGrows(i: nat, j: nat)
    requires 1 <= i < j
    ensures Most(i) + i / 2 + 2 <= Most(j)
    ensures i + 1 < j ==> Most(i) + i / 2 + 3 <= Most(j)
  {
    if i < j - 1 {
      MostGrows(i, j - 1);
    }
  }

  lemma {:induction false} MostAtLeast(j: nat)
    ensures Most(j) >= 2 * (j - 1)
  {
    if j > 1 {
      MostAtLeast(j - 1);
    }
  }

  // One round less for the block that starts at 0.
  function Spared(q: int, j: nat): (r: nat) {
    if q == 1 && j >= 2 then 1 else 0
  }

  lemma Parity(t: nat, o: nat)
    requires t % 2 == 0 && o % 2 == 0 && o < t
    ensures (t - o) % 2 == 0 && (t - o + 1) % 2 == 1 && (t - o - 1) % 2 == 1
  {}

  // The skip pointer 2^a - 1 heights below the end of a block, for an odd a.
  lemma OddSkip(q: nat, j: nat, a: nat, t: nat, o: nat)
    requires q >= 1 && 1 <= a != 2 && a < j && t == Shl(q, j) && o == Shl(1, a)
    ensures t >= 2 * o && o >= 2 && (t - o + 1) % 2 == 1
    ensures a + 2 <= j ==> t >= 4 * o && Shl(1, a + 2) == 4 * o && GetSkipHeight(t - o + 1) == t - 4 * o + 1
    ensures a + 1 == j && q > 1 ==> GetSkipHeight(t - o + 1) <= t - 2 * o
    ensures a + 1 == j && q == 1 ==> GetSkipHeight(t - o + 1) == 1
  {
    var _ := Below(q, j, a, t, o);
    Parity(t, o);
    if a + 2 <= j {
      var _ := Below(q, j, a + 1, t, 2 * o);
    } else if q > 1 {
      ShlMonotone(1, q - 1, a + 1);
    }
  }

  // Which pointer is followed 2^a heights below the end of a block.
  lemma NextOfTwo(q: nat, j: nat, a: nat, t: nat, height: nat)
    requires q >= 1 && a == 1 && a < j && t == Shl(q, j) && t >= 4
    requires t - Shl(1, j) < height < t - 2 && (a + 2 <= j ==> t - 7 < height)
    ensures NextHeight(t - 2, height) == if t - 4 >= height then t - 4 else t - 3
  {
    var o := Shl(1, a);
    var _ := Below(q, j, a, t, o);
    Parity(t, o);
    assert GetSkipHeight(t - 2) == t - 4;
    if j >= 3 {
      var _ := Below(q, j, a + 1, t, 2 * o);
      assert InvertLowestOne(t - 4) == t - 8;
      assert GetSkipHeight(t - 3) == InvertLowestOne(t - 8) + 1 <= t - 7;
    }
  }

  lemma NextOfEven(q: nat, j: nat, a: nat, t: nat, o: nat, height: nat)
    requires q >= 1 && 1 <= a != 2 && a < j && t == Shl(q, j) && o == Shl(1, a) && 2 * o <= t
    requires t - Shl(1, j) < height < t - o && (a + 2 <= j ==> t - 4 * o + 1 < height)
    ensures NextHeight(t - o, height) == if t - 2 * o >= height then t - 2 * o else t - o - 1
  {
    if a == 1 {
      NextOfTwo(q, j, a, t, height);
    } else {
      var p := Below(q, j, a, t, o);
      var r := MultipleOf(2 * p - 1, a, 3);
      NextOfEight(r, t - o, 3, height);
    }
  }

  // What is left to spend after two or three rounds that lead to the end of a block inside the block.
  lemma LeftAfterTwo(q: nat, j: nat, c: nat, a: nat, p: nat)
    requires q >= 1 && a < j && (q > 1 || j > 2) && a == 2 * c + 1 && p == Shl(q, j - a - 1)
    ensures Most(a) - Spared(2 * p - 1, a) + 2 + c + Spared(q, j) <= Most(j)
  {
    MostGrows(a, j);
  }

  lemma LeftAfterThree(q: nat, j: nat, c: nat, a: nat, p: nat)
    requires q >= 1 && 1 <= a && a + 2 <= j && a == 2 * c + 1 && p == Shl(q, j - a - 1)
    ensures Most(a + 1) - Spared(p - 1, a + 1) + 3 + c + Spared(q, j) <= Most(j)
  {
    MostGrows(a + 1, j);
    if j == a + 2 {
      assert p == 2 * q;
    }
  }

  // The first round from there.
  function AfterOdd(q: nat, j: nat, a: nat, t: nat, o: nat, height: nat): (r: int) {
    if a + 2 <= j && height <= t - 4 * o + 1 then t - 4 * o + 1
    else if a + 1 == j && q == 1 && height == 1 then 1
    else t - o
  }

  lemma RoundFromOdd(q: nat, j: nat, a: nat, t: nat, o: nat, walk: nat, height: nat, next: nat)
    requires q >= 1 && 1 <= a != 2 && a < j && t == Shl(q, j) && o == Shl(1, a) && o <= t
    requires t - Shl(1, j) < height < walk == t - o + 1 && next == AfterOdd(q, j, a, t, o, height)
    ensures height <= next && Rounds(walk, height) == 1 + Rounds(next, height)
    ensures t >= 2 * o && (a + 2 <= j ==> t >= 4 * o && Shl(1, a + 2) == 4 * o) && (a + 1 == j ==> Shl(1, j) == 2 * o)
    ensures next == t - o && a + 1 == j && q == 1 ==> height > 1
  {
    OddSkip(q, j, a, t, o);
    var _ := Below(q, j, a, t, o);
    NextOfOdd(walk, height);
    Round(walk, height, next);
  }

  lemma RoundFromEven(q: nat, j: nat, a: nat, t: nat, o: nat, walk: nat, height: nat, next: nat)
    requires q >= 1 && 1 <= a != 2 && a < j && t == Shl(q, j) && o == Shl(1, a) && 2 * o <= t
    requires t - Shl(1, j) < height < walk == t - o && (a + 2 <= j ==> t - 4 * o + 1 < height)
    requires next == if t - 2 * o >= height then t - 2 * o else t - o - 1
    ensures Rounds(walk, height) == 1 + Rounds(next, height)
  {
    NextOfEven(q, j, a, t, o, height);
    Round(walk, height, next);
  }

  lemma EndOfNext(q: nat, j: nat, a: nat, t: nat, o: nat) returns (p: nat)
    requires q >= 1 && 1 <= a && a + 2 <= j && t == Shl(q, j) && o == Shl(1, a)
    ensures p == Shl(q, j - a - 1) >= 2 && 4 * o <= t && t - 2 * o == Shl(p - 1, a + 1)
    ensures Shl(1, a + 1) == 2 * o && Shl(1, a + 2) == 4 * o && t % 2 == 0 && o % 2 == 0 && o >= 2
  {
    p := Below(q, j, a, t, o);
    var _ := Below(q, j, a + 1, t, 2 * o);
    ShlMonotone(1, q, j - a - 1);
    ShlExponent(1, j - a - 1);
  }

  // The round after that skip.
  lemma RoundFromNext(q: nat, j: nat, a: nat, t: nat, o: nat, walk: nat, height: nat)
    requires q >= 1 && 1 <= a != 2 && a + 2 <= j && t == Shl(q, j) && o == Shl(1, a) && 4 * o <= t
    requires t - 4 * o + 1 < height < walk == t - 2 * o
    ensures Rounds(walk, height) == 1 + Rounds(walk - 1, height)
  {
    var _ := Below(q, j, a, t, o);
    var _ := Below(q, j, a + 1, t, 2 * o);
    Parity(t, 2 * o);
    assert GetSkipHeight(walk) == t - 4 * o;
    Round(walk, height, walk - 1);
  }

  lemma RoundsFromEven(q: nat, j: nat, a: nat, t: nat, o: nat, walk: nat, height: nat, next: nat)
    requires q >= 1 && 1 <= a != 2 && a + 2 <= j && t == Shl(q, j) && o == Shl(1, a) && 4 * o <= t
    requires t - Shl(1, j) < height && t - 4 * o + 1 < height <= next == t - 2 * o - 1 && walk == t - o
    ensures Rounds(walk, height) == 2 + Rounds(next, height)
  {
    var end := t - 2 * o;
    RoundFromNext(q, j, a, t, o, end, height);
    RoundFromEven(q, j, a, t, o, walk, height, end);
  }

  // From the end of an aligned block, c skips later.
  lemma {:induction false} OddRounds(q: nat, j: nat, c: nat, a: nat, t: nat, o: nat, walk: nat, height: nat)
    returns (r: nat)
    requires q >= 1 && a == 2 * c + 1 && a <= j && t == Shl(q, j) && o == Shl(1, a) && o <= t
    requires t - Shl(1, j) < height <= walk == t - o + 1
    ensures r == Rounds(walk, height) && r + c + Spared(q, j) <= Most(j)
    decreases j, j - a, 1
  {
    MostAtLeast(j);
    if height == walk {
      r := 0;
    } else {
      assert a < j;
      var next := AfterOdd(q, j, a, t, o, height);
      RoundFromOdd(q, j, a, t, o, walk, height, next);
      if a + 2 <= j && height <= t - 4 * o + 1 {
        r := OddRounds(q, j, c + 1, a + 2, t, 4 * o, next, height);
      } else if next == t - o {
        r := OddWalk(q, j, c, a, t, o, next, height);
      } else {
        r := 0;
      }
      r := r + 1;
    }
  }

  lemma NotTheFirstFour(q: nat, j: nat, a: nat, t: nat, o: nat, height: nat)
    requires q >= 1 && 1 <= a < j && t == Shl(q, j) && o == Shl(1, a) && t - 2 * o < height < t - o
    requires a + 1 == j && q == 1 ==> height > 1
    ensures q > 1 || j > 2
  {}

  // The same where the skip pointer leads too far.
  lemma {:induction false} OddWalk(q: nat, j: nat, c: nat, a: nat, t: nat, o: nat, walk: nat, height: nat)
    returns (r: nat)
    requires q >= 1 && a == 2 * c + 1 && a < j && t == Shl(q, j) && o == Shl(1, a) && 2 * o <= t
    requires t - Shl(1, j) < height <= walk == t - o && (a + 2 <= j ==> 4 * o <= t && t - 4 * o + 1 < height)
    requires a + 1 == j && q == 1 ==> height > 1
    ensures r == Rounds(walk, height) && r + 1 + c + Spared(q, j) <= Most(j)
    decreases j, j - a, 0
  {
    MostAtLeast(j);
    if height == walk {
      r := 0;
    } else {
      var p := Below(q, j, a, t, o);
      var next := if t - 2 * o >= height then t - 2 * o else t - o - 1;
      if t - 2 * o < height {
        NotTheFirstFour(q, j, a, t, o, height);
        LeftAfterTwo(q, j, c, a, p);
        r := OddRounds(2 * p - 1, a, 0, 1, walk, 2, next, height);
      } else {
        r := EvenWalk(q, j, c, a, t, o, next, height);
      }
      RoundFromEven(q, j, a, t, o, walk, height, next);
      r := r + 1;
    }
  }

  // The same after a skip to the next block.
  lemma {:induction false} EvenWalk(q: nat, j: nat, c: nat, a: nat, t: nat, o: nat, walk: nat, height: nat)
    returns (r: nat)
    requires q >= 1 && a == 2 * c + 1 && a + 2 <= j && t == Shl(q, j) && o == Shl(1, a) && 4 * o <= t
    requires t - 4 * o + 1 < height <= walk == t - 2 * o
    ensures r == Rounds(walk, height) && r + 2 + c + Spared(q, j) <= Most(j)
    decreases j, 0, 0
  {
    MostAtLeast(j);
    if height == walk {
      r := 0;
    } else {
      var p := EndOfNext(q, j, a, t, o);
      LeftAfterThree(q, j, c, a, p);
      r := OddRounds(p - 1, a + 1, 0, 1, walk, 2, walk - 1, height);
      RoundFromNext(q, j, a, t, o, walk, height);
      r := r + 1;
    }
  }

  /* ---- From any height to the end of a block ---- */

  lemma StepDown(walk: nat, height: nat)
    requires walk % 2 == 0 && InvertLowestOne(walk) < height < walk
    ensures Rounds(walk, height) == 1 + Rounds(walk - 1, height)
  {
    Round(walk, height, walk - 1);
  }

  lemma LeftAfterOne(m: nat, z: nat, k: nat)
    requires 1 <= z < k && k >= 3 && (z == k - 1 ==> m == 1)
    ensures Most(z) - Spared(m, z) + 1 <= Most(k - 1)
  {
    if z < k - 1 {
      MostGrows(z, k - 1);
    }
  }

  // Where the skip pointer leads too far: back into the block that ends here.
  lemma StepBack(m: nat, b: nat, z: nat, k: nat, walk: nat, height: nat) returns (r: nat)
    requires m == 2 * b + 1 && 1 <= z && k >= 3 && walk == Shl(m, z) < Shl(1, k)
    requires InvertLowestOne(walk) < height < walk
    ensures r == Rounds(walk, height) && r <= Most(k - 1)
  {
    LowestOfShl(m, b, z);
    EvenShl(m, z);
    Fits(m, z, k);
    LeftAfterOne(m, z, k);
    r := OddRounds(m, z, 0, 1, walk, 2, walk - 1, height);
    StepDown(walk, height);
    r := r + 1;
  }

  // Down by the even numbers from a multiple of eight.
  lemma {:induction false} EvenRounds(p: nat, i: nat, k: nat, walk: nat, height: nat) returns (r: nat)
    requires p > 0 && 3 <= i < k && height <= walk == Shl(p, i) < Shl(1, k)
    ensures r == Rounds(walk, height) && r <= k - 1 - i + Most(k - 1)
    decreases walk
  {
    MostAtLeast(k - 1);
    if height == walk {
      r := 0;
    } else {
      var m, b, z := LowestOne(p, i);
      LowestOfShl(m, b, z);
      Fits(m, z, k);
      var next := InvertLowestOne(walk);
      var p8 := MultipleOf(m, z, 3);
      NextOfEight(p8, walk, 3, height);
      if next < height {
        r := StepBack(m, b, z, k, walk, height);
      } else if b == 0 {
        ShlAdds(0, 0, z + 1);
        Round(walk, height, next);
        r := 1;
      } else {
        BitsLeft(b, z + 1, k);
        r := EvenRounds(b, z + 1, k, next, height);
        Round(walk, height, next);
        r := r + 1;
      }
    }
  }

  // What is below the lowest one bit of an even number.
  lemma Lower(m: nat, b: nat, z: nat, n: nat)
    requires m == 2 * b + 1 && z >= 1 && n == Shl(m, z)
    ensures n % 2 == 0 && n >= 2 && InvertLowestOne(n) == Shl(b, z + 1) <= n - 2
    ensures m == 1 ==> InvertLowestOne(n) == 0
    ensures z == 1 ==> InvertLowestOne(n) == n - 2
    ensures z == 2 ==> n >= 4 && InvertLowestOne(n) == n - 4 == InvertLowestOne(n - 2)
  {
    LowestOfShl(m, b, z);
    EvenShl(m, z);
    ShlExponent(1, z);
    ShlAdds(0, 0, z + 1);
    if z == 2 {
      var _ := Below(m, z, 1, n, Shl(1, 1));
    }
  }

  lemma SkipOfOdd(n: nat)
    requires n % 2 == 0 && n >= 2
    ensures GetSkipHeight(n + 1) == InvertLowestOne(InvertLowestOne(n)) + 1
  {}

  lemma SkipBeforeLow(m: nat, b: nat, z: nat, n: nat)
    requires m == 2 * b + 1 && 1 <= z <= 2 && n == Shl(m, z) && n >= 4
    ensures GetSkipHeight(n - 1) <= InvertLowestOne(InvertLowestOne(n)) + 1
  {
    Lower(m, b, z, n);
    SkipOfOdd(n - 2);
  }

  // A pointer that is no better than the one of the block before is followed.
  lemma NextOfLow(m: nat, b: nat, z: nat, n: nat, height: nat)
    requires m == 2 * b + 1 && z >= 1 && n == Shl(m, z)
    requires InvertLowestOne(InvertLowestOne(n)) + 1 < height < n
    ensures NextHeight(n, height) == if InvertLowestOne(n) >= height then InvertLowestOne(n) else n - 1
  {
    Lower(m, b, z, n);
    if z >= 3 {
      var p := MultipleOf(m, z, 3);
      NextOfEight(p, n, 3, height);
    } else {
      SkipBeforeLow(m, b, z, n);
    }
  }

  lemma Near(m: nat, b: nat, z: nat, k: nat, n: nat, height: nat) returns (r: nat)
    requires m == 2 * b + 1 && z >= 1 && k >= 3 && n == Shl(m, z) < Shl(1, k)
    requires InvertLowestOne(InvertLowestOne(n)) + 1 < height <= n
    ensures r == Rounds(n, height) && r <= 1 + Most(k - 1) && (m == 1 ==> r <= Most(k - 1))
  {
    if height == n {
      r := 0;
    } else {
      var next := InvertLowestOne(n);
      Lower(m, b, z, n);
      NextOfLow(m, b, z, n, height);
      if next < height {
        r := StepBack(m, b, z, k, n, height);
      } else {
        if height == next {
          r := 0;
        } else {
          var m', b', z' := LowestOne(b, z + 1);
          r := StepBack(m', b', z', k, next, height);
        }
        Round(n, height, next);
        r := r + 1;
      }
    }
  }

  // Down by the odd numbers.
  lemma {:induction false} OddStart(p: nat, i: nat, k: nat, n: nat, height: nat) returns (r: nat)
    requires 1 <= i <= k && 3 <= k && height <= n + 1 && n == Shl(p, i) < Shl(1, k)
    ensures r == Rounds(n + 1, height) && 2 * r <= k - i + 2 + 2 * Most(k - 1)
    decreases n
  {
    if height == n + 1 {
      r := 0;
    } else if p == 0 {
      ShlAdds(0, 0, i);
      r := 1;
    } else {
      var m, b, z := LowestOne(p, i);
      Lower(m, b, z, n);
      Fits(m, z, k);
      r := OddOnwards(m, b, z, k, n, height);
    }
  }

  lemma {:induction false} OddOnwards(m: nat, b: nat, z: nat, k: nat, n: nat, height: nat) returns (r: nat)
    requires m == 2 * b + 1 && 1 <= z < k && 3 <= k && height <= n && n == Shl(m, z) < Shl(1, k)
    ensures r == Rounds(n + 1, height) && 2 * r <= k - z + 2 + 2 * Most(k - 1)
    decreases n, 1
  {
    var next := InvertLowestOne(InvertLowestOne(n));
    Lower(m, b, z, n);
    NextOfOdd(n + 1, height);
    if height > next + 1 {
      r := Near(m, b, z, k, n, height);
      if b > 0 {
        BitsLeft(b, z + 1, k);
      }
      Round(n + 1, height, n);
    } else {
      r := OddFar(m, b, z, k, n, next, height);
      Round(n + 1, height, next + 1);
    }
    r := r + 1;
  }

  // After a skip two one bits are gone.
  lemma {:induction false} OddFar(m: nat, b: nat, z: nat, k: nat, n: nat, next: nat, height: nat) returns (r: nat)
    requires m == 2 * b + 1 && 1 <= z < k && 3 <= k && n == Shl(m, z) < Shl(1, k)
    requires next == InvertLowestOne(InvertLowestOne(n)) && height <= next + 1
    ensures r == Rounds(next + 1, height) && 2 * r <= k - z + 2 * Most(k - 1)
    decreases n, 0
  {
    Lower(m, b, z, n);
    if b == 0 {
      r := if height == 1 then 0 else 1;
    } else {
      var m', b', z' := LowestOne(b, z + 1);
      BitsLeft(m', z', k);
      Lower(m', b', z', InvertLowestOne(n));
      r := OddStart(b', z' + 1, k, next, height);
    }
  }

  /* ---- The bound ---- */

  lemma Cleared(p: nat, i: nat) returns (c: nat)
    ensures InvertLowestOne(Shl(p, i)) == Shl(c, i + 1)
  {
    if p == 0 {
      ShlAdds(0, 0, i);
      ShlAdds(0, 0, i + 1);
      c := 0;
    } else {
      var m, b, z := LowestOne(p, i);
      LowestOfShl(m, b, z);
      ShlTwice(b, z - i, i + 1);
      c := Shl(b, z - i);
    }
  }

  // Where the pointer of the block before leads that an even height may prefer.
  lemma SkipBefore(m: nat, b: nat, z: nat, walk: nat) returns (p: nat, far: nat)
    requires m == 2 * b + 1 && 1 <= z <= 2 && walk == Shl(m, z) && walk >= 4
    ensures far == Shl(p, 4) && GetSkipHeight(walk - 1) == far + 1
    ensures z == 1 ==> far == InvertLowestOne(InvertLowestOne(InvertLowestOne(walk)))
    ensures z == 2 ==> far == InvertLowestOne(InvertLowestOne(walk))
  {
    Lower(m, b, z, walk);
    SkipOfOdd(walk - 2);
    far := InvertLowestOne(InvertLowestOne(walk - 2));
    p := Cleared(b, z + 1);
    if z == 1 {
      p := Cleared(p, 3);
    }
  }

  lemma FourBelow(m: nat, b: nat, z: nat, walk: nat)
    requires m == 2 * b + 1 && 1 <= z && walk == Shl(m, z)
    ensures InvertLowestOne(walk) > 0 ==> InvertLowestOne(InvertLowestOne(walk)) + 4 <= InvertLowestOne(walk)
  {
    LowestOfShl(m, b, z);
    if b > 0 {
      var m', b', z' := LowestOne(b, z + 1);
      LowestOfShl(m', b', z');
      ShlExponent(2, z');
    } else {
      ShlAdds(0, 0, z + 1);
    }
  }

  // The pointer of the block before is preferred: two rounds to an odd height with few one bits.
  lemma Preferred(p: nat, far: nat, k: nat, walk: nat, height: nat) returns (r: nat)
    requires k >= 9 && far == Shl(p, 4) && walk >= 4 && height <= far + 1 == GetSkipHeight(walk - 1)
    requires walk % 2 == 0 && walk < Shl(1, k) && NextHeight(walk, height) == walk - 1
    ensures r == Rounds(walk, height) && r <= Most(k - 1) + k - 4
  {
    Round(walk, height, walk - 1);
    NextOfOdd(walk - 1, height);
    Round(walk - 1, height, far + 1);
    r := OddStart(p, 4, k, far, height);
    r := r + 2;
  }

  // Neither pointer leads far: the height is near.
  lemma NotFar(m: nat, b: nat, z: nat, far: nat, k: nat, walk: nat, height: nat) returns (r: nat)
    requires m == 2 * b + 1 && 1 <= z <= 2 && walk == Shl(m, z) < Shl(1, k) && walk >= 4 && k >= 9
    requires GetSkipHeight(walk - 1) == far + 1 < height < walk
    requires z == 1 ==> far == InvertLowestOne(InvertLowestOne(InvertLowestOne(walk)))
    requires z == 2 ==> far == InvertLowestOne(InvertLowestOne(walk))
    ensures r == Rounds(walk, height) && r <= 2 + Most(k - 1)
  {
    var next := InvertLowestOne(walk);
    Lower(m, b, z, walk);
    if z == 2 {
      r := Near(m, b, z, k, walk, height);
    } else if height <= next {
      var m', b', z' := LowestOne(b, z + 1);
      r := Near(m', b', z', k, next, height);
      Round(walk, height, next);
      r := r + 1;
    } else {
      Round(walk, height, height);
      r := 1;
    }
  }

  lemma EvenStart(m: nat, b: nat, z: nat, k: nat, walk: nat, height: nat) returns (r: nat)
    requires m == 2 * b + 1 && 1 <= z <= 2 && k >= 9 && height < walk == Shl(m, z) < Shl(1, k)
    ensures r == Rounds(walk, height) && r <= Most(k - 1) + k - 4
  {
    Lower(m, b, z, walk);
    var next := InvertLowestOne(walk);
    if walk == 2 || height == next {
      Round(walk, height, height);
      r := 1;
    } else {
      var p, far := SkipBefore(m, b, z, walk);
      FourBelow(m, b, z, walk);
      if far + 1 < height {
        r := NotFar(m, b, z, far, k, walk, height);
      } else {
        r := Preferred(p, far, k, walk, height);
      }
    }
  }

  lemma FromOdd(b: nat, k: nat, walk: nat, height: nat) returns (r: nat)
    requires k >= 9 && height <= walk == 2 * b + 1 < Shl(1, k)
    ensures r == Rounds(walk, height) && r <= Most(k - 1) + k - 4
  {
    assert Shl(b, 1) == 2 * b;
    r := OddStart(b, 1, k, 2 * b, height);
  }

  // However many blocks below 2^k there are, a walk between any two of them is this short.
  lemma RoundsBound(walk: nat, height: nat, k: nat)
    requires 9 <= k && height <= walk < Shl(1, k)
    ensures Rounds(walk, height) <= Most(k - 1) + k - 4
  {
    if height < walk {
      var r: nat;
      var m, b, z := LowestOne(walk, 0);
      Fits(m, z, k);
      if z == 0 {
        r := FromOdd(b, k, walk, height);
      } else if z <= 2 {
        r := EvenStart(m, b, z, k, walk, height);
      } else {
        r := EvenRounds(m, z, k, walk, height);
      }
    }
  }

  /* ---- The bound is reached ---- */

  lemma MostStep(j: nat, c: nat)
    requires j == 2 * c + 2 || j == 2 * c + 3
    ensures j == 2 * c + 2 && c > 0 ==> Most(j) == Most(j - 1) + c + 2
    ensures j == 2 * c + 3 ==> Most(j) == Most(j - 1) + c + 3
  {}

  lemma SecondHeight(q: nat, j: nat, a: nat, t: nat, o: nat, height: nat)
    requires q >= 1 && 1 <= a < j && t == Shl(q, j) && o == Shl(1, a) && o <= t
    requires Shl(1, j) <= t && height == t - Shl(1, j) + 2
    ensures AfterOdd(q, j, a, t, o, height) == if a + 2 < j then t - 4 * o + 1 else t - o
    ensures 2 * o <= t && height <= t - o && (a + 2 < j ==> height <= t - 4 * o + 1)
  {
    Doubled(a - 1);
    Doubled(a);
    Doubled(a + 1);
    Doubled(a + 2);
    ShlExponent(a + 1, j);
    if a + 2 < j {
      ShlExponent(a + 3, j);
    }
  }

  // From the end of a block to the second height after its beginning, c skips later.
  lemma {:induction false} WorstOdd(q: nat, j: nat, c: nat, a: nat, t: nat, o: nat, walk: nat, height: nat)
    returns (r: nat)
    requires q >= 1 && a == 2 * c + 1 && a < j && t == Shl(q, j) && o == Shl(1, a) && o <= t
    requires Shl(1, j) <= t && height == t - Shl(1, j) + 2 && walk == t - o + 1
    ensures height < walk && r == Rounds(walk, height) && r + c + 1 == Most(j)
    decreases j, j - a
  {
    var next := AfterOdd(q, j, a, t, o, height);
    SecondHeight(q, j, a, t, o, height);
    RoundFromOdd(q, j, a, t, o, walk, height, next);
    if a + 2 < j {
      r := WorstOdd(q, j, c + 1, a + 2, t, 4 * o, next, height);
    } else if a + 1 == j {
      r := WorstWalk(q, j, c, a, t, o, next, height);
    } else {
      r := WorstSkip(q, j, c, a, t, o, next, height);
    }
    r := r + 1;
  }

  lemma {:induction false} WorstWalk(q: nat, j: nat, c: nat, a: nat, t: nat, o: nat, walk: nat, height: nat)
    returns (r: nat)
    requires q >= 1 && a == 2 * c + 1 && a + 1 == j && t == Shl(q, j) && o == Shl(1, a) && o <= t
    requires Shl(1, j) <= t && height == t - Shl(1, j) + 2 && walk == t - o
    ensures height <= walk && r == Rounds(walk, height) && r + c + 2 == Most(j)
    decreases j, 0
  {
    var p := Below(q, j, a, t, o);
    if j == 2 {
      r := 0;
    } else {
      MostStep(j, c);
      ShlExponent(2, a);
      ShlMonotone(1, 2 * p - 1, a);
      r := WorstOdd(2 * p - 1, a, 0, 1, walk, 2, walk - 1, height);
      RoundFromEven(q, j, a, t, o, walk, height, walk - 1);
      r := r + 1;
    }
  }

  lemma {:induction false} WorstSkip(q: nat, j: nat, c: nat, a: nat, t: nat, o: nat, walk: nat, height: nat)
    returns (r: nat)
    requires q >= 1 && a == 2 * c + 1 && a + 2 == j && t == Shl(q, j) && o == Shl(1, a) && o <= t
    requires Shl(1, j) <= t && height == t - Shl(1, j) + 2 && walk == t - o
    ensures height <= walk && r == Rounds(walk, height) && r + c + 2 == Most(j)
    decreases j, 0
  {
    var p := EndOfNext(q, j, a, t, o);
    MostStep(j, c);
    var next := t - 2 * o - 1;
    r := WorstOdd(p - 1, a + 1, 0, 1, next + 1, 2, next, height);
    RoundsFromEven(q, j, a, t, o, walk, height, next);
    r := r + 2;
  }

  lemma {:induction false} WorstEven(k: nat, i: nat, t: nat, o: nat, walk: nat, height: nat) returns (r: nat)
    requires 3 <= i < k && t == Shl(1, k) && o == Shl(1, i) && 8 <= o < t && walk == t - o && height == 2
    ensures height <= walk && r == Rounds(walk, height) && r == k - 1 - i + Most(k - 1)
    decreases k - i
  {
    var p := Below(1, k, i, t, o);
    var p8 := MultipleOf(2 * p - 1, i, 3);
    NextOfEight(p8, walk, 3, height);
    if i + 1 == k {
      r := WorstOdd(1, i, 0, 1, o, 2, walk - 1, height);
      Round(walk, height, walk - 1);
    } else {
      var _ := Below(1, k, i + 1, t, 2 * o);
      var next := t - 2 * o;
      r := WorstEven(k, i + 1, t, 2 * o, next, height);
      Round(walk, height, next);
    }
    r := r + 1;
  }

  lemma SquareOf(m: nat)
    ensures 2 * m * (2 * m) == 4 * (m * m) && (2 * m + 1) * (2 * m + 1) == 4 * (m * m + m) + 1
  {}

  lemma QuarterSquare(n: nat)
    ensures n * n / 4 + (n + 1) / 2 == (n + 1) * (n + 1) / 4
  {
    var m := n / 2;
    SquareOf(m);
    SquareOf(m + 1);
    if n == 2 * m {
      assert n * n / 4 == m * m;
    } else {
      assert n == 2 * m + 1;
      assert n * n / 4 == m * m + m;
      assert (n + 1) * (n + 1) / 4 == (m + 1) * (m + 1) == m * m + 2 * m + 1;
    }
  }

  lemma {:induction false} MostIs(n: nat)
    ensures Most(n + 1) == n * n / 4 + 2 * n
  {
    if n > 0 {
      MostIs(n - 1);
      QuarterSquare(n - 1);
    }
  }

  // The bound in closed form, with a walk that needs as many rounds: their number is not logarithmic but
  // grows with the square of the logarithm. Below 2^18 it is 110.
  lemma LongestWalk(k: nat)
    requires 9 <= k
    ensures forall walk, height | 0 <= height <= walk < Shl(1, k) :: Rounds(walk, height) <= k * k / 4 + 2 * k - 7
    ensures 10 <= Shl(1, k) && Rounds(Shl(1, k) - 8, 2) == k * k / 4 + 2 * k - 7
  {
    MostIs(k - 2);
    QuarterSquare(k - 2);
    QuarterSquare(k - 1);
    ShlGrows(k);
    ShlExponent(4, k);
    var _ := WorstEven(k, 3, Shl(1, k), 8, Shl(1, k) - 8, 2);
    forall walk: nat, height: nat | height <= walk < Shl(1, k)
      ensures Rounds(walk, height) <= k * k / 4 + 2 * k - 7
    {
      RoundsBound(walk, height, k);
    }
  }

  // The number the program's documentation gives.
  lemma MaxSteps(walk: nat, height: nat)
    requires height <= walk < 0x4_0000
    ensures Rounds(walk, height) <= 110
  {
    var k := 18;
    Powers();
    ShlTwice(1, 16, 2);
    ShlTimes(0x1_0000, 2);
    assert Shl(1, 2) == 4 && Shl(1, 16 + 2) == Shl(0x1_0000, 2);
    RoundsBound(walk, height, k);
    MostIs(k - 2);
  }
}
