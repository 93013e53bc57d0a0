/** Cells of two bits, held in the same position of a pair of 64-bit words. */
module BloomWords {
  import opened Bits

  // Unsigned 64-bit words, as numbers.
  ghost predicate AreWords(s: seq<nat>) {
    forall k :: 0 <= k < |s| ==> s[k] < Shl(1, 64)
  }

  // (x & ~(1 << b)) | (v << b)
  function WithBit(x: nat, b: nat, v: nat): (r: nat)
    requires x < Shl(1, 64) && b < 64
  {
    ShlExponent(b, 63);
    ShlAdds(1, 1, 63);
    Or(And(x, Not(Shl(1, b), 64)), Shl(v, b))
  }

  lemma WithBitReads(x: nat, b: nat, v: nat, c: nat)
    requires x < Shl(1, 64) && b < 64 && c < 64 && v < 2
    ensures Bit(WithBit(x, b, v), c) == if b == c then v == 1 else Bit(x, c)
  {
    ShlExponent(b, 63);
    ShlAdds(1, 1, 63);
    OneBit(b, c);
    NotBit(Shl(1, b), 64, c);
    AndBit(x, Not(Shl(1, b), 64), c);
    OrBit(And(x, Not(Shl(1, b), 64)), Shl(v, b), c);
    ShlTimes(0, b);
    ZeroBit(c);
  }

  lemma WithBitFits(x: nat, b: nat, v: nat)
    requires x < Shl(1, 64) && b < 64 && v < 2
    ensures WithBit(x, b, v) < Shl(1, 64)
  {
    ShlExponent(b, 63);
    ShlAdds(1, 1, 63);
    ShlGrows(b);
    ShlTimes(0, b);
    WordBounds(x, Not(Shl(1, b), 64), 64);
    WordBounds(And(x, Not(Shl(1, b), 64)), Shl(v, b), 64);
  }

  // nGeneration & 1 and nGeneration >> 1.
  function LowBit(g: nat): (r: nat) {
    g % 2
  }

  function HighBit(g: nat): (r: nat) {
    g / 2
  }

  // -v in 64 bits, for a single bit v: a word full of v.
  function Fill(v: nat): (r: nat)
    requires v < 2
  {
    ShlGrows(64);
    if v == 0 then 0 else Shl(1, 64) - v
  }

  lemma FillReads(v: nat, b: nat)
    requires v < 2 && b < 64
    ensures Fill(v) < Shl(1, 64) && Bit(Fill(v), b) == (v == 1)
  {
    ShlGrows(64);
    ZeroBit(b);
    if v == 1 {
      NotBit(0, 64, b);
    }
  }

  // The word that clears every cell of generation g out of a pair.
  function WipeMask(p1: nat, p2: nat, g: nat): (r: nat)
    requires g <= 3
  {
    Or(Xor(p1, Fill(LowBit(g))), Xor(p2, Fill(HighBit(g))))
  }

  // The generation number in a cell, or 0 for an empty cell.
  function CellOf(p1: nat, p2: nat, b: nat): (r: nat) {
    (if Bit(p1, b) then 1 else 0) + if Bit(p2, b) then 2 else 0
  }

  // Masking a pair empties the cells of one generation and no others.
  lemma WipePair(p1: nat, p2: nat, g: nat, b: nat)
    requires 1 <= g <= 3 && b < 64
    ensures var mask := WipeMask(p1, p2, g);
      CellOf(And(p1, mask), And(p2, mask), b) == if CellOf(p1, p2, b) == g then 0 else CellOf(p1, p2, b)
  {
    FillReads(LowBit(g), b);
    FillReads(HighBit(g), b);
    XorBit(p1, Fill(LowBit(g)), b);
    XorBit(p2, Fill(HighBit(g)), b);
    OrBit(Xor(p1, Fill(LowBit(g))), Xor(p2, Fill(HighBit(g))), b);
    AndBit(p1, WipeMask(p1, p2, g), b);
    AndBit(p2, WipeMask(p1, p2, g), b);
  }

  lemma WipeFits(p1: nat, p2: nat, g: nat)
    requires g <= 3 && p1 < Shl(1, 64) && p2 < Shl(1, 64)
    ensures And(p1, WipeMask(p1, p2, g)) < Shl(1, 64) && And(p2, WipeMask(p1, p2, g)) < Shl(1, 64)
  {
    FillReads(LowBit(g), 0);
    FillReads(HighBit(g), 0);
    WordBounds(p1, Fill(LowBit(g)), 64);
    WordBounds(p2, Fill(HighBit(g)), 64);
    WordBounds(Xor(p1, Fill(LowBit(g))), Xor(p2, Fill(HighBit(g))), 64);
    WordBounds(p1, WipeMask(p1, p2, g), 64);
    WordBounds(p2, WipeMask(p1, p2, g), 64);
  }

  // Storing a generation changes one cell of the pair.
  lemma SetPair(p1: nat, p2: nat, g: nat, bit: nat, b: nat)
    requires 1 <= g <= 3 && p1 < Shl(1, 64) && p2 < Shl(1, 64) && bit < 64 && b < 64
    ensures CellOf(WithBit(p1, bit, LowBit(g)), WithBit(p2, bit, HighBit(g)), b) ==
            if b == bit then g else CellOf(p1, p2, b)
  {
    WithBitReads(p1, bit, LowBit(g), b);
    WithBitReads(p2, bit, HighBit(g), b);
  }
}
