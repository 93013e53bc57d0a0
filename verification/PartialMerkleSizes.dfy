/** How big partial Merkle trees get, against what src/merkleblock.h guarantees. */
module PartialMerkleSizes {
  // The guarantee for N hashes is SIZE <= 10 + ceil(32.25 * N).

  import opened Bits
  import opened PartialMerkle
  import opened PartialMerkleProofs

  /* ---- Nodes with one child: the last ones at some heights ---- */

  // Every node but the last has two children.
  lemma WidthStep(n: nat, h: nat)
    ensures Width(n, h + 1) == (Width(n, h) + 1) / 2
  {
    var w := Width(n, h + 1);
    NodeExists(n, h + 1, w);
    NodeExists(n, h, 2 * w);
    Children(h + 1, w);
    if w > 0 {
      NodeExists(n, h + 1, w - 1);
      NodeExists(n, h, 2 * (w - 1));
      Children(h + 1, w - 1);
    }
  }

  // Heights up to h at which the last node has a single child and a match under it.
  ghost function SingleHeights(n: nat, mask: seq<bool>, h: nat): (r: set<nat>) {
    set k: nat | 1 <= k <= h && Width(n, k - 1) % 2 == 1 && LastMatches(n, mask, k)
  }

  // Some transaction under the last node at a height is matched.
  ghost predicate LastMatches(n: nat, mask: seq<bool>, h: nat) {
    Width(n, h) > 0 && AnyMatch(mask, First(h, Width(n, h) - 1), n)
  }

  lemma LastNode(n: nat, mask: seq<bool>, h: nat)
    requires 0 < n == |mask|
    ensures Width(n, h) > 0 && First(h, Width(n, h) - 1) < n <= First(h, Width(n, h))
    ensures LastMatches(n, mask, h) <==> AnyMatch(mask, First(h, Width(n, h) - 1), First(h, Width(n, h)))
  {
    ShlAdds(0, 0, h);
    NodeExists(n, h, 0);
    NodeExists(n, h, Width(n, h) - 1);
    NodeExists(n, h, Width(n, h));
  }

  // The last node at a lower height is under the last node at a higher one.
  lemma LastBelow(n: nat, mask: seq<bool>, h: nat)
    requires 0 < n == |mask| && LastMatches(n, mask, h)
    ensures LastMatches(n, mask, h + 1)
  {
    WidthStep(n, h);
    LastNode(n, mask, h);
    LastNode(n, mask, h + 1);
    var last := Width(n, h + 1) - 1;
    Children(h + 1, last);
    assert First(h + 1, last) <= First(h, Width(n, h) - 1);
  }

  lemma SingleHeightsStep(n: nat, mask: seq<bool>, h: nat)
    ensures SingleHeights(n, mask, h + 1) == SingleHeights(n, mask, h) +
            if Width(n, h) % 2 == 1 && LastMatches(n, mask, h + 1) then {h + 1} else {}
  {}

  lemma {:induction false} NoMatchNoSingle(n: nat, mask: seq<bool>, h: nat)
    requires 0 < n == |mask| && !LastMatches(n, mask, h)
    ensures SingleHeights(n, mask, h) == {}
  {
    if h > 0 {
      if LastMatches(n, mask, h - 1) {
        LastBelow(n, mask, h - 1);
      }
      NoMatchNoSingle(n, mask, h - 1);
      SingleHeightsStep(n, mask, h - 1);
    }
  }

  // Nodes with one child, if only the last node of a height can be one.
  ghost function SinglesAt(n: nat, mask: seq<bool>, h: nat, pos: nat): (r: nat) {
    if pos + 1 == Width(n, h) then |SingleHeights(n, mask, h)| else 0
  }

  lemma NoMatch(n: nat, mask: seq<bool>, h: nat, pos: nat)
    requires 0 < n == |mask| && pos < Width(n, h) && !AnyMatch(mask, First(h, pos), First(h, pos + 1))
    ensures SinglesAt(n, mask, h, pos) == 0
  {
    if pos + 1 == Width(n, h) {
      LastNode(n, mask, h);
      NoMatchNoSingle(n, mask, h);
    }
  }

  lemma WithMatch(n: nat, mask: seq<bool>, h: nat, pos: nat)
    requires 0 < n == |mask| && pos < Width(n, h + 1) && AnyMatch(mask, First(h + 1, pos), First(h + 1, pos + 1))
    ensures 2 * pos < Width(n, h)
    ensures SinglesAt(n, mask, h + 1, pos) ==
      if 2 * pos + 1 < Width(n, h) then SinglesAt(n, mask, h, 2 * pos) + SinglesAt(n, mask, h, 2 * pos + 1)
      else 1 + SinglesAt(n, mask, h, 2 * pos)
  {
    WidthStep(n, h);
    SingleHeightsStep(n, mask, h);
    LastNode(n, mask, h + 1);
  }

  // A node with one child is the last of its height.
  lemma {:induction false} SinglesAre(n: nat, mask: seq<bool>, h: nat, pos: nat)
    requires 0 < n == |mask| && pos < Width(n, h)
    ensures Singles(n, mask, h, pos) == SinglesAt(n, mask, h, pos)
  {
    if h == 0 {
      assert SingleHeights(n, mask, h) == {};
    } else if !AnyMatch(mask, First(h, pos), First(h, pos + 1)) {
      NoMatch(n, mask, h, pos);
    } else {
      WithMatch(n, mask, h - 1, pos);
      SinglesAre(n, mask, h - 1, 2 * pos);
      if 2 * pos + 1 < Width(n, h - 1) {
        SinglesAre(n, mask, h - 1, 2 * pos + 1);
      }
    }
  }

  // The number of nodes with one child in a whole tree.
  ghost function SingleCount(n: nat, mask: seq<bool>): (r: nat) {
    |SingleHeights(n, mask, Height(n))|
  }

  lemma TreeSingles(n: nat, mask: seq<bool>)
    requires 0 < n == |mask|
    ensures Singles(n, mask, Height(n), 0) == SingleCount(n, mask)
  {
    LastNode(n, mask, Height(n));
    SinglesAre(n, mask, Height(n), 0);
  }

  /* ---- The documented bounds ---- */

  // The documented bounds on the number of hashes hold of every tree; the one on the number of
  // bits holds exactly when no last node with a match under it has a single child.
  lemma SizeBounds(hash: PairHash, txids: seq<Digest>, mask: seq<bool>)
    requires txids != [] && |mask| == |txids|
    ensures var b, n := BuildTree(hash, txids, mask), |txids|;
      && |b.hashes| <= n
      && |b.hashes| <= 1 + |Matched(txids, mask, 0, n)| * Height(n)
      && |b.bits| == 2 * |b.hashes| - 1 + SingleCount(n, mask)
      && (|b.bits| <= 2 * |b.hashes| - 1 <==> SingleHeights(n, mask, Height(n)) == {})
  {
    var n := |txids|;
    RootRange(n);
    BuildSizes(hash, txids, mask, Height(n), 0);
    HashesPerMatch(hash, txids, mask, Height(n), 0);
    TreeSingles(n, mask);
  }

  lemma HeightIs(n: nat, h: nat)
    requires Width(n, h) <= 1 && forall k :: 0 <= k < h ==> Width(n, k) > 1
    ensures Height(n) == h
  {}

  // The smallest trees over the documented number of bits: the last of three transactions matched.
  lemma TooManyBits(hash: PairHash, txids: seq<Digest>, mask: seq<bool>)
    requires |txids| == |mask| == 3 && mask[2]
    ensures var b := BuildTree(hash, txids, mask); |b.bits| > 2 * |b.hashes| - 1
  {
    var n := |txids|;
    assert Width(n, 0) == n;
    WidthStep(n, 0);
    WidthStep(n, 1);
    HeightIs(n, 2);
    LastNode(n, mask, 1);
    assert LastMatches(n, mask, 1);
    assert 1 in SingleHeights(n, mask, 2);
    SizeBounds(hash, txids, mask);
  }

  // The length of a count on the wire.
  function CompactSize(n: nat): (r: nat) {
    if n < 253 then 1 else if n <= 0xffff then 3 else if n <= 0xffff_ffff then 5 else 9
  }

  // The transaction count, the hashes and the packed bits, each list behind its length.
  function EncodedSize(e: Encoded): (r: nat) {
    4 + CompactSize(|e.hashes|) + 32 * |e.hashes| + CompactSize(|Pack(e.bits)|) + |Pack(e.bits)|
  }

  // 10 + ceil(32.25 * n)
  function Guaranteed(n: nat): (r: nat) {
    10 + 32 * n + (n + 3) / 4
  }

  // Room for the flag bits beyond the documented number: 16 bits and what the two counts leave.
  predicate SizeFits(hashes: nat, singles: nat) {
    var bytes := (2 * hashes + singles + 6) / 8;
    && hashes <= 0xffff
    && bytes + (if bytes < 253 then 0 else 2) <= (hashes + 3) / 4 + if hashes < 253 then 4 else 2
  }

  // The size guarantee holds exactly when the nodes with one child fit into the slack.
  lemma SizeGuarantee(hash: PairHash, txids: seq<Digest>, mask: seq<bool>)
    requires txids != [] && |mask| == |txids|
    ensures var b := BuildTree(hash, txids, mask);
      EncodedSize(b) <= Guaranteed(|b.hashes|) <==> SizeFits(|b.hashes|, SingleCount(|txids|, mask))
  {
    SizeBounds(hash, txids, mask);
  }

  lemma MatchedNode(n: nat, mask: seq<bool>, h: nat, pos: nat)
    requires First(h, pos) < n == |mask| && mask[First(h, pos)]
    ensures AnyMatch(mask, First(h, pos), First(h, pos + 1))
  {
    ShlAdds(pos, 1, h);
    ShlGrows(h);
  }

  // If everything is matched all transaction ids are in the tree.
  lemma {:induction false} AllHashes(hash: PairHash, txids: seq<Digest>, mask: seq<bool>, h: nat, pos: nat)
    requires First(h, pos) < |txids| == |mask| && forall i :: 0 <= i < |mask| ==> mask[i]
    ensures |Build(hash, txids, mask, h, pos).hashes| == End(|txids|, h, pos) - First(h, pos)
  {
    if h == 0 {
      ShlAdds(pos, 1, h);
    } else {
      MatchedNode(|txids|, mask, h, pos);
      ChildRanges(|txids|, h, pos);
      InnerSizes(hash, txids, mask, h, pos);
      AllHashes(hash, txids, mask, h - 1, 2 * pos);
      if 2 * pos + 1 < Width(|txids|, h - 1) {
        AllHashes(hash, txids, mask, h - 1, 2 * pos + 1);
      }
    }
  }

  lemma Widths(n: nat)
    requires n == 1012
    ensures Width(n, 0) == 1012 && Width(n, 1) == 506 && Width(n, 2) == 253 && Width(n, 3) == 127
    ensures Width(n, 4) == 64 && Width(n, 5) == 32 && Width(n, 6) == 16 && Width(n, 7) == 8
    ensures Width(n, 8) == 4 && Width(n, 9) == 2 && Width(n, 10) == 1
    ensures Height(n) == 10
  {
    assert Width(n, 0) == n;
    WidthStep(n, 0);
    WidthStep(n, 1);
    WidthStep(n, 2);
    WidthStep(n, 3);
    WidthStep(n, 4);
    WidthStep(n, 5);
    WidthStep(n, 6);
    WidthStep(n, 7);
    WidthStep(n, 8);
    WidthStep(n, 9);
    HeightIs(n, 10);
  }

  lemma TwoSingles(n: nat, mask: seq<bool>)
    requires n == |mask| == 1012 && forall i :: 0 <= i < |mask| ==> mask[i]
    ensures SingleCount(n, mask) == 2
  {
    Widths(n);
    LastNode(n, mask, 3);
    LastNode(n, mask, 4);
    assert mask[First(3, Width(n, 3) - 1)] && mask[First(4, Width(n, 4) - 1)];
    assert SingleHeights(n, mask, Height(n)) == {3, 4};
  }

  // A tree over the guaranteed size: 1012 transactions, all matched, take 32648 bytes.
  lemma TooBig(hash: PairHash, txids: seq<Digest>, mask: seq<bool>)
    requires |txids| == |mask| == 1012 && forall i :: 0 <= i < |mask| ==> mask[i]
    ensures var b := BuildTree(hash, txids, mask);
      |b.hashes| == 1012 && EncodedSize(b) == 32648 && Guaranteed(|b.hashes|) == 32647
  {
    AllMatched(hash, txids, mask);
    SizeOf(BuildTree(hash, txids, mask));
  }

  lemma AllMatched(hash: PairHash, txids: seq<Digest>, mask: seq<bool>)
    requires |txids| == |mask| == 1012 && forall i :: 0 <= i < |mask| ==> mask[i]
    ensures var b := BuildTree(hash, txids, mask); |b.hashes| == 1012 && |b.bits| == 2025
  {
    var n := |txids|;
    TwoSingles(n, mask);
    RootRange(n);
    AllHashes(hash, txids, mask, Height(n), 0);
    SizeBounds(hash, txids, mask);
  }

  lemma SizeOf(e: Encoded)
    requires |e.hashes| == 1012 && |e.bits| == 2025
    ensures EncodedSize(e) == 32648 && Guaranteed(|e.hashes|) == 32647
  {}
}
