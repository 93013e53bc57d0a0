/** The Merkle root, level by level. */
module MerkleLevels {
  import opened Bits
  import opened PartialMerkle
  import opened PartialMerkleProofs

  // The next level: neighbours are hashed together, and a last one left over with itself.
  function PairUp(hash: PairHash, level: seq<Digest>): (r: seq<Digest>)
    ensures |r| == (|level| + 1) / 2
  {
    seq((|level| + 1) / 2, i requires 0 <= i < (|level| + 1) / 2 =>
      hash(level[2 * i], if 2 * i + 1 < |level| then level[2 * i + 1] else level[2 * i]))
  }

  // Levels are paired up until one hash is left.
  function LevelRoot(hash: PairHash, level: seq<Digest>): (r: Digest)
    requires level != []
    decreases |level|
  {
    if |level| == 1 then level[0] else LevelRoot(hash, PairUp(hash, level))
  }

  // The hashes of all nodes at a height.
  function Level(hash: PairHash, txids: seq<Digest>, h: nat): (r: seq<Digest>) {
    seq(Width(|txids|, h), pos requires 0 <= pos < Width(|txids|, h) =>
      NodeExists(|txids|, h, pos);
      CalcHash(hash, txids, h, pos))
  }

  lemma WidthHalves(n: nat, h: nat)
    ensures Width(n, h + 1) == (Width(n, h) + 1) / 2
  {
    var w := Width(n, h + 1);
    NodeExists(n, h + 1, w);
    Children(h + 1, w);
    NodeExists(n, h, 2 * w);
    if w > 0 {
      NodeExists(n, h + 1, w - 1);
      Children(h + 1, w - 1);
      NodeExists(n, h, 2 * (w - 1));
    }
  }

  lemma NodeIsPair(hash: PairHash, txids: seq<Digest>, h: nat, pos: nat)
    requires pos < Width(|txids|, h + 1)
    ensures 2 * pos < Width(|txids|, h) && First(h + 1, pos) < |txids|
    ensures var level := Level(hash, txids, h);
      CalcHash(hash, txids, h + 1, pos)
      == hash(level[2 * pos], if 2 * pos + 1 < |level| then level[2 * pos + 1] else level[2 * pos])
  {
    NodeExists(|txids|, h + 1, pos);
    Children(h + 1, pos);
    NodeExists(|txids|, h, 2 * pos);
  }

  lemma NextLevel(hash: PairHash, txids: seq<Digest>, h: nat)
    ensures PairUp(hash, Level(hash, txids, h)) == Level(hash, txids, h + 1)
  {
    WidthHalves(|txids|, h);
    var a, b := PairUp(hash, Level(hash, txids, h)), Level(hash, txids, h + 1);
    forall pos | 0 <= pos < |a|
      ensures a[pos] == b[pos]
    {
      NodeIsPair(hash, txids, h, pos);
    }
  }

  // The root that pairing up leads to from the level at height h.
  function RootFrom(hash: PairHash, txids: seq<Digest>, h: nat): (r: Digest) {
    var level := Level(hash, txids, h);
    if level == [] then 0 else LevelRoot(hash, level)
  }

  lemma LevelStep(hash: PairHash, txids: seq<Digest>, h: nat)
    requires Width(|txids|, h) > 1
    ensures RootFrom(hash, txids, h) == RootFrom(hash, txids, h + 1)
  {
    NextLevel(hash, txids, h);
    WidthHalves(|txids|, h);
  }

  lemma TopLevel(hash: PairHash, txids: seq<Digest>, top: nat)
    requires Width(|txids|, top) == 1
    ensures First(top, 0) < |txids| && RootFrom(hash, txids, top) == CalcHash(hash, txids, top, 0)
  {
    NodeExists(|txids|, top, 0);
  }

  lemma {:induction false} SameRoots(hash: PairHash, txids: seq<Digest>, top: nat)
    requires forall h: nat :: h < top ==> Width(|txids|, h) > 1
    ensures RootFrom(hash, txids, 0) == RootFrom(hash, txids, top)
  {
    if top > 0 {
      SameRoots(hash, txids, top - 1);
      LevelStep(hash, txids, top - 1);
    }
  }

  lemma BottomLevel(hash: PairHash, txids: seq<Digest>)
    ensures Level(hash, txids, 0) == txids
  {
    var n := |txids|;
    NodeExists(n, 0, n);
    ShlAdds(n, 0, 0);
    if n > 0 {
      NodeExists(n, 0, n - 1);
      ShlAdds(n - 1, 0, 0);
    }
  }

  lemma RootIs(hash: PairHash, txids: seq<Digest>, top: nat)
    requires txids != [] && top == Height(|txids|)
    ensures RootFrom(hash, txids, top) == MerkleRoot(hash, txids)
  {
    RootRange(|txids|);
    NodeExists(|txids|, top, 0);
    TopLevel(hash, txids, top);
  }

  // The recursion from the top computes what pairing up level by level does, from the transactions on.
  lemma RootByLevels(hash: PairHash, txids: seq<Digest>)
    requires txids != []
    ensures MerkleRoot(hash, txids) == LevelRoot(hash, txids)
  {
    var top := Height(|txids|);
    SameRoots(hash, txids, top);
    RootIs(hash, txids, top);
    BottomLevel(hash, txids);
  }
}
