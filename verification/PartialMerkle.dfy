/** Partial Merkle trees (BIP 37, "Partial Merkle branch format"), as values. */
module PartialMerkle {
  // A partial tree over n transactions is a list of flag bits and a list of hashes, both in
  // depth-first order. The pair hash is a parameter, assumed injective where a result needs it.

  import opened Bits
  import opened Helpers

  // A 256-bit hash; 0 is the null hash.
  type Digest = nat

  type PairHash = (Digest, Digest) -> Digest

  ghost predicate Injective(hash: PairHash) {
    forall a, b, c, d :: hash(a, b) == hash(c, d) ==> a == c && b == d
  }

  const MAX_BLOCK_SERIALIZED_SIZE := 16_000_000

  /* ---- The shape of the tree ---- */

  // The number of nodes at a height.
  function Width(n: nat, h: nat): (r: nat) {
    ShlGrows(h);
    Shr(n + Shl(1, h) - 1, h)
  }

  // The first transaction under a node, and the one after the last.
  function First(h: nat, pos: nat): (r: nat) {
    Shl(pos, h)
  }

  function End(n: nat, h: nat, pos: nat): (r: nat) {
    if First(h, pos + 1) < n then First(h, pos + 1) else n
  }

  // A node exists exactly if it has a first transaction.
  lemma NodeExists(n: nat, h: nat, pos: nat)
    ensures pos < Width(n, h) <==> First(h, pos) < n
  {
    ShlGrows(h);
    ShrFloors(n + Shl(1, h) - 1, h, pos);
    ShlAdds(pos, 1, h);
  }

  // The children of a node share out its transactions.
  lemma Children(h: nat, pos: nat)
    requires h > 0
    ensures First(h - 1, 2 * pos) == First(h, pos)
    ensures First(h - 1, 2 * pos + 2) == First(h, pos + 1)
    ensures First(h, pos) < First(h - 1, 2 * pos + 1) < First(h, pos + 1)
  {
    ShlGrows(h - 1);
    ShlAdds(2 * pos, 1, h - 1);
    ShlAdds(2 * pos + 1, 1, h - 1);
  }

  // The height at which a single node is left, searching upwards from h.
  function HeightFrom(n: nat, h: nat): (r: nat)
    ensures r >= h && Width(n, r) <= 1
    ensures forall k :: h <= k < r ==> Width(n, k) > 1
    decreases n - h
  {
    if Width(n, h) <= 1 then h
    else
      WidthSmall(n, h);
      HeightFrom(n, h + 1)
  }

  lemma WidthSmall(n: nat, h: nat)
    ensures h >= n ==> Width(n, h) <= 1
  {
    ShlGrows(h);
    NodeExists(n, h, 1);
  }

  function Height(n: nat): (r: nat) {
    HeightFrom(n, 0)
  }

  /* ---- The full tree ---- */

  function CalcHash(hash: PairHash, txids: seq<Digest>, h: nat, pos: nat): (r: Digest)
    requires First(h, pos) < |txids|
  {
    if h == 0 then txids[pos]
    else
      Children(h, pos);
      NodeExists(|txids|, h - 1, 2 * pos + 1);
      var left := CalcHash(hash, txids, h - 1, 2 * pos);
      var right := if 2 * pos + 1 < Width(|txids|, h - 1) then CalcHash(hash, txids, h - 1, 2 * pos + 1) else left;
      hash(left, right)
  }

  function MerkleRoot(hash: PairHash, txids: seq<Digest>): (r: Digest)
    requires txids != []
  {
    ShlAdds(0, 0, Height(|txids|));
    CalcHash(hash, txids, Height(|txids|), 0)
  }

  /* ---- Building ---- */

  predicate AnyMatch(mask: seq<bool>, lo: nat, hi: nat) {
    exists p :: lo <= p < hi && p < |mask| && mask[p]
  }

  datatype Encoded = Encoded(bits: seq<bool>, hashes: seq<Digest>)

  function Build(hash: PairHash, txids: seq<Digest>, mask: seq<bool>, h: nat, pos: nat): (r: Encoded)
    requires First(h, pos) < |txids| == |mask|
  {
    var parentOfMatch := AnyMatch(mask, First(h, pos), First(h, pos + 1));
    if h == 0 || !parentOfMatch then Encoded([parentOfMatch], [CalcHash(hash, txids, h, pos)])
    else
      Children(h, pos);
      NodeExists(|txids|, h - 1, 2 * pos + 1);
      var left := Build(hash, txids, mask, h - 1, 2 * pos);
      if 2 * pos + 1 < Width(|txids|, h - 1) then
        var right := Build(hash, txids, mask, h - 1, 2 * pos + 1);
        Encoded([true] + left.bits + right.bits, left.hashes + right.hashes)
      else
        Encoded([true] + left.bits, left.hashes)
  }

  /* ---- Extracting ---- */

  // Where the traversal stands: bits and hashes used, matches found, and whether it has gone wrong.
  datatype Cursor = Cursor(nBits: nat, nHash: nat, matches: seq<Digest>, bad: bool)

  function Extract(hash: PairHash, n: nat, e: Encoded, h: nat, pos: nat, c: Cursor): (r: (Digest, Cursor))
  {
    if c.nBits >= |e.bits| then (0, c.(bad := true))
    else
      var parentOfMatch := e.bits[c.nBits];
      var c1 := c.(nBits := c.nBits + 1);
      if h == 0 || !parentOfMatch then
        if c1.nHash >= |e.hashes| then (0, c1.(bad := true))
        else
          var leaf := e.hashes[c1.nHash];
          var c2 := c1.(nHash := c1.nHash + 1);
          (leaf, if h == 0 && parentOfMatch then c2.(matches := c2.matches + [leaf]) else c2)
      else
        var (left, c2) := Extract(hash, n, e, h - 1, 2 * pos, c1);
        if 2 * pos + 1 < Width(n, h - 1) then
          var (right, c3) := Extract(hash, n, e, h - 1, 2 * pos + 1, c2);
          (hash(left, right), if right == left then c3.(bad := true) else c3)
        else
          (hash(left, left), c2)
  }

  const START := Cursor(0, 0, [], false)

  // ExtractMatches: the Merkle root, or 0 when the partial tree is rejected.
  function ExtractMatches(hash: PairHash, n: nat, e: Encoded, fBad: bool): (r: (Digest, seq<Digest>)) {
    if n == 0 || n > MAX_BLOCK_SERIALIZED_SIZE / 60 || |e.hashes| > n || |e.bits| < |e.hashes| then (0, [])
    else
      var (root, c) := Extract(hash, n, e, Height(n), 0, START.(bad := fBad));
      if c.bad || (c.nBits + 7) / 8 != (|e.bits| + 7) / 8 || c.nHash != |e.hashes| then (0, c.matches)
      else (root, c.matches)
  }

  /* ---- Flag bits on the wire: packed per 8 in a byte, least significant first ---- */

  predicate BitOf(b: byte, k: nat)
    requires k < 8
  {
    And(b, Shl(1, k)) != 0
  }

  function SetBit(bytes: seq<byte>, p: nat, bit: bool): (r: seq<byte>)
    requires p / 8 < |bytes|
    ensures |r| == |bytes|
  {
    Powers();
    OrFits(bytes[p / 8], p % 8, 8);
    bytes[p / 8 := Or(bytes[p / 8], if bit then Shl(1, p % 8) else 0)]
  }

  function Zeros(n: nat): (r: seq<byte>)
    ensures |r| == n && forall i :: 0 <= i < n ==> r[i] == 0
  {
    seq(n, _ => 0)
  }

  // The bytes after the first k bits have been written.
  function PackFirst(bits: seq<bool>, k: nat): (r: seq<byte>)
    requires k <= |bits|
    ensures |r| == (|bits| + 7) / 8
  {
    if k == 0 then Zeros((|bits| + 7) / 8) else SetBit(PackFirst(bits, k - 1), k - 1, bits[k - 1])
  }

  function Pack(bits: seq<bool>): (r: seq<byte>) {
    PackFirst(bits, |bits|)
  }

  function Unpack(bytes: seq<byte>): (r: seq<bool>) {
    seq(8 * |bytes|, p requires 0 <= p < 8 * |bytes| => BitOf(bytes[p / 8], p % 8))
  }
}
