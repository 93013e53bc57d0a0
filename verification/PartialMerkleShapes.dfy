/** Which partial trees are accepted: exactly the encodings of a pruned Merkle tree. */
module PartialMerkleShapes {
  import opened Bits
  import opened PartialMerkle
  import opened PartialMerkleProofs

  // A Merkle tree pruned anywhere. The program builds only those that are open above matches and
  // nowhere else, but it accepts every one.
  datatype Shape =
    | Leaf(matched: bool)
    | Closed
    | Single(child: Shape)
    | Open(left: Shape, right: Shape)

  // The shape has as many children as the tree over n transactions has under this node.
  predicate Fits(n: nat, h: nat, pos: nat, s: Shape) {
    match s
    case Leaf(_) => h == 0
    case Closed => h > 0
    case Single(child) => h > 0 && 2 * pos + 1 >= Width(n, h - 1) && Fits(n, h - 1, 2 * pos, child)
    case Open(left, right) =>
      h > 0 && 2 * pos + 1 < Width(n, h - 1) && Fits(n, h - 1, 2 * pos, left) && Fits(n, h - 1, 2 * pos + 1, right)
  }

  // Flag bits and hashes in depth-first order: every node that is not open shows its hash.
  function Emit(hash: PairHash, txids: seq<Digest>, h: nat, pos: nat, s: Shape): (r: Encoded)
    requires First(h, pos) < |txids| && Fits(|txids|, h, pos, s)
  {
    match s
    case Leaf(matched) => Encoded([matched], [CalcHash(hash, txids, h, pos)])
    case Closed => Encoded([false], [CalcHash(hash, txids, h, pos)])
    case Single(child) =>
      Children(h, pos);
      var below := Emit(hash, txids, h - 1, 2 * pos, child);
      Encoded([true] + below.bits, below.hashes)
    case Open(left, right) =>
      Children(h, pos);
      NodeExists(|txids|, h - 1, 2 * pos + 1);
      var l, r := Emit(hash, txids, h - 1, 2 * pos, left), Emit(hash, txids, h - 1, 2 * pos + 1, right);
      Encoded([true] + l.bits + r.bits, l.hashes + r.hashes)
  }

  // The transactions of the leaves that are marked.
  function Marked(txids: seq<Digest>, h: nat, pos: nat, s: Shape): (r: seq<Digest>)
    requires First(h, pos) < |txids| && Fits(|txids|, h, pos, s)
  {
    match s
    case Leaf(matched) => if matched then [txids[pos]] else []
    case Closed => []
    case Single(child) =>
      Children(h, pos);
      Marked(txids, h - 1, 2 * pos, child)
    case Open(left, right) =>
      Children(h, pos);
      NodeExists(|txids|, h - 1, 2 * pos + 1);
      Marked(txids, h - 1, 2 * pos, left) + Marked(txids, h - 1, 2 * pos + 1, right)
  }

  // No open node has two children with the same hash.
  ghost predicate NoTwins(hash: PairHash, txids: seq<Digest>, h: nat, pos: nat, s: Shape)
    requires First(h, pos) < |txids| && Fits(|txids|, h, pos, s)
  {
    match s
    case Leaf(_) => true
    case Closed => true
    case Single(child) =>
      Children(h, pos);
      NoTwins(hash, txids, h - 1, 2 * pos, child)
    case Open(left, right) =>
      Children(h, pos);
      NodeExists(|txids|, h - 1, 2 * pos + 1);
      && CalcHash(hash, txids, h - 1, 2 * pos) != CalcHash(hash, txids, h - 1, 2 * pos + 1)
      && NoTwins(hash, txids, h - 1, 2 * pos, left) && NoTwins(hash, txids, h - 1, 2 * pos + 1, right)
  }

  /* ---- What a shape encodes is read back ---- */

  lemma {:induction false} ShapeReads(hash: PairHash, txids: seq<Digest>, h: nat, pos: nat, s: Shape,
                                      e: Encoded, c: Cursor)
    requires First(h, pos) < |txids| && Fits(|txids|, h, pos, s) && NoTwins(hash, txids, h, pos, s)
    requires Holds(e, c, Emit(hash, txids, h, pos, s)) && !c.bad
    ensures ReadsBack(hash, txids, h, pos, e, c, Emit(hash, txids, h, pos, s), Marked(txids, h, pos, s))
    decreases s, 1
  {
    match s
    case Single(_) =>
      SingleReads(hash, txids, h, pos, s, e, c);
    case Open(_, _) =>
      OpenReads(hash, txids, h, pos, s, e, c);
    case _ =>
      EndReads(hash, txids, h, pos, s, e, c);
  }

  lemma EndReads(hash: PairHash, txids: seq<Digest>, h: nat, pos: nat, s: Shape, e: Encoded, c: Cursor)
    requires First(h, pos) < |txids| && (s.Leaf? || s.Closed?) && Fits(|txids|, h, pos, s)
    requires Holds(e, c, Emit(hash, txids, h, pos, s)) && !c.bad
    ensures ReadsBack(hash, txids, h, pos, e, c, Emit(hash, txids, h, pos, s), Marked(txids, h, pos, s))
  {
    var b := Emit(hash, txids, h, pos, s);
    assert e.bits[c.nBits..c.nBits + 1][0] == b.bits[0];
    assert e.hashes[c.nHash..c.nHash + 1][0] == b.hashes[0];
    assert c.matches + [] == c.matches;
  }

  lemma {:induction false} SingleReads(hash: PairHash, txids: seq<Digest>, h: nat, pos: nat, s: Shape,
                                       e: Encoded, c: Cursor)
    requires First(h, pos) < |txids| && s.Single? && Fits(|txids|, h, pos, s) && NoTwins(hash, txids, h, pos, s)
    requires Holds(e, c, Emit(hash, txids, h, pos, s)) && !c.bad
    ensures ReadsBack(hash, txids, h, pos, e, c, Emit(hash, txids, h, pos, s), Marked(txids, h, pos, s))
    decreases s, 0
  {
    Children(h, pos);
    var b, below := Emit(hash, txids, h, pos, s), Emit(hash, txids, h - 1, 2 * pos, s.child);
    assert b.bits == [true] + below.bits + [] && b.hashes == below.hashes + [];
    HoldsParts(e, c, b, below, Encoded([], []), []);
    ShapeReads(hash, txids, h - 1, 2 * pos, s.child, e, c.(nBits := c.nBits + 1));
    OneChild(hash, txids, h, pos, e, c, b, below, Marked(txids, h, pos, s));
  }

  lemma {:induction false} OpenReads(hash: PairHash, txids: seq<Digest>, h: nat, pos: nat, s: Shape,
                                     e: Encoded, c: Cursor)
    requires First(h, pos) < |txids| && s.Open? && Fits(|txids|, h, pos, s) && NoTwins(hash, txids, h, pos, s)
    requires Holds(e, c, Emit(hash, txids, h, pos, s)) && !c.bad
    ensures ReadsBack(hash, txids, h, pos, e, c, Emit(hash, txids, h, pos, s), Marked(txids, h, pos, s))
    decreases s, 0
  {
    Children(h, pos);
    NodeExists(|txids|, h - 1, 2 * pos + 1);
    var b, c1 := Emit(hash, txids, h, pos, s), c.(nBits := c.nBits + 1);
    var left, right := Emit(hash, txids, h - 1, 2 * pos, s.left), Emit(hash, txids, h - 1, 2 * pos + 1, s.right);
    var ml, mr := Marked(txids, h - 1, 2 * pos, s.left), Marked(txids, h - 1, 2 * pos + 1, s.right);
    HoldsParts(e, c, b, left, right, ml);
    ShapeReads(hash, txids, h - 1, 2 * pos, s.left, e, c1);
    ShapeReads(hash, txids, h - 1, 2 * pos + 1, s.right, e, Advanced(c1, left, ml));
    TwoChildren(hash, txids, h, pos, e, c, b, left, right, ml, mr);
  }

  /* ---- What is read is what some shape encodes ---- */

  // The traversal from c to c' read the encoding of a shape.
  ghost predicate Reads(hash: PairHash, txids: seq<Digest>, h: nat, pos: nat, e: Encoded, c: Cursor, c': Cursor,
                        s: Shape)
    requires First(h, pos) < |txids|
  {
    && Fits(|txids|, h, pos, s) && NoTwins(hash, txids, h, pos, s)
    && Holds(e, c, Emit(hash, txids, h, pos, s))
    && c' == Advanced(c, Emit(hash, txids, h, pos, s), Marked(txids, h, pos, s))
  }

  lemma JoinSlices<T>(s: seq<T>, i: nat, a: seq<T>, b: seq<T>)
    requires i + |a| + |b| <= |s| && s[i..i + |a|] == a && s[i + |a|..i + |a| + |b|] == b
    ensures s[i..i + |a + b|] == a + b
  {
    assert s[i..i + |a + b|] == s[i..i + |a|] + s[i + |a|..i + |a| + |b|];
  }

  lemma HoldsJoined(e: Encoded, c: Cursor, b: Encoded, left: Encoded, right: Encoded, matches: seq<Digest>)
    requires c.nBits < |e.bits| && e.bits[c.nBits] && Holds(e, c.(nBits := c.nBits + 1), left)
    requires Holds(e, Advanced(c.(nBits := c.nBits + 1), left, matches), right)
    requires b.bits == [true] + left.bits + right.bits && b.hashes == left.hashes + right.hashes
    ensures Holds(e, c, b)
  {
    JoinSlices(e.hashes, c.nHash, left.hashes, right.hashes);
    JoinSlices(e.bits, c.nBits + 1, left.bits, right.bits);
    assert e.bits[c.nBits..c.nBits + 1] == [true];
    JoinSlices(e.bits, c.nBits, [true], left.bits + right.bits);
    assert b.bits == [true] + (left.bits + right.bits);
  }

  lemma {:induction false} ShapeRead(hash: PairHash, txids: seq<Digest>, e: Encoded, h: nat, pos: nat, c: Cursor,
                                     r: Digest, c': Cursor)
    returns (s: Shape)
    requires Injective(hash) && First(h, pos) < |txids| && r == CalcHash(hash, txids, h, pos)
    requires Extract(hash, |txids|, e, h, pos, c) == (r, c') && !c'.bad
    ensures Reads(hash, txids, h, pos, e, c, c', s)
    decreases h, 2
  {
    if h > 0 && c.nBits < |e.bits| && e.bits[c.nBits] {
      var c1 := c.(nBits := c.nBits + 1);
      var (left, c2) := Extract(hash, |txids|, e, h - 1, 2 * pos, c1);
      if 2 * pos + 1 < Width(|txids|, h - 1) {
        var (right, c3) := Extract(hash, |txids|, e, h - 1, 2 * pos + 1, c2);
        GoodBefore(hash, |txids|, e, h - 1, 2 * pos + 1, c2);
        s := OpenRead(hash, txids, e, h, pos, c, left, c2, right, c3);
      } else {
        s := SingleRead(hash, txids, e, h, pos, c, left, c2);
      }
    } else {
      s := if h == 0 then Leaf(e.bits[c.nBits]) else Closed;
      assert e.bits[c.nBits..c.nBits + 1] == [e.bits[c.nBits]];
      assert e.hashes[c.nHash..c.nHash + 1] == [e.hashes[c.nHash]];
      ShlAdds(pos, 0, 0);
      assert c.matches + [] == c.matches;
    }
  }

  lemma {:induction false} SingleRead(hash: PairHash, txids: seq<Digest>, e: Encoded, h: nat, pos: nat, c: Cursor,
                                      left: Digest, c2: Cursor)
    returns (s: Shape)
    requires Injective(hash) && h > 0 && First(h, pos) < |txids| && 2 * pos + 1 >= Width(|txids|, h - 1)
    requires c.nBits < |e.bits| && e.bits[c.nBits]
    requires Extract(hash, |txids|, e, h - 1, 2 * pos, c.(nBits := c.nBits + 1)) == (left, c2) && !c2.bad
    requires hash(left, left) == CalcHash(hash, txids, h, pos)
    ensures Reads(hash, txids, h, pos, e, c, c2, s)
    decreases h, 0
  {
    ChildHashes(hash, txids, h, pos, left, left);
    Children(h, pos);
    var child := ShapeRead(hash, txids, e, h - 1, 2 * pos, c.(nBits := c.nBits + 1), left, c2);
    s := Single(child);
    var b, below := Emit(hash, txids, h, pos, s), Emit(hash, txids, h - 1, 2 * pos, child);
    assert b.bits == [true] + below.bits + [] && b.hashes == below.hashes + [];
    assert e.bits[c2.nBits..c2.nBits] == [] && e.hashes[c2.nHash..c2.nHash] == [];
    HoldsJoined(e, c, b, below, Encoded([], []), Marked(txids, h - 1, 2 * pos, child));
  }

  lemma {:induction false} OpenRead(hash: PairHash, txids: seq<Digest>, e: Encoded, h: nat, pos: nat, c: Cursor,
                                    left: Digest, c2: Cursor, right: Digest, c3: Cursor)
    returns (s: Shape)
    requires Injective(hash) && h > 0 && First(h, pos) < |txids| && 2 * pos + 1 < Width(|txids|, h - 1)
    requires c.nBits < |e.bits| && e.bits[c.nBits]
    requires Extract(hash, |txids|, e, h - 1, 2 * pos, c.(nBits := c.nBits + 1)) == (left, c2) && !c2.bad
    requires Extract(hash, |txids|, e, h - 1, 2 * pos + 1, c2) == (right, c3) && !c3.bad && left != right
    requires hash(left, right) == CalcHash(hash, txids, h, pos)
    ensures Reads(hash, txids, h, pos, e, c, c3, s)
    decreases h, 1
  {
    NodeExists(|txids|, h - 1, 2 * pos + 1);
    ChildHashes(hash, txids, h, pos, left, right);
    s := BothRead(hash, txids, e, h, pos, c, left, c2, right, c3);
  }

  lemma {:induction false} BothRead(hash: PairHash, txids: seq<Digest>, e: Encoded, h: nat, pos: nat, c: Cursor,
                                    left: Digest, c2: Cursor, right: Digest, c3: Cursor)
    returns (s: Shape)
    requires Injective(hash) && h > 0 && First(h, pos) < |txids| && 2 * pos + 1 < Width(|txids|, h - 1)
    requires First(h - 1, 2 * pos) < |txids| && First(h - 1, 2 * pos + 1) < |txids|
    requires c.nBits < |e.bits| && e.bits[c.nBits]
    requires Extract(hash, |txids|, e, h - 1, 2 * pos, c.(nBits := c.nBits + 1)) == (left, c2) && !c2.bad
    requires Extract(hash, |txids|, e, h - 1, 2 * pos + 1, c2) == (right, c3) && !c3.bad && left != right
    requires left == CalcHash(hash, txids, h - 1, 2 * pos) && right == CalcHash(hash, txids, h - 1, 2 * pos + 1)
    ensures Reads(hash, txids, h, pos, e, c, c3, s)
    decreases h, 0
  {
    var l := ShapeRead(hash, txids, e, h - 1, 2 * pos, c.(nBits := c.nBits + 1), left, c2);
    var r := ShapeRead(hash, txids, e, h - 1, 2 * pos + 1, c2, right, c3);
    s := Open(l, r);
    OpenJoins(hash, txids, e, h, pos, c, c2, c3, l, r);
  }

  lemma OpenJoins(hash: PairHash, txids: seq<Digest>, e: Encoded, h: nat, pos: nat, c: Cursor, c2: Cursor, c3: Cursor,
                  l: Shape, r: Shape)
    requires h > 0 && First(h, pos) < |txids| && 2 * pos + 1 < Width(|txids|, h - 1)
    requires First(h - 1, 2 * pos) < |txids| && First(h - 1, 2 * pos + 1) < |txids|
    requires c.nBits < |e.bits| && e.bits[c.nBits]
    requires CalcHash(hash, txids, h - 1, 2 * pos) != CalcHash(hash, txids, h - 1, 2 * pos + 1)
    requires Reads(hash, txids, h - 1, 2 * pos, e, c.(nBits := c.nBits + 1), c2, l)
    requires Reads(hash, txids, h - 1, 2 * pos + 1, e, c2, c3, r)
    ensures Reads(hash, txids, h, pos, e, c, c3, Open(l, r))
  {
    var b := Emit(hash, txids, h, pos, Open(l, r));
    var left, right := Emit(hash, txids, h - 1, 2 * pos, l), Emit(hash, txids, h - 1, 2 * pos + 1, r);
    var ml, mr := Marked(txids, h - 1, 2 * pos, l), Marked(txids, h - 1, 2 * pos + 1, r);
    HoldsJoined(e, c, b, left, right, ml);
    AdvancedTwice(c, b, left, right, ml, mr);
  }

  /* ---- Whole trees ---- */

  // e is the encoding of a pruned tree over all transactions, up to the padding of the last byte.
  ghost predicate Encodes(hash: PairHash, txids: seq<Digest>, e: Encoded, s: Shape)
    requires txids != [] && First(Height(|txids|), 0) < |txids|
  {
    && Fits(|txids|, Height(|txids|), 0, s) && NoTwins(hash, txids, Height(|txids|), 0, s)
    && var b := Emit(hash, txids, Height(|txids|), 0, s);
       e.hashes == b.hashes && b.bits <= e.bits && (|b.bits| + 7) / 8 == (|e.bits| + 7) / 8
  }

  // An accepted tree is the encoding of a pruned one.
  lemma AcceptedIsPruned(hash: PairHash, txids: seq<Digest>, e: Encoded) returns (s: Shape)
    requires Injective(hash) && txids != [] && MerkleRoot(hash, txids) != 0
    requires ExtractMatches(hash, |txids|, e, false).0 == MerkleRoot(hash, txids)
    ensures First(Height(|txids|), 0) < |txids| && Encodes(hash, txids, e, s)
    ensures ExtractMatches(hash, |txids|, e, false).1 == Marked(txids, Height(|txids|), 0, s)
  {
    var h := Height(|txids|);
    RootRange(|txids|);
    var (r, c) := Extract(hash, |txids|, e, h, 0, START);
    s := ShapeRead(hash, txids, e, h, 0, START, r, c);
    var b := Emit(hash, txids, h, 0, s);
    assert e.hashes[..|b.hashes|] == e.hashes && e.bits[0..|b.bits|] == e.bits[..|b.bits|];
    assert [] + Marked(txids, h, 0, s) == Marked(txids, h, 0, s);
  }

  // And every such encoding is accepted, and yields the marked transactions.
  lemma PrunedIsAccepted(hash: PairHash, txids: seq<Digest>, e: Encoded, s: Shape)
    requires txids != [] && |txids| <= MAX_BLOCK_SERIALIZED_SIZE / 60
    requires First(Height(|txids|), 0) < |txids| && Encodes(hash, txids, e, s)
    ensures ExtractMatches(hash, |txids|, e, false)
         == (MerkleRoot(hash, txids), Marked(txids, Height(|txids|), 0, s))
  {
    var h := Height(|txids|);
    var b := Emit(hash, txids, h, 0, s);
    RootRange(|txids|);
    ShapeSizes(hash, txids, h, 0, s);
    assert Holds(e, START, b) by {
      assert e.hashes[0..|b.hashes|] == b.hashes && e.bits[0..|b.bits|] == b.bits;
    }
    ShapeReads(hash, txids, h, 0, s, e, START);
    assert [] + Marked(txids, h, 0, s) == Marked(txids, h, 0, s);
  }

  // No more hashes than transactions, and no fewer bits than hashes.
  lemma {:induction false} ShapeSizes(hash: PairHash, txids: seq<Digest>, h: nat, pos: nat, s: Shape)
    requires First(h, pos) < |txids| && Fits(|txids|, h, pos, s)
    ensures var b := Emit(hash, txids, h, pos, s);
      |b.hashes| <= End(|txids|, h, pos) - First(h, pos) && |b.hashes| <= |b.bits|
    decreases s
  {
    match s
    case Single(child) =>
      ChildRanges(|txids|, h, pos);
      ShapeSizes(hash, txids, h - 1, 2 * pos, child);
    case Open(left, right) =>
      ChildRanges(|txids|, h, pos);
      ShapeSizes(hash, txids, h - 1, 2 * pos, left);
      ShapeSizes(hash, txids, h - 1, 2 * pos + 1, right);
    case _ =>
      ShlAdds(pos, 1, h);
      ShlGrows(h);
  }

  // What is refused whatever the hashes: a tree marked as bad, over no transactions or too many, or with
  // more hashes than transactions.
  lemma RefusedOutright(hash: PairHash, n: nat, e: Encoded, fBad: bool)
    requires fBad || n == 0 || n > MAX_BLOCK_SERIALIZED_SIZE / 60 || |e.hashes| > n
    ensures ExtractMatches(hash, n, e, fBad).0 == 0
  {
    if fBad && n > 0 {
      BadStays(hash, n, e, Height(n), 0, START.(bad := fBad));
    }
  }

  /* ---- The trees the program builds ---- */

  // Open exactly above matches.
  function ShapeOf(n: nat, mask: seq<bool>, h: nat, pos: nat): (s: Shape) {
    var parentOfMatch := AnyMatch(mask, First(h, pos), First(h, pos + 1));
    if h == 0 then Leaf(parentOfMatch)
    else if !parentOfMatch then Closed
    else if 2 * pos + 1 < Width(n, h - 1) then
      Open(ShapeOf(n, mask, h - 1, 2 * pos), ShapeOf(n, mask, h - 1, 2 * pos + 1))
    else Single(ShapeOf(n, mask, h - 1, 2 * pos))
  }

  lemma {:induction false} BuildIsPruned(hash: PairHash, txids: seq<Digest>, mask: seq<bool>, h: nat, pos: nat)
    requires First(h, pos) < |txids| == |mask|
    ensures var s := ShapeOf(|txids|, mask, h, pos);
      Fits(|txids|, h, pos, s) && Emit(hash, txids, h, pos, s) == Build(hash, txids, mask, h, pos)
    decreases h
  {
    if h > 0 && AnyMatch(mask, First(h, pos), First(h, pos + 1)) {
      Children(h, pos);
      NodeExists(|txids|, h - 1, 2 * pos + 1);
      BuildIsPruned(hash, txids, mask, h - 1, 2 * pos);
      if 2 * pos + 1 < Width(|txids|, h - 1) {
        BuildIsPruned(hash, txids, mask, h - 1, 2 * pos + 1);
      }
    }
  }

  predicate HasMark(s: Shape) {
    match s
    case Leaf(matched) => matched
    case Closed => false
    case Single(child) => HasMark(child)
    case Open(left, right) => HasMark(left) || HasMark(right)
  }

  // Every open node has a marked leaf under it.
  predicate Tight(s: Shape) {
    match s
    case Leaf(_) => true
    case Closed => true
    case Single(child) => HasMark(child) && Tight(child)
    case Open(left, right) => (HasMark(left) || HasMark(right)) && Tight(left) && Tight(right)
  }

  // The positions of the marked leaves.
  function Marks(h: nat, pos: nat, s: Shape): (r: set<nat>)
    decreases s
  {
    match s
    case Leaf(matched) => if matched then {pos} else {}
    case Closed => {}
    case Single(child) => if h == 0 then {} else Marks(h - 1, 2 * pos, child)
    case Open(left, right) => if h == 0 then {} else Marks(h - 1, 2 * pos, left) + Marks(h - 1, 2 * pos + 1, right)
  }

  // The marks are under the node.
  lemma {:induction false} MarksWithin(n: nat, h: nat, pos: nat, s: Shape)
    requires First(h, pos) < n && Fits(n, h, pos, s)
    ensures forall p :: p in Marks(h, pos, s) ==> First(h, pos) <= p < End(n, h, pos)
    ensures HasMark(s) <==> Marks(h, pos, s) != {}
    decreases s
  {
    match s
    case Leaf(_) =>
      ShlAdds(pos, 1, 0);
      ShlAdds(pos, 0, 0);
    case Closed =>
    case Single(child) =>
      ChildRanges(n, h, pos);
      MarksWithin(n, h - 1, 2 * pos, child);
    case Open(left, right) =>
      ChildRanges(n, h, pos);
      MarksWithin(n, h - 1, 2 * pos, left);
      MarksWithin(n, h - 1, 2 * pos + 1, right);
  }

  // Under the node the mask is that of the marked leaves.
  ghost predicate Agrees(mask: seq<bool>, h: nat, pos: nat, s: Shape) {
    forall p :: First(h, pos) <= p < End(|mask|, h, pos) && p < |mask| ==> (mask[p] <==> p in Marks(h, pos, s))
  }

  lemma MarkIsMatch(mask: seq<bool>, h: nat, pos: nat, s: Shape)
    requires First(h, pos) < |mask| && Fits(|mask|, h, pos, s) && Agrees(mask, h, pos, s)
    ensures AnyMatch(mask, First(h, pos), First(h, pos + 1)) <==> HasMark(s)
  {
    MarksWithin(|mask|, h, pos, s);
    if HasMark(s) {
      var p :| p in Marks(h, pos, s);
      assert mask[p];
    }
  }

  lemma OpenAgrees(mask: seq<bool>, h: nat, pos: nat, left: Shape, right: Shape)
    requires First(h, pos) < |mask| && Fits(|mask|, h, pos, Open(left, right))
    requires Agrees(mask, h, pos, Open(left, right))
    ensures First(h - 1, 2 * pos) < |mask| && First(h - 1, 2 * pos + 1) < |mask|
    ensures Agrees(mask, h - 1, 2 * pos, left) && Agrees(mask, h - 1, 2 * pos + 1, right)
  {
    ChildRanges(|mask|, h, pos);
    MarksWithin(|mask|, h - 1, 2 * pos, left);
    MarksWithin(|mask|, h - 1, 2 * pos + 1, right);
  }

  lemma {:induction false} TightIsShapeOf(mask: seq<bool>, h: nat, pos: nat, s: Shape)
    requires First(h, pos) < |mask| && Fits(|mask|, h, pos, s) && Agrees(mask, h, pos, s) && Tight(s)
    ensures s == ShapeOf(|mask|, mask, h, pos)
    decreases s
  {
    MarkIsMatch(mask, h, pos, s);
    match s
    case Single(child) =>
      ChildRanges(|mask|, h, pos);
      TightIsShapeOf(mask, h - 1, 2 * pos, child);
    case Open(left, right) =>
      OpenAgrees(mask, h, pos, left, right);
      TightIsShapeOf(mask, h - 1, 2 * pos, left);
      TightIsShapeOf(mask, h - 1, 2 * pos + 1, right);
    case _ =>
  }

  lemma {:induction false} ShapeOfIsTight(mask: seq<bool>, h: nat, pos: nat)
    requires First(h, pos) < |mask|
    ensures Tight(ShapeOf(|mask|, mask, h, pos))
    ensures HasMark(ShapeOf(|mask|, mask, h, pos)) <==> AnyMatch(mask, First(h, pos), First(h, pos + 1))
    decreases h
  {
    if h > 0 && AnyMatch(mask, First(h, pos), First(h, pos + 1)) {
      ChildRanges(|mask|, h, pos);
      Children(h, pos);
      var mid := First(h - 1, 2 * pos + 1);
      ShapeOfIsTight(mask, h - 1, 2 * pos);
      if 2 * pos + 1 < Width(|mask|, h - 1) {
        ShapeOfIsTight(mask, h - 1, 2 * pos + 1);
        assert AnyMatch(mask, First(h, pos), First(h, pos + 1))
          <==> AnyMatch(mask, First(h, pos), mid) || AnyMatch(mask, mid, First(h, pos + 1));
      } else {
        assert AnyMatch(mask, First(h, pos), First(h, pos + 1)) <==> AnyMatch(mask, First(h, pos), mid);
      }
    }
  }

  function Flags(s: Shape): (r: seq<bool>) {
    match s
    case Leaf(matched) => [matched]
    case Closed => [false]
    case Single(child) => [true] + Flags(child)
    case Open(left, right) => [true] + (Flags(left) + Flags(right))
  }

  lemma {:induction false} EmitsFlags(hash: PairHash, txids: seq<Digest>, h: nat, pos: nat, s: Shape)
    requires First(h, pos) < |txids| && Fits(|txids|, h, pos, s)
    ensures Emit(hash, txids, h, pos, s).bits == Flags(s)
    decreases s
  {
    match s
    case Single(child) =>
      Children(h, pos);
      EmitsFlags(hash, txids, h - 1, 2 * pos, child);
    case Open(left, right) =>
      Children(h, pos);
      NodeExists(|txids|, h - 1, 2 * pos + 1);
      EmitsFlags(hash, txids, h - 1, 2 * pos, left);
      EmitsFlags(hash, txids, h - 1, 2 * pos + 1, right);
    case _ =>
  }

  lemma Heads(a: seq<bool>, b: seq<bool>, x: seq<bool>, y: seq<bool>)
    requires a != [] && b != [] && a + x == b + y
    ensures a[0] == b[0] && a[1..] + x == b[1..] + y
  {
    assert (a + x)[0] == a[0] && (b + y)[0] == b[0];
    assert (a + x)[1..] == a[1..] + x && (b + y)[1..] == b[1..] + y;
  }

  // The flag bits say which shape it is.
  lemma {:induction false} FlagsDecide(n: nat, h: nat, pos: nat, s: Shape, t: Shape, x: seq<bool>, y: seq<bool>)
    requires Fits(n, h, pos, s) && Fits(n, h, pos, t) && Flags(s) + x == Flags(t) + y
    ensures s == t && x == y
    decreases s
  {
    Heads(Flags(s), Flags(t), x, y);
    match s
    case Single(child) =>
      FlagsDecide(n, h - 1, 2 * pos, child, t.child, x, y);
    case Open(left, right) =>
      assert Flags(left) + (Flags(right) + x) == Flags(s)[1..] + x;
      assert Flags(t.left) + (Flags(t.right) + y) == Flags(t)[1..] + y;
      FlagsDecide(n, h - 1, 2 * pos, left, t.left, Flags(right) + x, Flags(t.right) + y);
      FlagsDecide(n, h - 1, 2 * pos + 1, right, t.right, x, y);
    case _ =>
      assert Flags(s)[1..] + x == x && Flags(t)[1..] + y == y;
  }

  // An encoding is one the program builds if and only if every open node has a match under it.
  lemma BuiltIffTight(hash: PairHash, txids: seq<Digest>, s: Shape)
    requires txids != [] && First(Height(|txids|), 0) < |txids| && Fits(|txids|, Height(|txids|), 0, s)
    ensures Tight(s) <==> exists mask :: |mask| == |txids|
                            && BuildTree(hash, txids, mask) == Emit(hash, txids, Height(|txids|), 0, s)
  {
    var n, h := |txids|, Height(|txids|);
    if Tight(s) {
      var mask := TightIsBuilt(hash, txids, h, s);
      assert BuildTree(hash, txids, mask) == Emit(hash, txids, h, 0, s);
    }
    if mask :| |mask| == n && BuildTree(hash, txids, mask) == Emit(hash, txids, h, 0, s) {
      BuiltIsTight(hash, txids, h, s, mask);
    }
  }

  lemma TightIsBuilt(hash: PairHash, txids: seq<Digest>, h: nat, s: Shape) returns (mask: seq<bool>)
    requires First(h, 0) < |txids| && Fits(|txids|, h, 0, s) && Tight(s)
    ensures |mask| == |txids| && Build(hash, txids, mask, h, 0) == Emit(hash, txids, h, 0, s)
  {
    var n := |txids|;
    mask := seq(n, p requires 0 <= p < n => p in Marks(h, 0, s));
    TightIsShapeOf(mask, h, 0, s);
    BuildIsPruned(hash, txids, mask, h, 0);
  }

  lemma BuiltIsTight(hash: PairHash, txids: seq<Digest>, h: nat, s: Shape, mask: seq<bool>)
    requires First(h, 0) < |txids| == |mask| && Fits(|txids|, h, 0, s)
    requires Build(hash, txids, mask, h, 0) == Emit(hash, txids, h, 0, s)
    ensures Tight(s)
  {
    var t := ShapeOf(|txids|, mask, h, 0);
    BuildIsPruned(hash, txids, mask, h, 0);
    ShapeOfIsTight(mask, h, 0);
    EmitsFlags(hash, txids, h, 0, s);
    EmitsFlags(hash, txids, h, 0, t);
    FlagsDecide(|txids|, h, 0, s, t, [], []);
  }

  // Two transactions, shown one by one though none is matched, are accepted; the program would have
  // shown the root alone.
  lemma LooseTree(hash: PairHash, a: Digest, b: Digest)
    requires a != b && hash(a, b) != 0
    ensures var e := Encoded([true, false, false], [a, b]);
      && ExtractMatches(hash, 2, e, false) == (MerkleRoot(hash, [a, b]), [])
      && BuildTree(hash, [a, b], [false, false]) == Encoded([false], [MerkleRoot(hash, [a, b])])
  {
    var txids, s := [a, b], Open(Leaf(false), Leaf(false));
    TwoIsOneHigh();
    RootRange(2);
    NodeExists(2, 0, 1);
    assert Emit(hash, txids, 0, 0, Leaf(false)) == Encoded([false], [a]);
    assert Emit(hash, txids, 0, 1, Leaf(false)) == Encoded([false], [b]);
    var e := Emit(hash, txids, 1, 0, s);
    assert e == Encoded([true, false, false], [a, b]);
    assert Marked(txids, 0, 0, Leaf(false)) == Marked(txids, 0, 1, Leaf(false)) == [];
    assert Marked(txids, 1, 0, s) == [];
    PrunedIsAccepted(hash, txids, e, s);
  }

  lemma TwoIsOneHigh()
    ensures Width(2, 0) == 2 && Width(2, 1) == 1 && Height(2) == 1
  {
    ShlAdds(0, 0, 0);
    ShlAdds(0, 0, 1);
    NodeExists(2, 0, 1);
    NodeExists(2, 0, 2);
    NodeExists(2, 1, 0);
    NodeExists(2, 1, 1);
  }

  /* ---- The bytes ---- */

  lemma {:induction false} ShiftedBit(x: nat, b: nat)
    ensures Shr(x, b) % 2 == if Bit(x, b) then 1 else 0
    decreases b
  {
    if b > 0 {
      ShiftedBit(x / 2, b - 1);
    }
  }

  // Bit p is worth 2^(p % 8) in byte p / 8.
  lemma PackedWeight(bits: seq<bool>, p: nat)
    requires p < 8 * ((|bits| + 7) / 8)
    ensures Shr(Pack(bits)[p / 8], p % 8) % 2 == if p < |bits| && bits[p] then 1 else 0
  {
    PackedBit(bits, |bits|, p);
    AndMask(Pack(bits)[p / 8], p % 8);
    ShiftedBit(Pack(bits)[p / 8], p % 8);
  }
}
