/** A partial tree proves what it claims, and every selection of transactions can be claimed. */
module PartialMerkleProofs {
  import opened Bits
  import opened Helpers
  import opened PartialMerkle

  /* ---- Soundness ---- */

  ghost predicate Increasing(idx: seq<nat>) {
    forall i, j :: 0 <= i < j < |idx| ==> idx[i] < idx[j]
  }

  ghost predicate Within(idx: seq<nat>, lo: nat, hi: nat) {
    forall i :: 0 <= i < |idx| ==> lo <= idx[i] < hi
  }

  function Select(txids: seq<Digest>, idx: seq<nat>): (r: seq<Digest>)
    requires Within(idx, 0, |txids|)
  {
    seq(|idx|, i requires 0 <= i < |idx| => txids[idx[i]])
  }

  lemma {:induction false} BadStays(hash: PairHash, n: nat, e: Encoded, h: nat, pos: nat, c: Cursor)
    requires c.bad
    ensures Extract(hash, n, e, h, pos, c).1.bad
  {
    if c.nBits < |e.bits| && h > 0 && e.bits[c.nBits] {
      var c1 := c.(nBits := c.nBits + 1);
      BadStays(hash, n, e, h - 1, 2 * pos, c1);
      BadStays(hash, n, e, h - 1, 2 * pos + 1, Extract(hash, n, e, h - 1, 2 * pos, c1).1);
    }
  }

  lemma GoodBefore(hash: PairHash, n: nat, e: Encoded, h: nat, pos: nat, c: Cursor)
    ensures !Extract(hash, n, e, h, pos, c).1.bad ==> !c.bad
  {
    if c.bad {
      BadStays(hash, n, e, h, pos, c);
    }
  }

  // An injective pair hash gives the children's hashes away.
  lemma ChildHashes(hash: PairHash, txids: seq<Digest>, h: nat, pos: nat, left: Digest, right: Digest)
    requires Injective(hash) && h > 0 && First(h, pos) < |txids|
    requires hash(left, right) == CalcHash(hash, txids, h, pos)
    ensures First(h - 1, 2 * pos) < |txids| && left == CalcHash(hash, txids, h - 1, 2 * pos)
    ensures First(h - 1, 2 * pos + 1) < |txids| ==> right == CalcHash(hash, txids, h - 1, 2 * pos + 1)
  {
    Children(h, pos);
    NodeExists(|txids|, h - 1, 2 * pos + 1);
  }

  // What a traversal that ended well in the hash of a node has found: transactions under that
  // node, in their order.
  ghost predicate Found(txids: seq<Digest>, h: nat, pos: nat, c: Cursor, c': Cursor, idx: seq<nat>) {
    && Increasing(idx) && Within(idx, First(h, pos), End(|txids|, h, pos))
    && c'.matches == c.matches + Select(txids, idx)
  }

  lemma JoinFound(txids: seq<Digest>, h: nat, pos: nat, c1: Cursor, c2: Cursor, c3: Cursor, a: seq<nat>, b: seq<nat>)
    requires h > 0 && First(h - 1, 2 * pos + 1) < |txids|
    requires Found(txids, h - 1, 2 * pos, c1, c2, a) && Found(txids, h - 1, 2 * pos + 1, c2, c3, b)
    ensures Found(txids, h, pos, c1, c3, a + b)
  {
    Children(h, pos);
    assert Select(txids, a + b) == Select(txids, a) + Select(txids, b);
    assert c1.matches + (Select(txids, a) + Select(txids, b)) == (c1.matches + Select(txids, a)) + Select(txids, b);
  }

  lemma {:induction false} ExtractSound(hash: PairHash, txids: seq<Digest>, e: Encoded, h: nat, pos: nat, c: Cursor)
    returns (idx: seq<nat>)
    requires Injective(hash) && First(h, pos) < |txids|
    requires var (r, c') := Extract(hash, |txids|, e, h, pos, c); !c'.bad && r == CalcHash(hash, txids, h, pos)
    ensures Found(txids, h, pos, c, Extract(hash, |txids|, e, h, pos, c).1, idx)
    decreases h, 2
  {
    var c1 := c.(nBits := c.nBits + 1);
    if h > 0 && e.bits[c.nBits] {
      var (left, c2) := Extract(hash, |txids|, e, h - 1, 2 * pos, c1);
      if 2 * pos + 1 < Width(|txids|, h - 1) {
        var (right, c3) := Extract(hash, |txids|, e, h - 1, 2 * pos + 1, c2);
        GoodBefore(hash, |txids|, e, h - 1, 2 * pos + 1, c2);
        idx := TwoSound(hash, txids, e, h, pos, c1, left, c2, right, c3);
      } else {
        idx := OneSound(hash, txids, e, h, pos, c1, left, c2);
      }
    } else {
      idx := if h == 0 && e.bits[c.nBits] then [pos] else [];
    }
  }

  lemma {:induction false} OneSound(hash: PairHash, txids: seq<Digest>, e: Encoded, h: nat, pos: nat,
                                    c1: Cursor, left: Digest, c2: Cursor)
    returns (idx: seq<nat>)
    requires Injective(hash) && h > 0 && First(h, pos) < |txids| && 2 * pos + 1 >= Width(|txids|, h - 1)
    requires Extract(hash, |txids|, e, h - 1, 2 * pos, c1) == (left, c2) && !c2.bad
    requires hash(left, left) == CalcHash(hash, txids, h, pos)
    ensures Found(txids, h, pos, c1, c2, idx)
    decreases h, 1
  {
    ChildHashes(hash, txids, h, pos, left, left);
    Children(h, pos);
    NodeExists(|txids|, h - 1, 2 * pos + 1);
    idx := ExtractSound(hash, txids, e, h - 1, 2 * pos, c1);
  }

  lemma {:induction false} TwoSound(hash: PairHash, txids: seq<Digest>, e: Encoded, h: nat, pos: nat,
                                    c1: Cursor, left: Digest, c2: Cursor, right: Digest, c3: Cursor)
    returns (idx: seq<nat>)
    requires Injective(hash) && h > 0 && First(h, pos) < |txids| && 2 * pos + 1 < Width(|txids|, h - 1)
    requires Extract(hash, |txids|, e, h - 1, 2 * pos, c1) == (left, c2) && !c2.bad
    requires Extract(hash, |txids|, e, h - 1, 2 * pos + 1, c2) == (right, c3) && !c3.bad
    requires hash(left, right) == CalcHash(hash, txids, h, pos)
    ensures Found(txids, h, pos, c1, c3, idx)
    decreases h, 1
  {
    NodeExists(|txids|, h - 1, 2 * pos + 1);
    ChildHashes(hash, txids, h, pos, left, right);
    idx := BothSound(hash, txids, e, h, pos, c1, left, c2, right, c3);
  }

  lemma {:induction false} BothSound(hash: PairHash, txids: seq<Digest>, e: Encoded, h: nat, pos: nat,
                                     c1: Cursor, left: Digest, c2: Cursor, right: Digest, c3: Cursor)
    returns (idx: seq<nat>)
    requires Injective(hash) && h > 0 && First(h - 1, 2 * pos) < |txids| && First(h - 1, 2 * pos + 1) < |txids|
    requires Extract(hash, |txids|, e, h - 1, 2 * pos, c1) == (left, c2) && !c2.bad
    requires Extract(hash, |txids|, e, h - 1, 2 * pos + 1, c2) == (right, c3) && !c3.bad
    requires left == CalcHash(hash, txids, h - 1, 2 * pos) && right == CalcHash(hash, txids, h - 1, 2 * pos + 1)
    ensures Found(txids, h, pos, c1, c3, idx)
    decreases h, 0
  {
    var a := ExtractSound(hash, txids, e, h - 1, 2 * pos, c1);
    var b := ExtractSound(hash, txids, e, h - 1, 2 * pos + 1, c2);
    JoinFound(txids, h, pos, c1, c2, c3, a, b);
    idx := a + b;
  }

  // If a partial tree of any origin extracts to the Merkle root of a list of as many transactions,
  // every extracted match is in that list, and they appear in list order.
  lemma ExtractMatchesSound(hash: PairHash, txids: seq<Digest>, e: Encoded, fBad: bool) returns (idx: seq<nat>)
    requires Injective(hash) && txids != [] && MerkleRoot(hash, txids) != 0
    requires ExtractMatches(hash, |txids|, e, fBad).0 == MerkleRoot(hash, txids)
    ensures Increasing(idx) && Within(idx, 0, |txids|)
    ensures ExtractMatches(hash, |txids|, e, fBad).1 == Select(txids, idx)
  {
    ShlAdds(0, 0, Height(|txids|));
    idx := ExtractSound(hash, txids, e, Height(|txids|), 0, START.(bad := fBad));
    assert [] + Select(txids, idx) == Select(txids, idx);
  }

  /* ---- Completeness ---- */

  ghost predicate Distinct(txids: seq<Digest>) {
    forall i, j :: 0 <= i < j < |txids| ==> txids[i] != txids[j]
  }

  // With distinct transactions, distinct nodes of one height have distinct hashes.
  lemma {:induction false} HashesDiffer(hash: PairHash, txids: seq<Digest>, h: nat, p: nat, q: nat)
    requires Injective(hash) && Distinct(txids) && First(h, p) < |txids| && First(h, q) < |txids| && p != q
    ensures CalcHash(hash, txids, h, p) != CalcHash(hash, txids, h, q)
  {
    if h > 0 {
      Children(h, p);
      Children(h, q);
      HashesDiffer(hash, txids, h - 1, 2 * p, 2 * q);
    }
  }

  // The matched transactions from lo up to hi, in order.
  function Matched(txids: seq<Digest>, mask: seq<bool>, lo: nat, hi: nat): (r: seq<Digest>)
    requires hi <= |txids| == |mask|
    decreases hi - lo
  {
    if lo >= hi then []
    else (if mask[lo] then [txids[lo]] else []) + Matched(txids, mask, lo + 1, hi)
  }

  lemma {:induction false} MatchedSplit(txids: seq<Digest>, mask: seq<bool>, lo: nat, mid: nat, hi: nat)
    requires lo <= mid <= hi <= |txids| == |mask|
    ensures Matched(txids, mask, lo, hi) == Matched(txids, mask, lo, mid) + Matched(txids, mask, mid, hi)
    decreases mid - lo
  {
    if lo < mid {
      MatchedSplit(txids, mask, lo + 1, mid, hi);
    }
  }

  lemma {:induction false} NoneMatched(txids: seq<Digest>, mask: seq<bool>, lo: nat, hi: nat)
    requires hi <= |txids| == |mask|
    ensures Matched(txids, mask, lo, hi) == [] <==> !AnyMatch(mask, lo, hi)
    decreases hi - lo
  {
    if lo < hi {
      NoneMatched(txids, mask, lo + 1, hi);
      assert AnyMatch(mask, lo, hi) <==> mask[lo] || AnyMatch(mask, lo + 1, hi);
    }
  }

  // e holds b from the cursor on.
  ghost predicate Holds(e: Encoded, c: Cursor, b: Encoded) {
    && c.nBits + |b.bits| <= |e.bits| && e.bits[c.nBits..c.nBits + |b.bits|] == b.bits
    && c.nHash + |b.hashes| <= |e.hashes| && e.hashes[c.nHash..c.nHash + |b.hashes|] == b.hashes
  }

  function Advanced(c: Cursor, b: Encoded, matches: seq<Digest>): (r: Cursor) {
    Cursor(c.nBits + |b.bits|, c.nHash + |b.hashes|, c.matches + matches, c.bad)
  }

  lemma SliceSplit<T>(s: seq<T>, i: nat, a: seq<T>, b: seq<T>)
    requires i + |a + b| <= |s| && s[i..i + |a + b|] == a + b
    ensures s[i..i + |a|] == a && s[i + |a|..i + |a| + |b|] == b
  {
    assert s[i..i + |a|] == s[i..i + |a + b|][..|a|] == (a + b)[..|a|];
    assert s[i + |a|..i + |a| + |b|] == s[i..i + |a + b|][|a|..] == (a + b)[|a|..];
  }

  lemma HoldsParts(e: Encoded, c: Cursor, b: Encoded, left: Encoded, right: Encoded, matches: seq<Digest>)
    requires Holds(e, c, b) && b.bits == [true] + left.bits + right.bits && b.hashes == left.hashes + right.hashes
    ensures c.nBits < |e.bits| && e.bits[c.nBits]
    ensures Holds(e, c.(nBits := c.nBits + 1), left)
    ensures Holds(e, Advanced(c.(nBits := c.nBits + 1), left, matches), right)
  {
    assert b.bits == [true] + (left.bits + right.bits);
    HoldsHead(e.bits, c.nBits, left.bits + right.bits);
    SliceSplit(e.bits, c.nBits + 1, left.bits, right.bits);
    SliceSplit(e.hashes, c.nHash, left.hashes, right.hashes);
  }

  lemma HoldsHead(s: seq<bool>, i: nat, rest: seq<bool>)
    requires i + 1 + |rest| <= |s| && s[i..i + 1 + |rest|] == [true] + rest
    ensures s[i] && s[i + 1..i + 1 + |rest|] == rest
  {
    SliceSplit(s, i, [true], rest);
    assert s[i..i + 1][0] == s[i];
  }

  // Reading back what was built under a node yields the node's hash and the matches under it, uses
  // up exactly what was built, and raises no alarm.
  lemma {:induction false} ExtractBuilt(hash: PairHash, txids: seq<Digest>, mask: seq<bool>, h: nat, pos: nat,
                                        e: Encoded, c: Cursor)
    requires Injective(hash) && Distinct(txids) && First(h, pos) < |txids| == |mask|
    requires Holds(e, c, Build(hash, txids, mask, h, pos)) && !c.bad
    ensures ReadsBack(hash, txids, h, pos, e, c, Build(hash, txids, mask, h, pos),
                      Matched(txids, mask, First(h, pos), End(|txids|, h, pos)))
    decreases h, 2
  {
    var lo, hi := First(h, pos), First(h, pos + 1);
    EndMatches(mask, lo, hi, End(|txids|, h, pos));
    ShlAdds(pos, 1, h);
    ShlGrows(h);
    if h > 0 && AnyMatch(mask, lo, hi) {
      InnerBuilt(hash, txids, mask, h, pos, e, c);
    } else {
      LeafBuilt(hash, txids, mask, h, pos, e, c);
    }
  }

  lemma EndMatches(mask: seq<bool>, lo: nat, hi: nat, end: nat)
    requires end == if hi < |mask| then hi else |mask|
    ensures AnyMatch(mask, lo, hi) <==> AnyMatch(mask, lo, end)
  {
  }

  lemma LeafBuilt(hash: PairHash, txids: seq<Digest>, mask: seq<bool>, h: nat, pos: nat, e: Encoded, c: Cursor)
    requires First(h, pos) < |txids| == |mask|
    requires h == 0 || !AnyMatch(mask, First(h, pos), First(h, pos + 1))
    requires Holds(e, c, Build(hash, txids, mask, h, pos)) && !c.bad
    ensures ReadsBack(hash, txids, h, pos, e, c, Build(hash, txids, mask, h, pos),
                      Matched(txids, mask, First(h, pos), End(|txids|, h, pos)))
  {
    var b := Build(hash, txids, mask, h, pos);
    assert e.bits[c.nBits] == b.bits[0] && e.hashes[c.nHash] == b.hashes[0] by {
      assert e.bits[c.nBits..c.nBits + 1][0] == b.bits[0];
      assert e.hashes[c.nHash..c.nHash + 1][0] == b.hashes[0];
    }
    assert Matched(txids, mask, First(h, pos), End(|txids|, h, pos)) == if b.bits[0] then [txids[pos]] else [] by {
      NoneMatched(txids, mask, First(h, pos), End(|txids|, h, pos));
      EndMatches(mask, First(h, pos), First(h, pos + 1), End(|txids|, h, pos));
      if h == 0 {
        assert End(|txids|, 0, pos) == pos + 1;
        assert AnyMatch(mask, pos, pos + 1) <==> mask[pos];
        assert Matched(txids, mask, pos + 1, pos + 1) == [];
      }
    }
    assert c.matches + [] == c.matches;
  }

  ghost predicate ReadsBack(hash: PairHash, txids: seq<Digest>, h: nat, pos: nat, e: Encoded, c: Cursor,
                            b: Encoded, matches: seq<Digest>)
    requires First(h, pos) < |txids|
  {
    Extract(hash, |txids|, e, h, pos, c) == (CalcHash(hash, txids, h, pos), Advanced(c, b, matches))
  }

  lemma {:induction false} InnerBuilt(hash: PairHash, txids: seq<Digest>, mask: seq<bool>, h: nat, pos: nat,
                                      e: Encoded, c: Cursor)
    requires Injective(hash) && Distinct(txids) && h > 0 && First(h, pos) < |txids| == |mask|
    requires AnyMatch(mask, First(h, pos), First(h, pos + 1))
    requires Holds(e, c, Build(hash, txids, mask, h, pos)) && !c.bad
    ensures ReadsBack(hash, txids, h, pos, e, c, Build(hash, txids, mask, h, pos),
                      Matched(txids, mask, First(h, pos), End(|txids|, h, pos)))
    decreases h, 1
  {
    Children(h, pos);
    NodeExists(|txids|, h - 1, 2 * pos + 1);
    if 2 * pos + 1 < Width(|txids|, h - 1) {
      TwoChildrenBuilt(hash, txids, mask, h, pos, e, c);
    } else {
      var b, left := Build(hash, txids, mask, h, pos), Build(hash, txids, mask, h - 1, 2 * pos);
      assert b.bits == [true] + left.bits + [] && b.hashes == left.hashes + [];
      HoldsParts(e, c, b, left, Encoded([], []), []);
      ExtractBuilt(hash, txids, mask, h - 1, 2 * pos, e, c.(nBits := c.nBits + 1));
      OneChild(hash, txids, h, pos, e, c, b, left, Matched(txids, mask, First(h, pos), End(|txids|, h - 1, 2 * pos)));
    }
  }

  lemma {:induction false} TwoChildrenBuilt(hash: PairHash, txids: seq<Digest>, mask: seq<bool>, h: nat, pos: nat,
                                            e: Encoded, c: Cursor)
    requires Injective(hash) && Distinct(txids) && h > 0 && First(h, pos) < |txids| == |mask|
    requires 2 * pos + 1 < Width(|txids|, h - 1) && AnyMatch(mask, First(h, pos), First(h, pos + 1))
    requires Holds(e, c, Build(hash, txids, mask, h, pos)) && !c.bad
    ensures ReadsBack(hash, txids, h, pos, e, c, Build(hash, txids, mask, h, pos),
                      Matched(txids, mask, First(h, pos), End(|txids|, h, pos)))
    decreases h, 0
  {
    Children(h, pos);
    NodeExists(|txids|, h - 1, 2 * pos + 1);
    var c1, mid, hi := c.(nBits := c.nBits + 1), First(h - 1, 2 * pos + 1), End(|txids|, h, pos);
    var b := Build(hash, txids, mask, h, pos);
    var left, right := Build(hash, txids, mask, h - 1, 2 * pos), Build(hash, txids, mask, h - 1, 2 * pos + 1);
    var ml, mr := Matched(txids, mask, First(h, pos), mid), Matched(txids, mask, mid, hi);
    var c2 := Advanced(c1, left, ml);
    assert c.nBits < |e.bits| && e.bits[c.nBits] && Holds(e, c1, left) && Holds(e, c2, right) by {
      HoldsParts(e, c, b, left, right, ml);
    }
    assert ReadsBack(hash, txids, h - 1, 2 * pos, e, c1, left, ml) by {
      ExtractBuilt(hash, txids, mask, h - 1, 2 * pos, e, c1);
    }
    assert ReadsBack(hash, txids, h - 1, 2 * pos + 1, e, c2, right, mr) by {
      ExtractBuilt(hash, txids, mask, h - 1, 2 * pos + 1, e, c2);
    }
    assert ReadsBack(hash, txids, h, pos, e, c, b, ml + mr) by {
      HashesDiffer(hash, txids, h - 1, 2 * pos + 1, 2 * pos);
      TwoChildren(hash, txids, h, pos, e, c, b, left, right, ml, mr);
    }
    MatchedSplit(txids, mask, First(h, pos), mid, hi);
  }

  // One inner step of the traversal, given what the recursive calls return.
  lemma TwoChildren(hash: PairHash, txids: seq<Digest>, h: nat, pos: nat, e: Encoded, c: Cursor,
                    b: Encoded, left: Encoded, right: Encoded, ml: seq<Digest>, mr: seq<Digest>)
    requires h > 0 && First(h, pos) < |txids| && First(h - 1, 2 * pos) < |txids| && First(h - 1, 2 * pos + 1) < |txids|
    requires 2 * pos + 1 < Width(|txids|, h - 1)
    requires CalcHash(hash, txids, h - 1, 2 * pos) != CalcHash(hash, txids, h - 1, 2 * pos + 1)
    requires b.bits == [true] + left.bits + right.bits && b.hashes == left.hashes + right.hashes
    requires c.nBits < |e.bits| && e.bits[c.nBits] && !c.bad
    requires ReadsBack(hash, txids, h - 1, 2 * pos, e, c.(nBits := c.nBits + 1), left, ml)
    requires ReadsBack(hash, txids, h - 1, 2 * pos + 1, e, Advanced(c.(nBits := c.nBits + 1), left, ml), right, mr)
    ensures ReadsBack(hash, txids, h, pos, e, c, b, ml + mr)
  {
    AdvancedTwice(c, b, left, right, ml, mr);
  }

  lemma OneChild(hash: PairHash, txids: seq<Digest>, h: nat, pos: nat, e: Encoded, c: Cursor,
                 b: Encoded, left: Encoded, ml: seq<Digest>)
    requires h > 0 && First(h, pos) < |txids| && First(h - 1, 2 * pos) < |txids|
    requires 2 * pos + 1 >= Width(|txids|, h - 1)
    requires b.bits == [true] + left.bits && b.hashes == left.hashes
    requires c.nBits < |e.bits| && e.bits[c.nBits] && !c.bad
    requires ReadsBack(hash, txids, h - 1, 2 * pos, e, c.(nBits := c.nBits + 1), left, ml)
    ensures ReadsBack(hash, txids, h, pos, e, c, b, ml)
  {
  }

  lemma AdvancedTwice(c: Cursor, b: Encoded, left: Encoded, right: Encoded, ml: seq<Digest>, mr: seq<Digest>)
    requires b.bits == [true] + left.bits + right.bits && b.hashes == left.hashes + right.hashes
    ensures Advanced(Advanced(c.(nBits := c.nBits + 1), left, ml), right, mr) == Advanced(c, b, ml + mr)
  {
    assert c.matches + ml + mr == c.matches + (ml + mr);
  }

  /* ---- Packing ---- */

  lemma SetBitSets(bytes: seq<byte>, p: nat, bit: bool, q: nat)
    requires p / 8 < |bytes| && q / 8 < |bytes|
    ensures BitOf(SetBit(bytes, p, bit)[q / 8], q % 8) <==> BitOf(bytes[q / 8], q % 8) || (bit && p == q)
  {
    var was, now := bytes[q / 8], SetBit(bytes, p, bit)[q / 8];
    AndMask(was, q % 8);
    AndMask(now, q % 8);
    if p / 8 == q / 8 && bit {
      OrOne(was, p % 8, q % 8);
      assert p == q <==> p % 8 == q % 8;
    }
  }

  // After k bits have been written, bit p is set if it is one of them and true.
  lemma {:induction false} PackedBit(bits: seq<bool>, k: nat, p: nat)
    requires k <= |bits| && p < 8 * ((|bits| + 7) / 8)
    ensures BitOf(PackFirst(bits, k)[p / 8], p % 8) <==> p < k && bits[p]
  {
    if k == 0 {
      AndMask(0, p % 8);
      ZeroBit(p % 8);
    } else {
      PackedBit(bits, k - 1, p);
      SetBitSets(PackFirst(bits, k - 1), k - 1, bits[k - 1], p);
    }
  }

  // Unpacking packed bits gives the bits back, followed by false ones up to a whole byte.
  lemma UnpackPack(bits: seq<bool>)
    ensures |Unpack(Pack(bits))| == 8 * ((|bits| + 7) / 8) >= |bits|
    ensures forall p :: 0 <= p < |Unpack(Pack(bits))| ==> Unpack(Pack(bits))[p] == (p < |bits| && bits[p])
    ensures Unpack(Pack(bits))[..|bits|] == bits
  {
    forall p | 0 <= p < |Unpack(Pack(bits))|
      ensures Unpack(Pack(bits))[p] == (p < |bits| && bits[p])
    {
      PackedBit(bits, |bits|, p);
    }
  }

  /* ---- Sizes ---- */

  // Nodes of the partial tree with only one child.
  function Singles(n: nat, mask: seq<bool>, h: nat, pos: nat): (r: nat) {
    if h == 0 || !AnyMatch(mask, First(h, pos), First(h, pos + 1)) then 0
    else if 2 * pos + 1 < Width(n, h - 1) then Singles(n, mask, h - 1, 2 * pos) + Singles(n, mask, h - 1, 2 * pos + 1)
    else 1 + Singles(n, mask, h - 1, 2 * pos)
  }

  // What the children of a node cover.
  lemma ChildRanges(n: nat, h: nat, pos: nat)
    requires h > 0 && First(h, pos) < n
    ensures First(h - 1, 2 * pos) == First(h, pos)
    ensures 2 * pos + 1 < Width(n, h - 1) <==> First(h - 1, 2 * pos + 1) < n
    ensures if 2 * pos + 1 < Width(n, h - 1) then
              End(n, h - 1, 2 * pos) == First(h - 1, 2 * pos + 1) && End(n, h - 1, 2 * pos + 1) == End(n, h, pos)
            else End(n, h - 1, 2 * pos) == End(n, h, pos) == n
    ensures 2 * pos + 1 < Width(n, h - 1) ==> First(h, pos) < First(h - 1, 2 * pos + 1) < End(n, h, pos)
  {
    Children(h, pos);
    NodeExists(n, h - 1, 2 * pos + 1);
  }

  lemma InnerSizes(hash: PairHash, txids: seq<Digest>, mask: seq<bool>, h: nat, pos: nat)
    requires h > 0 && First(h, pos) < |txids| == |mask| && AnyMatch(mask, First(h, pos), First(h, pos + 1))
    requires First(h - 1, 2 * pos) == First(h, pos)
    requires 2 * pos + 1 < Width(|txids|, h - 1) <==> First(h - 1, 2 * pos + 1) < |txids|
    ensures var b, left := Build(hash, txids, mask, h, pos), Build(hash, txids, mask, h - 1, 2 * pos);
      var singles := Singles(|txids|, mask, h - 1, 2 * pos);
      if 2 * pos + 1 < Width(|txids|, h - 1) then
        var right := Build(hash, txids, mask, h - 1, 2 * pos + 1);
        && |b.bits| == 1 + |left.bits| + |right.bits| && |b.hashes| == |left.hashes| + |right.hashes|
        && Singles(|txids|, mask, h, pos) == singles + Singles(|txids|, mask, h - 1, 2 * pos + 1)
      else
        && |b.bits| == 1 + |left.bits| && |b.hashes| == |left.hashes|
        && Singles(|txids|, mask, h, pos) == 1 + singles
  {}

  // Bits and hashes under one node.
  lemma {:induction false} BuildSizes(hash: PairHash, txids: seq<Digest>, mask: seq<bool>, h: nat, pos: nat)
    requires First(h, pos) < |txids| == |mask|
    ensures var b := Build(hash, txids, mask, h, pos);
      && 1 <= |b.hashes| <= End(|txids|, h, pos) - First(h, pos)
      && |b.bits| + 1 == 2 * |b.hashes| + Singles(|txids|, mask, h, pos)
  {
    if h == 0 || !AnyMatch(mask, First(h, pos), First(h, pos + 1)) {
      ShlAdds(pos, 1, h);
      ShlGrows(h);
    } else {
      ChildRanges(|txids|, h, pos);
      InnerSizes(hash, txids, mask, h, pos);
      BuildSizes(hash, txids, mask, h - 1, 2 * pos);
      if 2 * pos + 1 < Width(|txids|, h - 1) {
        BuildSizes(hash, txids, mask, h - 1, 2 * pos + 1);
      }
    }
  }

  lemma TwoChildHashes(a: nat, b: nat, h: nat, left: nat, right: nat)
    requires h > 0 && a + b > 0 && left <= 1 + a * (h - 1) && right <= 1 + b * (h - 1)
    ensures left + right <= 1 + (a + b) * h
  {
    assert (a + b) * h == a * (h - 1) + b * (h - 1) + (a + b);
  }

  // At most one hash more than the number of matches times the height.
  lemma {:induction false} HashesPerMatch(hash: PairHash, txids: seq<Digest>, mask: seq<bool>, h: nat, pos: nat)
    requires First(h, pos) < |txids| == |mask|
    ensures |Build(hash, txids, mask, h, pos).hashes|
         <= 1 + |Matched(txids, mask, First(h, pos), End(|txids|, h, pos))| * h
    decreases h, 1
  {
    if h > 0 && AnyMatch(mask, First(h, pos), First(h, pos + 1)) {
      InnerHashesPerMatch(hash, txids, mask, h, pos);
    }
  }

  lemma {:induction false} InnerHashesPerMatch(hash: PairHash, txids: seq<Digest>, mask: seq<bool>, h: nat, pos: nat)
    requires h > 0 && First(h, pos) < |txids| == |mask| && AnyMatch(mask, First(h, pos), First(h, pos + 1))
    ensures |Build(hash, txids, mask, h, pos).hashes|
         <= 1 + |Matched(txids, mask, First(h, pos), End(|txids|, h, pos))| * h
    decreases h, 0
  {
    var n, lo, hi := |txids|, First(h, pos), End(|txids|, h, pos);
    ChildRanges(n, h, pos);
    InnerSizes(hash, txids, mask, h, pos);
    var left := |Build(hash, txids, mask, h - 1, 2 * pos).hashes|;
    assert |Matched(txids, mask, lo, hi)| > 0 by {
      EndMatches(mask, lo, First(h, pos + 1), hi);
      NoneMatched(txids, mask, lo, hi);
    }
    HashesPerMatch(hash, txids, mask, h - 1, 2 * pos);
    if 2 * pos + 1 < Width(n, h - 1) {
      var mid := First(h - 1, 2 * pos + 1);
      HashesPerMatch(hash, txids, mask, h - 1, 2 * pos + 1);
      MatchedSplit(txids, mask, lo, mid, hi);
      TwoChildHashes(|Matched(txids, mask, lo, mid)|, |Matched(txids, mask, mid, hi)|, h, left,
                     |Build(hash, txids, mask, h - 1, 2 * pos + 1).hashes|);
    } else {
      TwoChildHashes(|Matched(txids, mask, lo, hi)|, 0, h, left, 0);
    }
  }

  /* ---- Whole trees ---- */

  function BuildTree(hash: PairHash, txids: seq<Digest>, mask: seq<bool>): (r: Encoded)
    requires txids != [] && |mask| == |txids|
  {
    ShlAdds(0, 0, Height(|txids|));
    Build(hash, txids, mask, Height(|txids|), 0)
  }

  // What arrives when a partial tree is serialized and read back.
  function Received(e: Encoded): (r: Encoded) {
    Encoded(Unpack(Pack(e.bits)), e.hashes)
  }

  lemma RootRange(n: nat)
    requires n > 0
    ensures First(Height(n), 0) == 0 && End(n, Height(n), 0) == n
  {
    ShlAdds(0, 0, Height(n));
    NodeExists(n, Height(n), 1);
  }

  // Any selection from any list of distinct transactions within the size limit survives the trip:
  // the receiver gets the Merkle root and exactly the selected transactions, in order.
  lemma ExtractsWhatWasBuilt(hash: PairHash, txids: seq<Digest>, mask: seq<bool>)
    requires Injective(hash) && Distinct(txids) && txids != [] && |mask| == |txids|
    requires |txids| <= MAX_BLOCK_SERIALIZED_SIZE / 60
    ensures ExtractMatches(hash, |txids|, Received(BuildTree(hash, txids, mask)), false)
         == (MerkleRoot(hash, txids), Matched(txids, mask, 0, |txids|))
  {
    var n, b := |txids|, BuildTree(hash, txids, mask);
    var e := Received(b);
    RootRange(n);
    UnpackPack(b.bits);
    BuildSizes(hash, txids, mask, Height(n), 0);
    assert Holds(e, START, b) by {
      assert e.hashes[..|b.hashes|] == b.hashes;
    }
    ExtractBuilt(hash, txids, mask, Height(n), 0, e, START);
    assert [] + Matched(txids, mask, 0, n) == Matched(txids, mask, 0, n);
  }
}
