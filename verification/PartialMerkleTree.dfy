/** The CPartialMerkleTree object, updated in place. */
module PartialMerkleTree {
  // It appends to its own bit and hash lists while it is built, and advances shared counters while
  // it is read.

  import opened Bits
  import opened Helpers
  import opened PartialMerkle

  lemma Regroup<T>(a: seq<T>, x: T, b: seq<T>, c: seq<T>)
    ensures (a + [x]) + (b + c) == a + ([x] + b + c)
  {
  }

  class CPartialMerkleTree {
    const hash: PairHash
    var nTransactions: nat
    var vBits: seq<bool>
    var vHash: seq<Digest>
    var fBad: bool

    ghost function Contents(): (r: Encoded)
      reads this
    {
      Encoded(vBits, vHash)
    }

    method TreeHeight() returns (nHeight: nat)
      ensures nHeight == Height(nTransactions)
    {
      nHeight := 0;
      while Width(nTransactions, nHeight) > 1
        invariant HeightFrom(nTransactions, 0) == HeightFrom(nTransactions, nHeight)
        decreases nTransactions - nHeight
      {
        WidthSmall(nTransactions, nHeight);
        nHeight := nHeight + 1;
      }
    }

    // From a list of transaction ids and a mask that selects some of them.
    constructor Select(hash: PairHash, vTxid: seq<Digest>, vMatch: seq<bool>)
      requires vTxid != [] && |vMatch| == |vTxid|
      ensures this.hash == hash && nTransactions == |vTxid| && !fBad
      ensures First(Height(|vTxid|), 0) == 0 && Contents() == Build(hash, vTxid, vMatch, Height(|vTxid|), 0)
    {
      this.hash := hash;
      nTransactions, fBad := |vTxid|, false;
      vBits, vHash := [], [];
      new;
      var nHeight := TreeHeight();
      ShlAdds(0, 0, nHeight);
      TraverseAndBuild(nHeight, 0, vTxid, vMatch);
    }

    // From the wire: the flag bits arrive in whole bytes.
    constructor Receive(hash: PairHash, nTransactions: nat, vHash: seq<Digest>, vBytes: seq<byte>)
      ensures this.hash == hash && this.nTransactions == nTransactions && !fBad
      ensures Contents() == Encoded(Unpack(vBytes), vHash)
    {
      this.hash := hash;
      this.nTransactions, this.vHash, this.fBad := nTransactions, vHash, false;
      vBits := [];
      new;
      for p := 0 to 8 * |vBytes|
        invariant vBits == Unpack(vBytes)[..p] && this.vHash == vHash && !fBad
        invariant this.nTransactions == nTransactions
      {
        vBits := vBits + [BitOf(vBytes[p / 8], p % 8)];
      }
    }

    method PackBits() returns (vBytes: seq<byte>)
      ensures vBytes == Pack(vBits)
    {
      vBytes := Zeros((|vBits| + 7) / 8);
      for p := 0 to |vBits|
        invariant vBytes == PackFirst(vBits, p)
      {
        vBytes := SetBit(vBytes, p, vBits[p]);
      }
    }

    // Is the node the parent of at least one matched transaction?
    method ParentOfMatch(height: nat, pos: nat, vMatch: seq<bool>) returns (found: bool)
      requires |vMatch| == nTransactions
      ensures found == AnyMatch(vMatch, First(height, pos), First(height, pos + 1))
    {
      found := false;
      var lo, hi := First(height, pos), First(height, pos + 1);
      var p := lo;
      ShlAdds(pos, 1, height);
      while p < hi && p < nTransactions
        invariant lo <= p <= hi && found == AnyMatch(vMatch, lo, p)
      {
        found := found || vMatch[p];
        p := p + 1;
      }
    }

    method TraverseAndBuild(height: nat, pos: nat, vTxid: seq<Digest>, vMatch: seq<bool>)
      requires First(height, pos) < |vTxid| == |vMatch| == nTransactions
      modifies this`vBits, this`vHash
      ensures vBits == old(vBits) + Build(hash, vTxid, vMatch, height, pos).bits
      ensures vHash == old(vHash) + Build(hash, vTxid, vMatch, height, pos).hashes
      decreases height, 1
    {
      var fParentOfMatch := ParentOfMatch(height, pos, vMatch);
      vBits := vBits + [fParentOfMatch];
      if height == 0 || !fParentOfMatch {
        vHash := vHash + [CalcHash(hash, vTxid, height, pos)];
      } else {
        Children(height, pos);
        NodeExists(nTransactions, height - 1, 2 * pos + 1);
        BuildChildren(height, pos, vTxid, vMatch);
        ghost var left := Build(hash, vTxid, vMatch, height - 1, pos * 2).bits;
        if pos * 2 + 1 < Width(nTransactions, height - 1) {
          Regroup(old(vBits), true, left, Build(hash, vTxid, vMatch, height - 1, pos * 2 + 1).bits);
        } else {
          Regroup(old(vBits), true, left, []);
          assert left + [] == left;
        }
      }
    }

    // Descends into both, or the only, child of a node.
    method BuildChildren(height: nat, pos: nat, vTxid: seq<Digest>, vMatch: seq<bool>)
      requires height > 0 && First(height - 1, pos * 2) < |vTxid| == |vMatch| == nTransactions
      requires First(height - 1, pos * 2 + 1) < |vTxid| <==> pos * 2 + 1 < Width(nTransactions, height - 1)
      modifies this`vBits, this`vHash
      ensures var left := Build(hash, vTxid, vMatch, height - 1, pos * 2);
        if pos * 2 + 1 < Width(nTransactions, height - 1) then
          var right := Build(hash, vTxid, vMatch, height - 1, pos * 2 + 1);
          vBits == old(vBits) + (left.bits + right.bits) && vHash == old(vHash) + (left.hashes + right.hashes)
        else vBits == old(vBits) + left.bits && vHash == old(vHash) + left.hashes
      decreases height, 0
    {
      ghost var bits, hashes := vBits, vHash;
      TraverseAndBuild(height - 1, pos * 2, vTxid, vMatch);
      if pos * 2 + 1 < Width(nTransactions, height - 1) {
        ghost var left := Build(hash, vTxid, vMatch, height - 1, pos * 2);
        TraverseAndBuild(height - 1, pos * 2 + 1, vTxid, vMatch);
        ghost var right := Build(hash, vTxid, vMatch, height - 1, pos * 2 + 1);
        Append3(bits, left.bits, right.bits);
        Append3(hashes, left.hashes, right.hashes);
      }
    }

    // The counters and the list of matches are passed in and out.
    method TraverseAndExtract(height: nat, pos: nat, nBitsUsed: nat, nHashUsed: nat, vMatch: seq<Digest>)
      returns (result: Digest, nBits: nat, nHash: nat, matches: seq<Digest>)
      modifies this`fBad
      ensures (result, Cursor(nBits, nHash, matches, fBad))
           == Extract(hash, nTransactions, Contents(), height, pos, Cursor(nBitsUsed, nHashUsed, vMatch, old(fBad)))
      decreases height
    {
      nBits, nHash, matches := nBitsUsed, nHashUsed, vMatch;
      if nBits >= |vBits| {
        fBad := true;
        return 0, nBits, nHash, matches;
      }
      var fParentOfMatch := vBits[nBits];
      nBits := nBits + 1;
      if height == 0 || !fParentOfMatch {
        if nHash >= |vHash| {
          fBad := true;
          return 0, nBits, nHash, matches;
        }
        result := vHash[nHash];
        nHash := nHash + 1;
        if height == 0 && fParentOfMatch {
          matches := matches + [result];
        }
      } else {
        var left, right;
        left, nBits, nHash, matches := TraverseAndExtract(height - 1, pos * 2, nBits, nHash, matches);
        if pos * 2 + 1 < Width(nTransactions, height - 1) {
          right, nBits, nHash, matches := TraverseAndExtract(height - 1, pos * 2 + 1, nBits, nHash, matches);
          if right == left {
            // The transaction hashes covered by the two branches must be unique.
            fBad := true;
          }
        } else {
          right := left;
        }
        result := hash(left, right);
      }
    }

    method ExtractMatches() returns (root: Digest, vMatch: seq<Digest>)
      modifies this`fBad
      ensures (root, vMatch) == PartialMerkle.ExtractMatches(hash, nTransactions, Contents(), old(fBad))
    {
      vMatch := [];
      if nTransactions == 0 {
        return 0, vMatch;
      }
      if nTransactions > MAX_BLOCK_SERIALIZED_SIZE / 60 {
        return 0, vMatch;
      }
      if |vHash| > nTransactions {
        return 0, vMatch;
      }
      if |vBits| < |vHash| {
        return 0, vMatch;
      }
      var nHeight := TreeHeight();
      var nBitsUsed, nHashUsed;
      root, nBitsUsed, nHashUsed, vMatch := TraverseAndExtract(nHeight, 0, 0, 0, vMatch);
      if fBad {
        return 0, vMatch;
      }
      if (nBitsUsed + 7) / 8 != (|vBits| + 7) / 8 {
        return 0, vMatch;
      }
      if nHashUsed != |vHash| {
        return 0, vMatch;
      }
    }
  }
}
