/** The block index: a tree of blocks linked to their predecessors, with a skip pointer per block. */
module BlockIndex {
  import opened Bits
  import opened Helpers
  import opened SkipList

  class CBlockIndex {
    const hash: nat
    const pprev: CBlockIndex?
    const nHeight: nat
    var pskip: CBlockIndex?

    // All ancestors, genesis first.
    ghost const ancestors: seq<CBlockIndex>

    constructor (hash: nat, pprev: CBlockIndex?)
      requires pprev != null ==> pprev.Linked()
      ensures Linked() && this.hash == hash && this.pprev == pprev && pskip == null
    {
      this.hash, this.pprev, this.pskip := hash, pprev, null;
      this.nHeight := if pprev == null then 0 else pprev.nHeight + 1;
      this.ancestors := if pprev == null then [] else pprev.ancestors + [pprev];
    }

    ghost predicate Linked()
      decreases |ancestors|
    {
      if pprev == null then nHeight == 0 && ancestors == []
      else nHeight == pprev.nHeight + 1 && ancestors == pprev.ancestors + [pprev] && pprev.Linked()
    }

    // The branch that ends in this block, by height.
    ghost function Path(): (r: seq<CBlockIndex>) {
      ancestors + [this]
    }

    // Walking back along pprev arrives at the blocks of the path, each with its own path.
    lemma {:induction false} PathIsLinked(i: nat)
      requires Linked() && i <= nHeight
      ensures |ancestors| == nHeight && Path()[nHeight] == this
      ensures Path()[i].Linked() && Path()[i].nHeight == i && Path()[i].Path() == Path()[..i + 1]
      ensures i > 0 ==> Path()[i].pprev == Path()[i - 1]
      decreases |ancestors|
    {
      if pprev != null {
        pprev.PathIsLinked(if i < nHeight then i else pprev.nHeight);
        if i < nHeight {
          assert Path()[i] == pprev.Path()[i];
          assert Path()[..i + 1] == pprev.Path()[..i + 1];
        }
      }
      if i == nHeight {
        assert Path()[..i + 1] == Path();
      }
    }

    // Every skip pointer on the path that has been built points where it should.
    ghost predicate SkipsOk()
      reads Path()
    {
      forall i :: 0 <= i < |Path()| ==> Path()[i].pskip == null || Path()[i].pskip == Path()[GetSkipHeight(i)]
    }

    // Every block of the branch but the first has its skip pointer.
    ghost predicate AllSkips()
      reads Path()
    {
      forall i :: 0 < i < |Path()| ==> Path()[i].pskip != null
    }

    // The block of this branch at a height, by skip pointers where that is no detour.
    method GetAncestor(height: int) returns (r: CBlockIndex?, ghost rounds: nat)
      requires Linked() && SkipsOk()
      ensures height < 0 || height > nHeight ==> r == null && rounds == 0
      ensures 0 <= height <= nHeight ==> |ancestors| == nHeight && r == Path()[height]
      ensures 0 <= height <= nHeight && AllSkips() ==> rounds == Rounds(nHeight, height)
    {
      rounds := 0;
      if height > nHeight || height < 0 {
        return null, 0;
      }
      PathIsLinked(nHeight);
      var pindexWalk := this;
      var heightWalk := nHeight;
      while heightWalk > height
        invariant height <= heightWalk <= nHeight && pindexWalk == Path()[heightWalk]
        invariant AllSkips() ==> rounds + Rounds(heightWalk, height) == Rounds(nHeight, height)
      {
        PathIsLinked(heightWalk);
        ghost var next := NextHeight(heightWalk, height);
        Round(heightWalk, height, next);
        if pindexWalk.pskip != null && TakesSkip(heightWalk, height) {
          pindexWalk := pindexWalk.pskip;
          heightWalk := GetSkipHeight(heightWalk);
        } else {
          assert pindexWalk.pprev != null;
          pindexWalk := pindexWalk.pprev;
          heightWalk := heightWalk - 1;
        }
        rounds := rounds + 1;
        assert AllSkips() ==> heightWalk == next;
      }
      return pindexWalk, rounds;
    }

    // A skip pointer that is right for one branch is right for every branch through its block.
    twostate lemma SkipIsKept()
      requires Linked() && |ancestors| == nHeight && (pskip == null || pskip == Path()[GetSkipHeight(nHeight)])
      requires forall b: CBlockIndex :: b != this && old(allocated(b)) ==> old(b.pskip) == b.pskip
      ensures forall c: CBlockIndex :: old(allocated(c)) && c.Linked() && old(c.SkipsOk()) ==> c.SkipsOk()
    {
      forall c: CBlockIndex, i | old(allocated(c)) && c.Linked() && old(c.SkipsOk()) && 0 <= i < |c.Path()|
        ensures c.Path()[i].pskip == null || c.Path()[i].pskip == c.Path()[GetSkipHeight(i)]
      {
        c.PathIsLinked(c.nHeight);
        c.PathIsLinked(i);
        if c.Path()[i] == this {
          assert Path()[GetSkipHeight(i)] == c.Path()[..i + 1][GetSkipHeight(i)];
        } else {
          assert old(allocated(c.Path()[i]));
        }
      }
    }

    method BuildSkip()
      requires Linked() && SkipsOk()
      modifies this`pskip
      ensures SkipsOk() && |ancestors| == nHeight
      ensures forall c: CBlockIndex :: old(allocated(c)) && c.Linked() && old(c.SkipsOk()) ==> c.SkipsOk()
      ensures nHeight > 0 ==> pskip == Path()[GetSkipHeight(nHeight)]
    {
      PathIsLinked(nHeight);
      if pprev != null {
        forall i | 0 <= i < |pprev.Path()|
          ensures pprev.Path()[i] == Path()[i] && pprev.Path()[i] != this
        {
          PathIsLinked(i);
          pprev.PathIsLinked(i);
        }
        var ancestor, _ := pprev.GetAncestor(GetSkipHeight(nHeight));
        pskip := ancestor;
        SkipIsKept();
      }
    }
  }

  /* ---- Heights in a block locator ---- */

  // The heights GetLocator visits from h on, when count entries have been made already.
  function LocatorHeights(h: nat, nStep: nat, count: nat): (r: seq<nat>)
    requires nStep >= 1
    ensures |r| >= 1 && r[0] == h && forall i :: 0 <= i < |r| ==> r[i] <= h
    decreases h
  {
    if h == 0 then [0]
    else [h] + LocatorHeights(Max(h - nStep, 0), if count + 1 > 10 then nStep * 2 else nStep, count + 1)
  }

  lemma {:induction false} LocatorDescends(h: nat, nStep: nat, count: nat)
    requires nStep >= 1
    ensures var r := LocatorHeights(h, nStep, count);
      r[|r| - 1] == 0 && forall i, j :: 0 <= i < j < |r| ==> r[i] > r[j]
    decreases h
  {
    if h > 0 {
      var next, step := Max(h - nStep, 0), if count + 1 > 10 then nStep * 2 else nStep;
      LocatorDescends(next, step, count + 1);
      var tail := LocatorHeights(next, step, count + 1);
      assert forall j :: 0 <= j < |tail| ==> tail[j] <= tail[0];
    }
  }

  // How often s must be doubled to reach y.
  function Doublings(s: nat, y: nat): (r: nat)
    requires s >= 1
    decreases y - s
  {
    if s >= y then 0 else 1 + Doublings(2 * s, y)
  }

  // Doublings is the rounded-up logarithm to base two of y / s.
  lemma {:induction false} DoublingsIsLog(s: nat, y: nat)
    requires s >= 1
    ensures y <= Shl(s, Doublings(s, y))
    ensures Doublings(s, y) > 0 ==> Shl(s, Doublings(s, y) - 1) < y
    decreases y - s
  {
    if s < y {
      DoublingsIsLog(2 * s, y);
    }
  }

  lemma {:induction false} LocatorTail(x: nat, s: nat, count: nat)
    requires s >= 1 && count >= 10
    ensures |LocatorHeights(x, s, count)| == 1 + Doublings(s, x + s)
    decreases x
  {
    if x > s {
      LocatorTail(x - s, 2 * s, count + 1);
    } else if x > 0 {
      assert LocatorHeights(x, s, count) == [x] + LocatorHeights(0, 2 * s, count + 1);
      assert Doublings(2 * s, x + s) == 0;
    }
  }

  lemma {:induction false} LocatorHead(h: nat, count: nat)
    requires count <= 10 && h >= 10 - count
    ensures |LocatorHeights(h, 1, count)| == 10 - count + |LocatorHeights(h - (10 - count), 1, 10)|
    decreases 10 - count
  {
    if count < 10 {
      LocatorHead(h - 1, count + 1);
    }
  }

  lemma {:induction false} LocatorShort(h: nat, count: nat)
    requires h + count < 10
    ensures |LocatorHeights(h, 1, count)| == h + 1
  {
    if h > 0 {
      LocatorShort(h - 1, count + 1);
    }
  }

  // The number of entries: one per block for the last ten, then logarithmically many.
  lemma LocatorLength(h: nat)
    ensures |LocatorHeights(h, 1, 0)| == if h < 10 then h + 1 else 11 + Doublings(1, h - 9)
  {
    if h < 10 {
      LocatorShort(h, 0);
    } else {
      LocatorHead(h, 0);
      LocatorTail(h - 10, 1, 10);
    }
  }
}
