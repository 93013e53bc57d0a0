/** The active chain: an array of blocks, indexed by height, that ends in the tip. */
module Chain {
  import opened BlockIndex
  import opened Helpers
  import opened SkipList

  // The hashes of the blocks at some heights of a branch.
  ghost function HashesAt(path: seq<CBlockIndex>, heights: seq<nat>): (r: seq<nat>)
    requires forall k :: 0 <= k < |heights| ==> heights[k] < |path|
  {
    if heights == [] then [] else [path[heights[0]].hash] + HashesAt(path, heights[1..])
  }

  lemma {:induction false} HashesAtEntry(path: seq<CBlockIndex>, heights: seq<nat>, i: nat)
    requires i < |heights| && forall k :: 0 <= k < |heights| ==> heights[k] < |path|
    ensures |HashesAt(path, heights)| == |heights| && HashesAt(path, heights)[i] == path[heights[i]].hash
  {
    if |heights| > 1 {
      HashesAtEntry(path, heights[1..], if i > 0 then i - 1 else 0);
    }
  }

  // A whole branch by height: each block is linked to the one before it.
  ghost predicate Chained(path: seq<CBlockIndex?>) {
    forall i :: 0 <= i < |path| ==>
                  && path[i] != null && path[i].nHeight == i
                  && (i == 0 ==> path[i].pprev == null)
                  && (i > 0 ==> path[i].pprev == path[i - 1])
  }

  lemma Predecessor(path: seq<CBlockIndex?>, i: nat)
    requires Chained(path) && i < |path|
    ensures path[i] != null && path[i].nHeight == i
    ensures path[i].pprev == if i == 0 then null else path[i - 1]
  {}

  lemma PathIsChained(b: CBlockIndex)
    requires b.Linked()
    ensures |b.ancestors| == b.nHeight && Chained(b.Path()) && b.Path()[b.nHeight] == b
  {
    b.PathIsLinked(b.nHeight);
    var path: seq<CBlockIndex?> := b.Path();
    forall i | 0 <= i < |path|
      ensures path[i] != null && path[i].nHeight == i
      ensures (i == 0 ==> path[i].pprev == null) && (i > 0 ==> path[i].pprev == path[i - 1])
    {
      b.PathIsLinked(i);
      assert i == 0 ==> b.Path()[0].pprev == null;
    }
  }

  // Two branches that share a block share everything below it.
  lemma {:induction false} SharedBelow(a: seq<CBlockIndex?>, b: seq<CBlockIndex?>, i: nat)
    requires Chained(a) && Chained(b) && i < |a| && i < |b| && a[i] == b[i]
    ensures forall k :: 0 <= k <= i ==> a[k] == b[k]
  {
    if i > 0 {
      Predecessor(a, i);
      Predecessor(b, i);
      SharedBelow(a, b, i - 1);
    }
  }

  lemma HashesAtCons(path: seq<CBlockIndex>, h: nat, rest: seq<nat>, vHave: seq<nat>)
    requires h < |path| && forall k :: 0 <= k < |rest| ==> rest[k] < |path|
    ensures vHave + HashesAt(path, [h] + rest) == vHave + [path[h].hash] + HashesAt(path, rest)
  {
    assert ([h] + rest)[1..] == rest;
    assert vHave + ([path[h].hash] + HashesAt(path, rest)) == vHave + [path[h].hash] + HashesAt(path, rest);
  }

  ghost function Locator(path: seq<CBlockIndex>, h: nat, nStep: nat, count: nat): (r: seq<nat>)
    requires h < |path| && nStep >= 1
  {
    HashesAt(path, LocatorHeights(h, nStep, count))
  }

  // One round of GetLocator's loop, seen from the list it has made so far.
  lemma LocatorStep(path: seq<CBlockIndex>, h: nat, nStep: nat, step: nat, vHave: seq<nat>)
    requires h < |path| && nStep >= 1
    requires step == if |vHave| + 1 > 10 then nStep * 2 else nStep
    ensures h == 0 ==> vHave + Locator(path, h, nStep, |vHave|) == vHave + [path[h].hash]
    ensures h > 0 ==> vHave + Locator(path, h, nStep, |vHave|) ==
                      vHave + [path[h].hash] + Locator(path, Max(h - nStep, 0), step, |vHave| + 1)
  {
    var rest := if h == 0 then [] else LocatorHeights(Max(h - nStep, 0), step, |vHave| + 1);
    assert LocatorHeights(h, nStep, |vHave|) == [h] + rest;
    HashesAtCons(path, h, rest, vHave);
  }

  class CChain {
    var vChain: seq<CBlockIndex?>

    constructor ()
      ensures Valid() && vChain == []
    {
      vChain := [];
    }

    // Slot i holds the ancestor of the tip at height i.
    ghost predicate Valid()
      reads this
    {
      |vChain| > 0 ==>
        var tip := vChain[|vChain| - 1];
        tip != null && tip.Linked() && tip.nHeight == |vChain| - 1 && vChain == tip.Path()
    }

    function Tip(): (r: CBlockIndex?)
      reads this
    {
      if |vChain| > 0 then vChain[|vChain| - 1] else null
    }

    function At(nHeight: int): (r: CBlockIndex?)
      reads this
    {
      if nHeight < 0 || nHeight >= |vChain| then null else vChain[nHeight]
    }

    function Height(): (r: int)
      reads this
    {
      |vChain| - 1
    }

    predicate Contains(pindex: CBlockIndex)
      reads this
    {
      At(pindex.nHeight) == pindex
    }

    function Next(pindex: CBlockIndex): (r: CBlockIndex?)
      reads this
    {
      if Contains(pindex) then At(pindex.nHeight + 1) else null
    }

    lemma ChainIsChained()
      requires Valid()
      ensures Chained(vChain)
    {
      if |vChain| > 0 {
        PathIsChained(Tip());
      }
    }

    // Containment by array slot means being the tip or one of its ancestors.
    lemma ContainsIsAncestry(pindex: CBlockIndex)
      requires Valid() && pindex.Linked()
      ensures Contains(pindex) <==> pindex in vChain
      ensures Contains(pindex) ==> pindex.Path() == vChain[..pindex.nHeight + 1]
    {
      ChainIsChained();
      PathIsChained(pindex);
      if Contains(pindex) {
        SharedBelow(vChain, pindex.Path(), pindex.nHeight);
      }
    }

    // The successor in the chain is the one block of the chain built on this one.
    lemma NextIsSuccessor(pindex: CBlockIndex, b: CBlockIndex)
      requires Valid() && pindex.Linked()
      ensures Next(pindex) == b <==> b in vChain && b.pprev == pindex
    {
      ChainIsChained();
      PathIsChained(pindex);
      if b in vChain && b.pprev == pindex {
        var i :| 0 <= i < |vChain| && vChain[i] == b;
        Predecessor(vChain, i);
        assert i > 0;
        Predecessor(vChain, i - 1);
      }
    }

    // Rewrites slots from the new tip downwards and stops where old and new chain meet.
    method SetTip(pindex: CBlockIndex?)
      requires Valid()
      requires pindex != null ==> pindex.Linked()
      modifies this
      ensures Valid() && Tip() == pindex
      ensures pindex != null ==> vChain == pindex.Path()
    {
      if pindex == null {
        vChain := [];
        return;
      }
      ghost var before, path := vChain, pindex.Path();
      ChainIsChained();
      PathIsChained(pindex);
      var n := pindex.nHeight + 1;
      var padding: seq<CBlockIndex?> := seq(n, i => null);
      vChain := (vChain + padding)[..n];
      var walk: CBlockIndex? := pindex;
      ghost var left := n;
      while walk != null && vChain[walk.nHeight] != walk
        invariant 0 <= left <= n == |vChain| == |path|
        invariant walk == if left > 0 then path[left - 1] else null
        invariant forall i :: 0 <= i < left ==> vChain[i] == if i < |before| then before[i] else null
        invariant forall i :: left <= i < n ==> vChain[i] == path[i]
        decreases left
      {
        Predecessor(path, left - 1);
        vChain := vChain[walk.nHeight := walk];
        walk := walk.pprev;
        left := left - 1;
      }
      if walk != null {
        SharedBelow(before, path, left - 1);
      }
      assert vChain == path;
    }

    // The blocks shared with another branch are exactly those up to the fork, if there is one.
    method FindFork(pindex: CBlockIndex?) returns (fork: CBlockIndex?)
      requires Valid()
      requires pindex != null ==> pindex.Linked() && pindex.SkipsOk()
      ensures pindex == null ==> fork == null
      ensures fork != null ==> fork in pindex.Path() && fork in vChain
      ensures pindex != null ==> forall i :: 0 <= i < |vChain| && i < |pindex.Path()| ==>
                                               (vChain[i] == pindex.Path()[i] <==> fork != null && i <= fork.nHeight)
    {
      if pindex == null {
        return null;
      }
      ghost var path := pindex.Path();
      ChainIsChained();
      PathIsChained(pindex);
      fork := pindex;
      if fork.nHeight > Height() {
        var ancestor, _ := fork.GetAncestor(Height());
        fork := ancestor;
      }
      ghost var left := if |vChain| < |path| then |vChain| else |path|;
      while fork != null && !Contains(fork)
        invariant 0 <= left <= |vChain| && left <= |path|
        invariant fork == if left > 0 then path[left - 1] else null
        invariant forall i :: left <= i < |vChain| && i < |path| ==> vChain[i] != path[i]
        decreases left
      {
        Predecessor(path, left - 1);
        fork := fork.pprev;
        left := left - 1;
      }
      if fork != null {
        SharedBelow(vChain, path, left - 1);
      }
    }

    // The ancestor of one block of a branch, by array slot when the chain holds the block.
    method Ancestor(walk: CBlockIndex, height: nat, ghost start: CBlockIndex) returns (r: CBlockIndex?)
      requires Valid() && start.Linked() && height <= walk.nHeight < |start.Path()|
      requires start.Path()[walk.nHeight] == walk && (start.SkipsOk() || vChain == start.Path())
      ensures r == start.Path()[height]
    {
      ghost var path := start.Path();
      PathIsChained(start);
      if Contains(walk) {
        ChainIsChained();
        SharedBelow(vChain, path, walk.nHeight);
        r := At(height);
      } else {
        start.PathIsLinked(walk.nHeight);
        PathIsChained(walk);
        SharedBelow(walk.Path(), path, walk.nHeight);
        assert forall i :: 0 <= i <= walk.nHeight ==> GetSkipHeight(i) <= i;
        var ancestor, _ := walk.GetAncestor(height);
        r := ancestor;
      }
    }

    // Hashes of one branch at the heights LocatorHeights lists, whichever way ancestors are found.
    method GetLocator(pindex: CBlockIndex?) returns (vHave: seq<nat>)
      requires Valid()
      requires pindex != null ==> pindex.Linked() && pindex.SkipsOk()
      ensures var start := if pindex == null then Tip() else pindex;
        if start == null then vHave == []
        else |start.ancestors| == start.nHeight &&
             vHave == Locator(start.Path(), start.nHeight, 1, 0)
    {
      var nStep := 1;
      vHave := [];
      var walk := pindex;
      if walk == null {
        walk := Tip();
      }
      if walk == null {
        return;
      }
      ghost var start: CBlockIndex := walk;
      ghost var path := start.Path();
      PathIsChained(start);
      ghost var all := Locator(path, start.nHeight, 1, 0);
      assert [] + all == all;
      while walk != null
        invariant nStep >= 1
        invariant walk != null ==> walk.nHeight < |path| && walk == path[walk.nHeight]
        invariant walk != null ==> all == vHave + Locator(path, walk.nHeight, nStep, |vHave|)
        invariant walk == null ==> vHave == all
        decreases if walk == null then -1 else walk.nHeight
      {
        LocatorStep(path, walk.nHeight, nStep, if |vHave| + 1 > 10 then nStep * 2 else nStep, vHave);
        vHave := vHave + [walk.hash];
        if walk.nHeight == 0 {
          break;
        }
        var nHeight := Max(walk.nHeight - nStep, 0);
        walk := Ancestor(walk, nHeight, start);
        if |vHave| > 10 {
          nStep := nStep * 2;
        }
      }
    }
  }

  // What GetLocator's answer means: descending heights of one branch from its end to genesis.
  lemma LocatorIsDescending(start: CBlockIndex, i: nat)
    requires start.Linked() && |start.ancestors| == start.nHeight
    requires i < |LocatorHeights(start.nHeight, 1, 0)|
    ensures var heights := LocatorHeights(start.nHeight, 1, 0);
      var hashes := Locator(start.Path(), start.nHeight, 1, 0);
      && |hashes| == |heights| && hashes[i] == start.Path()[heights[i]].hash
      && hashes[0] == start.hash && hashes[|hashes| - 1] == start.Path()[0].hash
      && (i > 0 ==> heights[i] < heights[i - 1])
  {
    var heights := LocatorHeights(start.nHeight, 1, 0);
    LocatorDescends(start.nHeight, 1, 0);
    HashesAtEntry(start.Path(), heights, i);
    HashesAtEntry(start.Path(), heights, 0);
    HashesAtEntry(start.Path(), heights, |heights| - 1);
  }
}
