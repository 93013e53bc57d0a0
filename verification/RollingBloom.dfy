/** The rolling bloom filter. */
module RollingBloom {
  // Two-bit cells say in which generation a cell was last set, packed into pairs of 64-bit words.

  import opened Bits
  import opened BloomWords
  import opened Helpers

  type Key = seq<bv8>

  // Everything about a filter that inserting does not change.
  datatype Params = Params(
    hash: (nat, nat, Key) -> nat, nHashFuncs: nat, nTweak: nat, pairs: nat, nEntriesPerGeneration: nat)

  /* ---- Cells ---- */

  function Cell(data: seq<nat>, p: nat, b: nat): (r: nat)
    requires 2 * p + 1 < |data|
  {
    CellOf(data[2 * p], data[2 * p + 1], b)
  }

  // The cell that hash function n assigns to a key.
  function PosOf(f: Params, n: nat, key: Key): (r: nat)
    requires f.pairs > 0
  {
    f.hash(n, f.nTweak, key) / 64 % (2 * f.pairs)
  }

  function BitOf(f: Params, n: nat, key: Key): (r: nat) {
    f.hash(n, f.nTweak, key) % 64
  }

  ghost predicate Touches(f: Params, key: Key, m: nat, p: nat, b: nat)
    requires f.pairs > 0
  {
    exists n :: 0 <= n < m && PosOf(f, n, key) / 2 == p && BitOf(f, n, key) == b
  }

  /* ---- What the cells should hold ---- */

  // The last inserted key that hashes to a cell, as a position in the log, or -1.
  ghost function LastTouch(f: Params, log: seq<Key>, p: nat, b: nat): (i: int)
    requires f.pairs > 0
    ensures -1 <= i < |log|
  {
    if log == [] then -1
    else if Touches(f, log[|log| - 1], f.nHashFuncs, p, b) then |log| - 1
    else LastTouch(f, log[..|log| - 1], p, b)
  }

  function Prev(g: nat): (r: nat) {
    if g <= 1 then 3 else g - 1
  }

  // How many inserted keys the filter still answers for, with t of them in the current generation.
  function Window(f: Params, t: nat): (r: nat) {
    2 * f.nEntriesPerGeneration + t
  }

  // A cell holds the generation of the last key that touched it, unless that is three generations old.
  ghost function Expected(f: Params, g: nat, t: nat, log: seq<Key>, p: nat, b: nat): (r: nat)
    requires f.pairs > 0
  {
    var i, start := LastTouch(f, log, p, b), |log| - t;
    if i < 0 then 0
    else if i >= start then g
    else if i >= start - f.nEntriesPerGeneration then Prev(g)
    else if i >= start - 2 * f.nEntriesPerGeneration then Prev(Prev(g))
    else 0
  }

  lemma {:induction false} TouchedSince(f: Params, log: seq<Key>, i: nat, n: nat)
    requires f.pairs > 0 && i < |log| && n < f.nHashFuncs
    ensures LastTouch(f, log, PosOf(f, n, log[i]) / 2, BitOf(f, n, log[i])) >= i
  {
    if i < |log| - 1 {
      TouchedSince(f, log[..|log| - 1], i, n);
    }
  }

  // Closing a generation: its successor's number is free once the oldest cells are wiped.
  lemma NextGeneration(f: Params, g: nat, log: seq<Key>, p: nat, b: nat)
    requires f.pairs > 0 && 1 <= g <= 3
    ensures var was, next := Expected(f, g, f.nEntriesPerGeneration, log, p, b), if g == 3 then 1 else g + 1;
      Expected(f, next, 0, log, p, b) == if was == next then 0 else was
  {}

  lemma AfterInsert(f: Params, g: nat, t: nat, log: seq<Key>, key: Key, p: nat, b: nat)
    requires f.pairs > 0
    ensures Expected(f, g, t + 1, log + [key], p, b) ==
            if Touches(f, key, f.nHashFuncs, p, b) then g else Expected(f, g, t, log, p, b)
  {
    assert (log + [key])[..|log|] == log;
  }

  /* ---- The filter ---- */

  class CRollingBloomFilter {
    var f: Params
    const data: array<nat>
    var nEntriesThisGeneration: nat
    var nGeneration: nat

    // Every key inserted so far.
    ghost var log: seq<Key>

    ghost predicate Valid()
      reads this, data
    {
      && f.pairs > 0 && f.nEntriesPerGeneration > 0 && data.Length == 2 * f.pairs && AreWords(data[..])
      && 1 <= nGeneration <= 3 && nEntriesThisGeneration <= f.nEntriesPerGeneration
      && forall p: nat, b: nat | p < f.pairs && b < 64 ::
           Cell(data[..], p, b) == Expected(f, nGeneration, nEntriesThisGeneration, log, p, b)
    }

    // Room for nFilterBits cells, in pairs of words.
    constructor (hash: (nat, nat, Key) -> nat, nHashFuncs: nat, nTweak: nat, nElements: nat, nFilterBits: nat)
      requires nElements > 0 && nFilterBits > 0
      ensures Valid() && fresh(data) && log == [] && f.nHashFuncs == nHashFuncs && f.hash == hash
      ensures nElements <= 2 * f.nEntriesPerGeneration <= nElements + 1
    {
      var size := (nFilterBits + 63) / 64 * 2;
      f := Params(hash, nHashFuncs, nTweak, size / 2, (nElements + 1) / 2);
      data := new nat[size];
      new;
      Reset(nTweak);
    }

    method Reset(nTweak: nat)
      requires f.pairs > 0 && f.nEntriesPerGeneration > 0 && data.Length == 2 * f.pairs
      modifies this, data
      ensures Valid() && log == [] && f == old(f).(nTweak := nTweak)
    {
      f := f.(nTweak := nTweak);
      nEntriesThisGeneration, nGeneration := 0, 1;
      log := [];
      for i := 0 to data.Length
        modifies data
        invariant forall k :: 0 <= k < i ==> data[k] == 0
      {
        data[i] := 0;
      }
      ShlGrows(64);
      forall b: nat {
        ZeroBit(b);
      }
    }

    // The recent keys, oldest first.
    ghost function Recent(): (r: seq<Key>)
      reads this
    {
      var n := Window(f, nEntriesThisGeneration);
      if |log| <= n then log else log[|log| - n..]
    }

    // At least as many keys as the filter was made for are recent, and at most half as many again.
    lemma RecentCovers(nElements: nat)
      requires Valid() && nElements <= 2 * f.nEntriesPerGeneration <= nElements + 1
      ensures exists k :: 0 <= k <= |log| && Recent() == log[k..]
      ensures |Recent()| >= nElements || Recent() == log
      ensures 2 * |Recent()| <= 3 * (nElements + 1)
    {
      var n := Window(f, nEntriesThisGeneration);
      assert Recent() == log[if |log| <= n then 0 else |log| - n..];
    }

    // Empties every cell of the current generation number.
    method Wipe()
      requires f.pairs > 0 && data.Length == 2 * f.pairs && AreWords(data[..]) && 1 <= nGeneration <= 3
      modifies data
      ensures AreWords(data[..])
      ensures forall p: nat, b: nat | p < f.pairs && b < 64 ::
                Cell(data[..], p, b) == var was := Cell(old(data[..]), p, b); if was == nGeneration then 0 else was
    {
      ghost var before := data[..];
      for q := 0 to f.pairs
        invariant AreWords(data[..]) && forall k :: 2 * q <= k < data.Length ==> data[k] == before[k]
        invariant forall p: nat, b: nat | p < q && b < 64 ::
                    Cell(data[..], p, b) == if Cell(before, p, b) == nGeneration then 0 else Cell(before, p, b)
      {
        ghost var done := data[..];
        var p1, p2 := data[2 * q], data[2 * q + 1];
        var mask := WipeMask(p1, p2, nGeneration);
        WipeFits(p1, p2, nGeneration);
        data[2 * q] := And(p1, mask);
        data[2 * q + 1] := And(p2, mask);
        forall b: nat | b < 64
          ensures Cell(data[..], q, b) == if Cell(before, q, b) == nGeneration then 0 else Cell(before, q, b)
        {
          WipePair(p1, p2, nGeneration, b);
        }
        forall p: nat, b: nat | p < q && b < 64
          ensures Cell(data[..], p, b) == Cell(done, p, b)
        {}
      }
    }

    // Writes the current generation into one cell.
    method SetCell(pos: nat, bit: nat)
      requires f.pairs > 0 && pos < data.Length == 2 * f.pairs && bit < 64
      requires AreWords(data[..]) && 1 <= nGeneration <= 3
      modifies data
      ensures AreWords(data[..])
      ensures forall p: nat, b: nat | p < f.pairs && b < 64 ::
                Cell(data[..], p, b) == if p == pos / 2 && b == bit then nGeneration else Cell(old(data[..]), p, b)
    {
      ghost var before := data[..];
      var even := pos - pos % 2;
      WithBitFits(data[even], bit, LowBit(nGeneration));
      WithBitFits(data[even + 1], bit, HighBit(nGeneration));
      data[even] := WithBit(data[even], bit, LowBit(nGeneration));
      data[even + 1] := WithBit(data[even + 1], bit, HighBit(nGeneration));
      forall b: nat | b < 64
        ensures Cell(data[..], pos / 2, b) == if b == bit then nGeneration else Cell(before, pos / 2, b)
      {
        SetPair(before[even], before[even + 1], nGeneration, bit, b);
      }
    }

    method Insert(vKey: Key)
      requires Valid()
      modifies this, data
      ensures Valid() && log == old(log) + [vKey] && f == old(f)
    {
      if nEntriesThisGeneration == f.nEntriesPerGeneration {
        nEntriesThisGeneration := 0;
        forall p: nat, b: nat | p < f.pairs && b < 64 {
          NextGeneration(f, nGeneration, log, p, b);
        }
        nGeneration := nGeneration + 1;
        if nGeneration == 4 {
          nGeneration := 1;
        }
        Wipe();
      }
      ghost var t, before := nEntriesThisGeneration, data[..];
      nEntriesThisGeneration := nEntriesThisGeneration + 1;
      for n := 0 to f.nHashFuncs
        modifies data
        invariant AreWords(data[..])
        invariant forall p: nat, b: nat | p < f.pairs && b < 64 ::
                    Cell(data[..], p, b) == if Touches(f, vKey, n, p, b) then nGeneration else Cell(before, p, b)
      {
        SetCell(PosOf(f, n, vKey), BitOf(f, n, vKey));
      }
      forall p: nat, b: nat | p < f.pairs && b < 64 {
        AfterInsert(f, nGeneration, t, log, vKey, p, b);
      }
      log := log + [vKey];
    }

    // Exact meaning: every cell of the key was last touched by a key that is still in the window.
    method Contains(vKey: Key) returns (r: bool)
      requires Valid()
      ensures r <==> forall n :: 0 <= n < f.nHashFuncs ==>
                                   LastTouch(f, log, PosOf(f, n, vKey) / 2, BitOf(f, n, vKey)) >=
                                   Max(0, |log| - Window(f, nEntriesThisGeneration))
      ensures vKey in Recent() ==> r
    {
      for n := 0 to f.nHashFuncs
        invariant forall m :: 0 <= m < n ==> LastTouch(f, log, PosOf(f, m, vKey) / 2, BitOf(f, m, vKey)) >=
                                             Max(0, |log| - Window(f, nEntriesThisGeneration))
      {
        var pos, bit := PosOf(f, n, vKey), BitOf(f, n, vKey);
        var even := pos - pos % 2;
        OrBit(data[even], data[even + 1], bit);
        assert Cell(data[..], pos / 2, bit) == Expected(f, nGeneration, nEntriesThisGeneration, log, pos / 2, bit);
        if !Bit(Or(data[even], data[even + 1]), bit) {
          RecentTouched(vKey, n);
          return false;
        }
      }
      return true;
    }

    lemma RecentTouched(vKey: Key, n: nat)
      requires f.pairs > 0 && n < f.nHashFuncs
      ensures vKey in Recent() ==> LastTouch(f, log, PosOf(f, n, vKey) / 2, BitOf(f, n, vKey)) >=
                                   Max(0, |log| - Window(f, nEntriesThisGeneration))
    {
      if vKey in Recent() {
        var k :| 0 <= k < |Recent()| && Recent()[k] == vKey;
        TouchedSince(f, log, k + |log| - |Recent()|, n);
      }
    }
  }
}
