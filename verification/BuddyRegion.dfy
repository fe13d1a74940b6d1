/** `add_region`: which regions may be added so that the free lists stay canonical. */
module BuddyRegion {
  import opened Bits
  import opened Buddy

  /** No free block has its whole buddy inside the new region.  A caller can test
      this on the lists before the call. */
  ghost predicate NoBuddyInside(ls: Lists, start: nat, end: nat) {
    forall o: nat, p: nat :: o < MAX_ORDER && p in ls[o] ==> !(Pages(BuddyOf(p, o), o) <= Range(start, end))
  }

  /** The same, in terms of the free set. */
  ghost predicate NoPair(F: set<nat>, R: set<nat>) {
    forall q: nat, o: nat :: o < MAX_ORDER && IsMax(F, q, o) ==> !Full(R, Sibling(q), o)
  }

  lemma FullIsPages(F: set<nat>, p: nat, o: nat)
    requires Aligned(p, o)
    ensures Full(F, Shr(p, o), o) <==> Pages(p, o) <= F
  {
    PageKey(p, o);
  }

  lemma NoPairFromLists(ls: Lists, F: set<nat>, start: nat, end: nat)
    requires Canon(ls, F) && NoBuddyInside(ls, start, end)
    ensures NoPair(F, Range(start, end))
  {
    forall q: nat, o: nat | o < MAX_ORDER && IsMax(F, q, o)
      ensures !Full(Range(start, end), Sibling(q), o)
    {
      var p := q * Pow2(o);
      FirstPage(q, o);
      assert Listed(ls, F, o, p);
      assert p in multiset(ls[o]);
      BuddyFacts(p, o);
      FullIsPages(Range(start, end), BuddyOf(p, o), o);
    }
  }

  /** Without such a pair, every free aligned block lies in the old pages or in the new. */
  lemma {:induction false} OneSided(F: set<nat>, R: set<nat>, q: nat, o: nat)
    requires o <= MAX_ORDER && F !! R && NoPair(F, R) && Full(F + R, q, o)
    ensures Full(F, q, o) || Full(R, q, o)
    decreases o
  {
    if o == 0 {
      assert Shr(q, 0) == q;
    } else {
      var l, r := 2 * q, 2 * q + 1;
      FullParts(F + R, q, o - 1);
      OneSided(F, R, l, o - 1);
      OneSided(F, R, r, o - 1);
      FullParts(F, q, o - 1);
      FullParts(R, q, o - 1);
      NotBoth(F, R, l, o - 1);
      NotBoth(F, R, r, o - 1);
      assert Full(F, l, o - 1) && Full(R, r, o - 1) ==> IsMax(F, l, o - 1) && Sibling(l) == r;
      assert Full(F, r, o - 1) && Full(R, l, o - 1) ==> IsMax(F, r, o - 1) && Sibling(r) == l;
    }
  }

  lemma NotBoth(F: set<nat>, R: set<nat>, q: nat, o: nat)
    requires F !! R
    ensures !(Full(F, q, o) && Full(R, q, o))
  {
    FirstPage(q, o);
  }

  /** `pfn` splits no aligned block of the region. */
  ghost predicate Boundary(start: nat, pfn: nat, end: nat) {
    forall m: nat :: m <= MAX_ORDER && pfn > 0 && Shr(pfn - 1, m) == Shr(pfn, m) ==>
      !Full(Range(start, end), Shr(pfn, m), m)
  }

  lemma AlignedCut(x: nat, m: nat)
    requires x > 0
    ensures Aligned(x, m) <==> Shr(x - 1, m) != Shr(x, m)
  {
    ShrBlock(x - 1, Shr(x, m), m);
    ShrSplit(x, m);
  }

  lemma AlignedDown(x: nat, m: nat, o: nat)
    requires m <= o && Aligned(x, o)
    ensures Aligned(x, m)
    decreases o
  {
    if m < o {
      Halves(x, o - 1);
      AlignedDown(x, m, o - 1);
    }
  }

  /** The greedy order: aligned, fitting, and no larger one is both. */
  lemma Picked(pfn: nat, end: nat)
    requires pfn < end
    ensures var o := PickOrder(pfn, end - pfn, MAX_ORDER);
      && Aligned(pfn, o) && pfn + Pow2(o) <= end
      && forall m: nat :: o < m <= MAX_ORDER && Aligned(pfn, m) ==> pfn + Pow2(m) > end
  {
    var o := PickOrder(pfn, end - pfn, MAX_ORDER);
    AndLowMask(pfn, o);
    if o == 0 { assert Pow2(0) == 1; }
    forall m: nat | o < m <= MAX_ORDER && Aligned(pfn, m) ensures pfn + Pow2(m) > end {
      assert !Fits(pfn, end - pfn, m);
      AndLowMask(pfn, m);
    }
  }

  /** No block of the region strictly around the picked one. */
  lemma NothingAround(start: nat, pfn: nat, end: nat, m: nat)
    requires start <= pfn < end && Boundary(start, pfn, end)
    requires PickOrder(pfn, end - pfn, MAX_ORDER) < m <= MAX_ORDER
    ensures !Full(Range(start, end), Shr(pfn, m), m)
  {
    Picked(pfn, end);
    if Aligned(pfn, m) {
      PageKey(pfn, m);
      FullIsPages(Range(start, end), pfn, m);
      assert pfn + Pow2(m) - 1 in Pages(pfn, m);
    } else {
      if pfn == 0 { PageKey(0, 0); ShrZero(m); }
      AlignedCut(pfn, m);
    }
  }

  lemma ShrZero(m: nat)
    ensures Shr(0, m) == 0 && Aligned(0, m)
  {
    FirstPage(0, m);
  }

  /** The page after an aligned block starts a block of every smaller order. */
  lemma NextCut(pfn: nat, o: nat, m: nat)
    requires Aligned(pfn, o) && m <= o
    ensures Shr(pfn + Pow2(o) - 1, m) != Shr(pfn + Pow2(o), m)
  {
    var next := pfn + Pow2(o);
    PageKey(pfn, o);
    FirstPage(Shr(pfn, o) + 1, o);
    assert next == (Shr(pfn, o) + 1) * Pow2(o);
    AlignedDown(next, m, o);
    AlignedCut(next, m);
  }

  /** A larger block around the picked one is not wholly in the region. */
  lemma BlockAbove(start: nat, pfn: nat, end: nat, o: nat, m: nat)
    requires start <= pfn < end && Boundary(start, pfn, end) && o == PickOrder(pfn, end - pfn, MAX_ORDER)
    requires o < m <= MAX_ORDER && Shr(pfn + Pow2(o) - 1, m) == Shr(pfn + Pow2(o), m)
    ensures !Full(Range(start, end), Shr(pfn + Pow2(o), m), m)
  {
    Picked(pfn, end);
    PageKey(pfn, o);
    Nested(pfn, o, m);
    Nested(pfn + Pow2(o) - 1, o, m);
    NothingAround(start, pfn, end, m);
  }

  lemma BoundaryStep(start: nat, pfn: nat, end: nat)
    requires start <= pfn < end && Boundary(start, pfn, end)
    ensures Boundary(start, pfn + Pow2(PickOrder(pfn, end - pfn, MAX_ORDER)), end)
  {
    var o := PickOrder(pfn, end - pfn, MAX_ORDER);
    var next := pfn + Pow2(o);
    Picked(pfn, end);
    forall m: nat | m <= MAX_ORDER && Shr(next - 1, m) == Shr(next, m)
      ensures !Full(Range(start, end), Shr(next, m), m)
    {
      if m <= o {
        NextCut(pfn, o, m);
      } else {
        BlockAbove(start, pfn, end, o, m);
      }
    }
  }

  /** Each greedily picked block can be added without completing a parent. */
  lemma PickedAddable(F: set<nat>, start: nat, pfn: nat, end: nat)
    requires start <= pfn < end && Boundary(start, pfn, end)
    requires F !! Range(start, end) && NoPair(F, Range(start, end))
    ensures Addable(F + Range(start, pfn), pfn, PickOrder(pfn, end - pfn, MAX_ORDER))
  {
    var o, R := PickOrder(pfn, end - pfn, MAX_ORDER), Range(start, end);
    var G := F + Range(start, pfn) + Pages(pfn, o);
    Picked(pfn, end);
    assert G <= F + R && pfn in R;
    assert F + Range(start, pfn) !! Pages(pfn, o);
    if o < MAX_ORDER {
      NothingAround(start, pfn, end, o + 1);
      NotFull(F, pfn, o + 1);
      assert !Full(G, Shr(pfn, o + 1), o + 1) by {
        if Full(G, Shr(pfn, o + 1), o + 1) {
          assert Full(F + R, Shr(pfn, o + 1), o + 1);
          OneSided(F, R, Shr(pfn, o + 1), o + 1);
        }
      }
    }
  }

  lemma RangeExtended(F: set<nat>, start: nat, pfn: nat, o: nat)
    requires start <= pfn
    ensures F + Range(start, pfn) + Pages(pfn, o) == F + Range(start, pfn + Pow2(o))
  {
  }

  lemma AddOneCanon(ls: Lists, F: set<nat>, start: nat, pfn: nat, end: nat, o: nat)
    requires start <= pfn < end && Boundary(start, pfn, end) && o == PickOrder(pfn, end - pfn, MAX_ORDER)
    requires F !! Range(start, end) && NoPair(F, Range(start, end))
    requires Canon(ls, F + Range(start, pfn))
    ensures Canon(Push(ls, o, pfn), F + Range(start, pfn + Pow2(o)))
  {
    PickedAddable(F, start, pfn, end);
    CanonPush(ls, F + Range(start, pfn), pfn, o);
    RangeExtended(F, start, pfn, o);
  }

  lemma {:induction false} AddBlocksCanon(ls: Lists, F: set<nat>, start: nat, pfn: nat, end: nat)
    requires start <= pfn <= end && Boundary(start, pfn, end)
    requires F !! Range(start, end) && NoPair(F, Range(start, end))
    requires Canon(ls, F + Range(start, pfn))
    ensures Canon(AddBlocks(ls, pfn, end - pfn), F + Range(start, end))
    decreases end - pfn
  {
    if pfn < end {
      var o := PickOrder(pfn, end - pfn, MAX_ORDER);
      Picked(pfn, end);
      AddOneCanon(ls, F, start, pfn, end, o);
      BoundaryStep(start, pfn, end);
      AddBlocksCanon(Push(ls, o, pfn), F, start, pfn + Pow2(o), end);
    }
  }

  lemma AppendsStep(ls: Lists, k: nat, p: nat, o: nat, r: Lists)
    requires k <= MAX_ORDER && o <= MAX_ORDER && Push(ls, k, p)[o] <= r[o]
    ensures ls[o] <= r[o]
  {
    assert ls[o] <= Push(ls, k, p)[o];
  }

  /** `add_region` only appends to the lists. */
  lemma {:induction false} AddBlocksKeeps(ls: Lists, pfn: nat, remaining: nat, o: nat)
    requires o <= MAX_ORDER
    ensures ls[o] <= AddBlocks(ls, pfn, remaining)[o]
    decreases remaining
  {
    if remaining > 0 {
      var k := PickOrder(pfn, remaining, MAX_ORDER);
      AddBlocksKeeps(Push(ls, k, pfn), pfn + Pow2(k), remaining - Pow2(k), o);
      AppendsStep(ls, k, pfn, o, AddBlocks(ls, pfn, remaining));
    }
  }

  /** A free block whose buddy comes in with the region stays listed unmerged. */
  lemma PairUnmerged(ls: Lists, F: set<nat>, start: nat, count: nat, o: nat, p: nat)
    requires Canon(ls, F) && o < MAX_ORDER && p in ls[o] && Pages(BuddyOf(p, o), o) <= Range(start, start + count)
    ensures !Canon(AddBlocks(ls, start, count), F + Range(start, start + count))
  {
    var ls', R := AddBlocks(ls, start, count), Range(start, start + count);
    ListedFull(ls, F, p, o);
    BuddyFacts(p, o);
    FullIsPages(F + R, Min(p, BuddyOf(p, o)), o + 1);
    AddBlocksKeeps(ls, start, count, o);
    assert p in ls'[o];
    assert p in multiset(ls'[o]);
    assert !Listed(ls', F + R, o, p);
  }

  /** `add_region` never merges, so the lists stay canonical exactly when no free
      block's buddy lies wholly inside the added region. */
  lemma AddRegionCanon(ls: Lists, F: set<nat>, start: nat, count: nat)
    requires Canon(ls, F) && F !! Range(start, start + count)
    ensures Canon(AddBlocks(ls, start, count), F + Range(start, start + count)) <==>
            NoBuddyInside(ls, start, start + count)
  {
    var end := start + count;
    if NoBuddyInside(ls, start, end) {
      NoPairFromLists(ls, F, start, end);
      BoundaryStart(start, end);
      assert F + Range(start, start) == F;
      AddBlocksCanon(ls, F, start, start, end);
    } else {
      var o: nat, p: nat :| o < MAX_ORDER && p in ls[o] && Pages(BuddyOf(p, o), o) <= Range(start, end);
      PairUnmerged(ls, F, start, count, o, p);
    }
  }

  lemma BoundaryStart(start: nat, end: nat)
    ensures Boundary(start, start, end)
  {
  }

  /** A single region given to an empty allocator is always stored canonically. */
  lemma FirstRegionCanon(start: nat, count: nat)
    ensures Canon(AddBlocks([[], [], [], [], [], [], [], [], [], []], start, count), Range(start, start + count))
  {
    var ls: Lists := [[], [], [], [], [], [], [], [], [], []];
    EmptyCanon(ls);
    AddRegionCanon(ls, {}, start, count);
    assert {} + Range(start, start + count) == Range(start, start + count);
  }

  lemma EmptyCanon(ls: Lists)
    requires forall o :: 0 <= o <= MAX_ORDER ==> ls[o] == []
    ensures Canon(ls, {})
  {
    forall o: nat, p: nat | o <= MAX_ORDER ensures Listed(ls, {}, o, p) {
      FirstPage(Shr(p, o), o);
    }
  }

  /** Two adjacent one-page regions show the failing case: the pages 0 and 1 are
      listed as two blocks of order 0 although together they are one of order 1. */
  lemma AdjacentRegionsUnmerged()
    ensures var ls := AddBlocks(AddBlocks([[], [], [], [], [], [], [], [], [], []], 0, 1), 1, 1);
      && ls[0] == [0, 1] && ls[1] == [] && !Canon(ls, Range(0, 2))
  {
    var empty: Lists := [[], [], [], [], [], [], [], [], [], []];
    OnePage(empty, 0);
    OnePage(AddBlocks(empty, 0, 1), 1);
    var ls := AddBlocks(AddBlocks(empty, 0, 1), 1, 1);
    FullIsPages(Range(0, 2), 0, 1);
    assert Pow2(1) == 2 && Shr(0, 0) == 0 && Aligned(0, 0) && Aligned(0, 1);
    assert multiset(ls[0])[0] == 1;
    assert !Listed(ls, Range(0, 2), 0, 0) by {
      assert Full(Range(0, 2), 0 / 2, 1);
    }
  }

  lemma OnePage(ls: Lists, p: nat)
    ensures AddBlocks(ls, p, 1) == ls[0 := ls[0] + [p]]
  {
    var o := PickOrder(p, 1, MAX_ORDER);
    assert o > 0 ==> Pow2(o) >= 2;
    assert Pow2(0) == 1;
    assert AddBlocks(Push(ls, 0, p), p + 1, 0) == Push(ls, 0, p);
  }
}
