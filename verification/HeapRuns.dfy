/** Heap safety over whole runs: every byte has at most one owner, and only small
    alignment and tail pieces are ever lost. */
module HeapRuns {
  import opened Wrappers
  import opened Bits
  import opened Heap

  /** An allocation in the caller's hands. */
  datatype Held = Held(ptr: nat, layout: Layout)

  function Extent(h: Held): Region {
    Region(h.ptr, AdjustedSize(h.layout))
  }

  /** The free list, the allocations held, and the `allocated` (here handedOut) and `total` counters. */
  datatype System = System(free: seq<Region>, live: seq<Held>, handedOut: int, total: nat)

  datatype Op = InitOp(start: nat, size: nat) | AllocOp(layout: Layout) | FreeOp(index: nat)

  function Drop(live: seq<Held>, i: nat): seq<Held>
    requires i < |live|
  {
    live[..i] + live[i + 1..]
  }

  function Step(s: System, op: Op): System {
    match op
    case InitOp(start, size) => s.(free := AddFree(s.free, start, size), total := s.total + size)
    case AllocOp(l) =>
      var (bs, r) := Alloc(s.free, l);
      if r.None? then s
      else s.(free := bs, live := s.live + [Held(r.value, l)], handedOut := s.handedOut + AdjustedSize(l))
    case FreeOp(i) =>
      if i >= |s.live| then s else
      var h := s.live[i];
      s.(free := Dealloc(s.free, h.ptr, h.layout), live := Drop(s.live, i),
         handedOut := s.handedOut - AdjustedSize(h.layout))
  }

  // ---------------------------------------------------------------- ownership

  function One(b: bool): nat {
    if b then 1 else 0
  }

  /** How many free regions contain byte `x`. */
  function FreeOwners(bs: seq<Region>, x: nat): nat {
    if bs == [] then 0 else One(bs[0].Has(x)) + FreeOwners(bs[1..], x)
  }

  /** How many held allocations contain byte `x`. */
  function LiveOwners(live: seq<Held>, x: nat): nat {
    if live == [] then 0 else One(Extent(live[0]).Has(x)) + LiveOwners(live[1..], x)
  }

  function LiveSize(live: seq<Held>): nat {
    if live == [] then 0 else AdjustedSize(live[0].layout) + LiveSize(live[1..])
  }

  lemma {:induction false} FreeWithout(bs: seq<Region>, i: nat, x: nat)
    requires i < |bs|
    ensures FreeOwners(Without(bs, i), x) == FreeOwners(bs, x) - One(bs[i].Has(x))
    decreases i
  {
    if i == 0 {
      assert Without(bs, 0) == bs[1..];
    } else {
      FreeWithout(bs[1..], i - 1, x);
      assert Without(bs, i) == [bs[0]] + Without(bs[1..], i - 1);
    }
  }

  lemma FreeCons(r: Region, bs: seq<Region>, x: nat)
    ensures FreeOwners([r] + bs, x) == One(r.Has(x)) + FreeOwners(bs, x)
  {
    assert ([r] + bs)[1..] == bs;
  }

  lemma {:induction false} LiveDrop(live: seq<Held>, i: nat, x: nat)
    requires i < |live|
    ensures LiveOwners(Drop(live, i), x) == LiveOwners(live, x) - One(Extent(live[i]).Has(x))
    decreases i
  {
    if i == 0 {
      assert Drop(live, 0) == live[1..];
    } else {
      LiveDrop(live[1..], i - 1, x);
      assert Drop(live, i) == [live[0]] + Drop(live[1..], i - 1);
      assert Drop(live, i)[1..] == Drop(live[1..], i - 1);
    }
  }

  lemma {:induction false} LiveSnoc(live: seq<Held>, h: Held, x: nat)
    ensures LiveOwners(live + [h], x) == LiveOwners(live, x) + One(Extent(h).Has(x))
  {
    if live == [] {
      assert live + [h] == [h];
    } else {
      LiveSnoc(live[1..], h, x);
      assert (live + [h])[1..] == live[1..] + [h];
    }
  }

  lemma {:induction false} SizeDrop(live: seq<Held>, i: nat)
    requires i < |live|
    ensures LiveSize(Drop(live, i)) == LiveSize(live) - AdjustedSize(live[i].layout)
    decreases i
  {
    if i == 0 {
      assert Drop(live, 0) == live[1..];
    } else {
      SizeDrop(live[1..], i - 1);
      assert Drop(live, i)[1..] == Drop(live[1..], i - 1);
    }
  }

  lemma {:induction false} SizeSnoc(live: seq<Held>, h: Held)
    ensures LiveSize(live + [h]) == LiveSize(live) + AdjustedSize(h.layout)
  {
    if live == [] {
      assert live + [h] == [h];
    } else {
      SizeSnoc(live[1..], h);
      assert (live + [h])[1..] == live[1..] + [h];
    }
  }

  // ---------------------------------------------------------------- invariant

  /** A listed region can hold a header and lies in the arena's address range. */
  predicate RegionOk(r: Region, top: nat) {
    r.start % 8 == 0 && r.start > 0 && r.size >= MIN_BLOCK && r.start + r.size <= top
  }

  predicate HeldOk(h: Held, top: nat) {
    h.ptr % Pow2(AlignLog(h.layout)) == 0 && h.ptr > 0 && h.ptr + AdjustedSize(h.layout) <= top
  }

  function Owners(s: System, x: nat): nat {
    FreeOwners(s.free, x) + LiveOwners(s.live, x)
  }

  ghost predicate OwnedOk(s: System, arena: set<nat>, x: nat) {
    Owners(s, x) <= One(x in arena)
  }

  /** Every arena byte has at most one owner and no other byte has any. */
  ghost predicate Safe(s: System, arena: set<nat>, top: nat) {
    && (forall r :: r in s.free ==> RegionOk(r, top))
    && (forall h :: h in s.live ==> HeldOk(h, top))
    && (forall x: nat :: OwnedOk(s, arena, x))
    && s.handedOut == LiveSize(s.live)
  }

  /** An arena byte that is neither free nor held. */
  ghost predicate Lost(s: System, arena: set<nat>, x: nat) {
    x in arena && Owners(s, x) == 0
  }

  // --------------------------------------------------------------- allocating

  /** The piece carved from block `r`: where it starts. */
  function CarveAt(r: Region, l: Layout): nat {
    AlignUp(r.start, AlignLog(l))
  }

  function FrontOf(r: Region, l: Layout): Region {
    Region(r.start, if CarveAt(r, l) >= r.start then CarveAt(r, l) - r.start else 0)
  }

  function TailOf(r: Region, l: Layout): Region {
    var end := CarveAt(r, l) + AdjustedSize(l);
    Region(end, if r.start + r.size >= end then r.start + r.size - end else 0)
  }

  predicate Carvable(r: Region, l: Layout, top: nat) {
    RegionOk(r, top) && top <= USIZE_LIMIT - 8 && Unwrapped(r, l) && Fits(r, AdjustedSize(l), AlignLog(l))
  }

  lemma CarveAligned(r: Region, l: Layout, top: nat)
    requires Carvable(r, l, top)
    ensures CarveAt(r, l) % Pow2(AlignLog(l)) == 0 && CarveAt(r, l) >= r.start
    ensures CarveAt(r, l) % 8 == 0 && AdjustedSize(l) % 8 == 0
    ensures CarveAt(r, l) + AdjustedSize(l) <= r.start + r.size && (CarveAt(r, l) + AdjustedSize(l)) % 8 == 0
  {
    AdjustedOk(l);
    AlignUpLeast(r.start, AlignLog(l), 0);
    EightDivides(CarveAt(r, l), AlignLog(l));
    SumOfEights(CarveAt(r, l), AdjustedSize(l));
  }

  lemma SumOfEights(a: nat, b: nat)
    requires a % 8 == 0 && b % 8 == 0
    ensures (a + b) % 8 == 0
  {
  }

  lemma CutInThree(r: Region, at: nat, size: nat, x: nat)
    requires r.start <= at && at + size <= r.start + r.size
    ensures One(r.Has(x)) == One(Region(r.start, at - r.start).Has(x)) + One(Region(at, size).Has(x))
      + One(Region(at + size, r.start + r.size - (at + size)).Has(x))
  {
  }

  /** `x` falls into exactly one of the parts that a carved block is cut into. */
  lemma CarveParts(r: Region, l: Layout, top: nat, x: nat)
    requires Carvable(r, l, top)
    ensures CarveAt(r, l) % Pow2(AlignLog(l)) == 0 && CarveAt(r, l) >= r.start
    ensures TailOf(r, l).start % 8 == 0 && CarveAt(r, l) + AdjustedSize(l) <= r.start + r.size
    ensures One(r.Has(x)) == One(FrontOf(r, l).Has(x)) + One(Region(CarveAt(r, l), AdjustedSize(l)).Has(x)) +
      One(TailOf(r, l).Has(x))
  {
    CarveAligned(r, l, top);
    CutInThree(r, CarveAt(r, l), AdjustedSize(l), x);
  }

  /** A piece as a list: dropped when it is too small for a header of 16 bytes. */
  function Piece(q: Region): seq<Region> {
    if q.size >= 16 then [q] else []
  }

  lemma FrontList(bs: seq<Region>, r: Region, at: nat)
    requires r.start <= at < USIZE_LIMIT && r.start % 8 == 0 && r.start + 8 <= USIZE_LIMIT
    ensures WithFront(bs, r, at) == Piece(Region(r.start, at - r.start)) + bs
  {
    if at - r.start >= MIN_BLOCK { AddAligned(bs, r.start, at - r.start); }
  }

  lemma TailList(bs: seq<Region>, r: Region, at: nat, size: nat)
    requires r.start <= at && at + size <= r.start + r.size <= USIZE_LIMIT - 8 && (at + size) % 8 == 0
    ensures GiveBack(bs, r, at, size) == Piece(Region(at + size, r.start + r.size - (at + size))) + WithFront(bs, r, at)
  {
    var tail := r.start + r.size - (at + size);
    if tail >= MIN_BLOCK { AddAligned(WithFront(bs, r, at), at + size, tail); }
  }

  /** What the list holds after carving `r` out of it: pieces below MIN_BLOCK are dropped. */
  lemma CarvedList(bs: seq<Region>, r: Region, l: Layout, top: nat)
    requires Carvable(r, l, top)
    ensures r.start <= CarveAt(r, l)
    ensures GiveBack(bs, r, CarveAt(r, l), AdjustedSize(l)) == Piece(TailOf(r, l)) + (Piece(FrontOf(r, l)) + bs)
  {
    CarveParts(r, l, top, 0);
    AdjustedOk(l);
    FrontList(bs, r, CarveAt(r, l));
    TailList(bs, r, CarveAt(r, l), AdjustedSize(l));
  }

  lemma PieceOwners(q: Region, bs: seq<Region>, x: nat)
    ensures FreeOwners(Piece(q) + bs, x) == FreeOwners(bs, x) + if q.size >= MIN_BLOCK then One(q.Has(x)) else 0
  {
    FreeCons(q, bs, x);
    assert [] + bs == bs;
  }

  lemma CarvedOwners(bs: seq<Region>, r: Region, l: Layout, top: nat, x: nat)
    requires Carvable(r, l, top)
    ensures r.start <= CarveAt(r, l)
    ensures FreeOwners(GiveBack(bs, r, CarveAt(r, l), AdjustedSize(l)), x) == FreeOwners(bs, x)
      + (if FrontOf(r, l).size >= MIN_BLOCK then One(FrontOf(r, l).Has(x)) else 0)
      + (if TailOf(r, l).size >= MIN_BLOCK then One(TailOf(r, l).Has(x)) else 0)
  {
    CarvedList(bs, r, l, top);
    PieceOwners(FrontOf(r, l), bs, x);
    PieceOwners(TailOf(r, l), Piece(FrontOf(r, l)) + bs, x);
  }

  /** The block a request is carved from. */
  function Chosen(s: System, l: Layout): Option<nat> {
    FirstFit(s.free, AdjustedSize(l), AlignLog(l), 0)
  }

  /** A safe heap in which the search for a request picks a block where nothing wraps. */
  ghost predicate AllocOk(s: System, l: Layout, arena: set<nat>, top: nat) {
    Safe(s, arena, top) && top <= USIZE_LIMIT - 8 && ChosenUnwrapped(s.free, l)
  }

  lemma ChosenCarvable(s: System, l: Layout, arena: set<nat>, top: nat)
    requires AllocOk(s, l, arena, top) && Chosen(s, l).Some?
    ensures Carvable(s.free[Chosen(s, l).value], l, top)
    ensures var r := s.free[Chosen(s, l).value];
      Step(s, AllocOp(l)) == System(
        GiveBack(Without(s.free, Chosen(s, l).value), r, CarveAt(r, l), AdjustedSize(l)),
        s.live + [Held(CarveAt(r, l), l)], s.handedOut + AdjustedSize(l), s.total)
  {
    assert s.free[Chosen(s, l).value] in s.free;
  }

  /** How one allocation moves each byte: bytes of the chosen block go to the new
      allocation, stay free, or are lost when their piece is below MIN_BLOCK. */
  lemma AllocOwners(s: System, l: Layout, arena: set<nat>, top: nat, x: nat)
    requires AllocOk(s, l, arena, top) && Chosen(s, l).Some?
    ensures var r := s.free[Chosen(s, l).value];
      Owners(Step(s, AllocOp(l)), x) == Owners(s, x)
        - (if FrontOf(r, l).size < MIN_BLOCK then One(FrontOf(r, l).Has(x)) else 0)
        - (if TailOf(r, l).size < MIN_BLOCK then One(TailOf(r, l).Has(x)) else 0)
  {
    var i := Chosen(s, l).value;
    var r := s.free[i];
    ChosenCarvable(s, l, arena, top);
    CarveParts(r, l, top, x);
    CarvedOwners(Without(s.free, i), r, l, top, x);
    FreeWithout(s.free, i, x);
    LiveSnoc(s.live, Held(CarveAt(r, l), l), x);
  }

  lemma PieceOk(r: Region, l: Layout, top: nat)
    requires Carvable(r, l, top)
    ensures FrontOf(r, l).size >= MIN_BLOCK ==> RegionOk(FrontOf(r, l), top)
    ensures TailOf(r, l).size >= MIN_BLOCK ==> RegionOk(TailOf(r, l), top)
  {
    CarveParts(r, l, top, 0);
  }

  lemma InPieces(tail: Region, front: Region, bs: seq<Region>, q: Region)
    requires q in Piece(tail) + (Piece(front) + bs)
    ensures (tail.size >= MIN_BLOCK && q == tail) || (front.size >= MIN_BLOCK && q == front) || q in bs
  {
  }

  lemma InWithout(bs: seq<Region>, i: nat, q: Region)
    requires i < |bs|
    ensures q in Without(bs, i) ==> q in bs
  {
  }

  lemma AllocRegions(s: System, l: Layout, arena: set<nat>, top: nat, q: Region)
    requires AllocOk(s, l, arena, top) && Chosen(s, l).Some?
    requires q in Step(s, AllocOp(l)).free
    ensures RegionOk(q, top)
  {
    var i := Chosen(s, l).value;
    ChosenCarvable(s, l, arena, top);
    PieceOk(s.free[i], l, top);
    CarvedList(Without(s.free, i), s.free[i], l, top);
    InPieces(TailOf(s.free[i], l), FrontOf(s.free[i], l), Without(s.free, i), q);
    InWithout(s.free, i, q);
  }

  /** Exactly what an allocation leaves: `n` bytes from the first aligned address of
      the chosen block are held, and what lies behind and before them is listed in
      front of the other blocks. */
  lemma AllocLeaves(s: System, l: Layout, arena: set<nat>, top: nat, at: nat, n: nat)
    requires AllocOk(s, l, arena, top) && Chosen(s, l).Some?
    requires FirstAligned(s.free[Chosen(s, l).value], l, at) && Needs(l, n)
    ensures var r, t := s.free[Chosen(s, l).value], Step(s, AllocOp(l));
      && r.start <= at && at + n <= r.start + r.size
      && t.free == Piece(Region(at + n, r.start + r.size - (at + n)))
                   + (Piece(Region(r.start, at - r.start)) + Without(s.free, Chosen(s, l).value))
      && t.live == s.live + [Held(at, l)] && t.handedOut == s.handedOut + n && t.total == s.total
  {
    var r := s.free[Chosen(s, l).value];
    ChosenCarvable(s, l, arena, top);
    CarveParts(r, l, top, 0);
    AdjustedNeeds(l, n);
    OneAligned(r, l, at);
    CarvedList(Without(s.free, Chosen(s, l).value), r, l, top);
    assert FrontOf(r, l) == Region(r.start, at - r.start);
    assert TailOf(r, l) == Region(at + n, r.start + r.size - (at + n));
  }

  lemma OneAligned(r: Region, l: Layout, at: nat)
    requires Unwrapped(r, l) && FirstAligned(r, l, at)
    ensures at == CarveAt(r, l)
  {
    GranuleIs(l);
    AlignUpLeast(r.start, AlignLog(l), at);
    OneMultiple(at, CarveAt(r, l), Granule(l));
  }

  lemma AllocKeepsSafe(s: System, l: Layout, arena: set<nat>, top: nat)
    requires AllocOk(s, l, arena, top)
    ensures Safe(Step(s, AllocOp(l)), arena, top)
  {
    if Chosen(s, l).Some? {
      var t, r := Step(s, AllocOp(l)), s.free[Chosen(s, l).value];
      ChosenCarvable(s, l, arena, top);
      CarveParts(r, l, top, 0);
      SizeSnoc(s.live, Held(CarveAt(r, l), l));
      forall q | q in t.free ensures RegionOk(q, top) { AllocRegions(s, l, arena, top, q); }
      forall h | h in t.live ensures HeldOk(h, top) {
        assert h in s.live || h == Held(CarveAt(r, l), l);
      }
      forall x: nat ensures OwnedOk(t, arena, x) {
        assert OwnedOk(s, arena, x);
        AllocOwners(s, l, arena, top, x);
      }
    }
  }

  /** One allocation keeps the heap safe exactly when nothing wraps in the block it is
      carved from. */
  lemma AllocSafe(s: System, l: Layout, arena: set<nat>, top: nat)
    requires Safe(s, arena, top) && top <= USIZE_LIMIT - 8
    ensures Safe(Step(s, AllocOp(l)), arena, top) <==> ChosenUnwrapped(s.free, l)
  {
    if ChosenUnwrapped(s.free, l) {
      AllocKeepsSafe(s, l, arena, top);
    } else {
      var r := s.free[Chosen(s, l).value];
      var h := Held(CarveAt(r, l), l);
      assert r in s.free && h in Step(s, AllocOp(l)).live;
      if !Reachable(r.start, AlignLog(l)) { AlignWrapped(r.start, AlignLog(l)); }
      assert !HeldOk(h, top);
    }
  }

  /** Nothing wraps for requests that leave room above the arena. */
  lemma RoomAbove(s: System, l: Layout, arena: set<nat>, top: nat)
    requires Safe(s, arena, top) && top + Pow2(AlignLog(l)) + AdjustedSize(l) <= USIZE_LIMIT
    ensures ChosenUnwrapped(s.free, l)
  {
    if Chosen(s, l).Some? {
      assert s.free[Chosen(s, l).value] in s.free;
      AlignUpLeast(s.free[Chosen(s, l).value].start, AlignLog(l), 0);
    }
  }

  /** Allocation never frees a lost byte, and loses only bytes of the chosen block in
      a front or tail piece shorter than MIN_BLOCK. */
  lemma AllocLoses(s: System, l: Layout, arena: set<nat>, top: nat, x: nat)
    requires AllocOk(s, l, arena, top)
    ensures Lost(s, arena, x) ==> Lost(Step(s, AllocOp(l)), arena, x)
    ensures Lost(Step(s, AllocOp(l)), arena, x) && !Lost(s, arena, x) ==>
      Chosen(s, l).Some? && var r := s.free[Chosen(s, l).value];
      && r.Has(x)
      && ((FrontOf(r, l).size < MIN_BLOCK && FrontOf(r, l).Has(x))
        || (TailOf(r, l).size < MIN_BLOCK && TailOf(r, l).Has(x)))
  {
    if Chosen(s, l).Some? {
      assert OwnedOk(s, arena, x);
      AllocOwners(s, l, arena, top, x);
      ChosenCarvable(s, l, arena, top);
      CarveParts(s.free[Chosen(s, l).value], l, top, x);
    }
  }

  // ------------------------------------------------------------------ freeing

  lemma FreedList(s: System, i: nat, arena: set<nat>, top: nat)
    requires Safe(s, arena, top) && i < |s.live| && top <= USIZE_LIMIT - 8
    ensures Step(s, FreeOp(i)) == System([Extent(s.live[i])] + s.free, Drop(s.live, i),
                                         s.handedOut - AdjustedSize(s.live[i].layout), s.total)
    ensures RegionOk(Extent(s.live[i]), top)
  {
    var h := s.live[i];
    assert HeldOk(h, top);
    AdjustedOk(h.layout);
    EightDivides(h.ptr, AlignLog(h.layout));
    AddAligned(s.free, h.ptr, AdjustedSize(h.layout));
  }

  /** Freeing moves bytes from held to free; no byte changes its number of owners. */
  lemma FreeKeepsOwners(s: System, i: nat, arena: set<nat>, top: nat, x: nat)
    requires Safe(s, arena, top) && i < |s.live| && top <= USIZE_LIMIT - 8
    ensures Owners(Step(s, FreeOp(i)), x) == Owners(s, x)
  {
    FreedList(s, i, arena, top);
    FreeCons(Extent(s.live[i]), s.free, x);
    LiveDrop(s.live, i, x);
  }

  lemma FreeSafe(s: System, i: nat, arena: set<nat>, top: nat)
    requires Safe(s, arena, top) && i < |s.live| && top <= USIZE_LIMIT - 8
    ensures Safe(Step(s, FreeOp(i)), arena, top)
  {
    var t := Step(s, FreeOp(i));
    FreedList(s, i, arena, top);
    SizeDrop(s.live, i);
    forall x: nat ensures OwnedOk(t, arena, x) {
      assert OwnedOk(s, arena, x);
      FreeKeepsOwners(s, i, arena, top, x);
    }
  }

  // ------------------------------------------------------------- initialising

  ghost function Span(start: nat, size: nat): (r: set<nat>)
    ensures forall x: nat :: x in r <==> Region(start, size).Has(x)
  {
    set x: nat | x < start + size && Region(start, size).Has(x)
  }

  /** A new region: the unaligned edge, or a region too small for a header, is lost. */
  lemma InitSafe(s: System, start: nat, size: nat, arena: set<nat>, top: nat)
    requires Safe(s, arena, top) && arena !! Span(start, size)
    requires start > 0 && start + size <= top <= USIZE_LIMIT - 8
    ensures Safe(Step(s, InitOp(start, size)), arena + Span(start, size), top)
  {
    var t, a := Step(s, InitOp(start, size)), AlignUp(start, 3);
    assert Pow2(3) == 8;
    AlignUpLeast(start, 3, 0);
    forall x: nat ensures OwnedOk(t, arena + Span(start, size), x) {
      assert OwnedOk(s, arena, x);
      if size >= a - start + MIN_BLOCK { FreeCons(Region(a, start + size - a), s.free, x); }
    }
  }

  // --------------------------------------------------------------------- runs

  ghost predicate Allowed(s: System, op: Op, arena: set<nat>, top: nat) {
    match op
    case InitOp(start, size) => start > 0 && start + size <= top && arena !! Span(start, size)
    case AllocOp(l) => ChosenUnwrapped(s.free, l)
    case FreeOp(i) => i < |s.live|
  }

  ghost function ArenaAfter(op: Op, arena: set<nat>): set<nat> {
    if op.InitOp? then arena + Span(op.start, op.size) else arena
  }

  ghost predicate Legal(s: System, ops: seq<Op>, arena: set<nat>, top: nat)
    decreases |ops|
  {
    ops == [] || (Allowed(s, ops[0], arena, top) && Legal(Step(s, ops[0]), ops[1..], ArenaAfter(ops[0], arena), top))
  }

  function Run(s: System, ops: seq<Op>): System
    decreases |ops|
  {
    if ops == [] then s else Run(Step(s, ops[0]), ops[1..])
  }

  ghost function ArenaRun(ops: seq<Op>, arena: set<nat>): set<nat>
    decreases |ops|
  {
    if ops == [] then arena else ArenaRun(ops[1..], ArenaAfter(ops[0], arena))
  }

  /** After any run the heap is safe, and a byte lost once stays lost. */
  lemma {:induction false} RunSafe(s: System, ops: seq<Op>, arena: set<nat>, top: nat, x: nat)
    requires Safe(s, arena, top) && Legal(s, ops, arena, top) && top <= USIZE_LIMIT - 8
    ensures Safe(Run(s, ops), ArenaRun(ops, arena), top)
    ensures Lost(s, arena, x) ==> Lost(Run(s, ops), ArenaRun(ops, arena), x)
    decreases |ops|
  {
    if ops != [] {
      match ops[0] {
        case InitOp(start, size) =>
          InitSafe(s, start, size, arena, top);
          InitKeepsLost(s, start, size, arena, top, x);
        case AllocOp(l) =>
          AllocKeepsSafe(s, l, arena, top);
          AllocLoses(s, l, arena, top, x);
        case FreeOp(i) =>
          FreeSafe(s, i, arena, top);
          FreeKeepsOwners(s, i, arena, top, x);
      }
      RunSafe(Step(s, ops[0]), ops[1..], ArenaAfter(ops[0], arena), top, x);
    }
  }

  lemma InitKeepsLost(s: System, start: nat, size: nat, arena: set<nat>, top: nat, x: nat)
    requires Safe(s, arena, top) && arena !! Span(start, size)
    requires start > 0 && start + size <= top <= USIZE_LIMIT - 8
    ensures Lost(s, arena, x) ==> Lost(Step(s, InitOp(start, size)), arena + Span(start, size), x)
  {
    var a := AlignUp(start, 3);
    assert Pow2(3) == 8;
    AlignUpLeast(start, 3, 0);
    if size >= a - start + MIN_BLOCK { FreeCons(Region(a, start + size - a), s.free, x); }
  }

  /** The empty heap. */
  lemma EmptySafe(top: nat)
    ensures Safe(System([], [], 0, 0), {}, top)
  {
    forall x: nat ensures OwnedOk(System([], [], 0, 0), {}, x) { }
  }

  // ------------------------------------------------- what one owner amounts to

  lemma {:induction false} LiveOwnersAt(live: seq<Held>, i: nat, x: nat)
    requires i < |live| && Extent(live[i]).Has(x)
    ensures LiveOwners(live, x) >= 1
  {
    if i > 0 { LiveOwnersAt(live[1..], i - 1, x); }
  }

  lemma {:induction false} LiveOwnersTwo(live: seq<Held>, i: nat, j: nat, x: nat)
    requires i < j < |live| && Extent(live[i]).Has(x) && Extent(live[j]).Has(x)
    ensures LiveOwners(live, x) >= 2
  {
    if i > 0 { LiveOwnersTwo(live[1..], i - 1, j - 1, x); } else { LiveOwnersAt(live[1..], j - 1, x); }
  }

  lemma {:induction false} FreeOwnersAt(bs: seq<Region>, i: nat, x: nat)
    requires i < |bs| && bs[i].Has(x)
    ensures FreeOwners(bs, x) >= 1
  {
    if i > 0 { FreeOwnersAt(bs[1..], i - 1, x); }
  }

  lemma {:induction false} FreeOwnersTwo(bs: seq<Region>, i: nat, j: nat, x: nat)
    requires i < j < |bs| && bs[i].Has(x) && bs[j].Has(x)
    ensures FreeOwners(bs, x) >= 2
  {
    if i > 0 { FreeOwnersTwo(bs[1..], i - 1, j - 1, x); } else { FreeOwnersAt(bs[1..], j - 1, x); }
  }

  /** In a safe heap allocations are disjoint from each other and from every free
      region, free regions are disjoint, and all lie in the arena. */
  lemma Disjoint(s: System, arena: set<nat>, top: nat, x: nat)
    requires Safe(s, arena, top)
    ensures forall i, j :: 0 <= i < j < |s.live| ==> !(Extent(s.live[i]).Has(x) && Extent(s.live[j]).Has(x))
    ensures forall i, j :: 0 <= i < j < |s.free| ==> !(s.free[i].Has(x) && s.free[j].Has(x))
    ensures forall i, j :: 0 <= i < |s.live| && 0 <= j < |s.free| ==> !(Extent(s.live[i]).Has(x) && s.free[j].Has(x))
    ensures forall i :: 0 <= i < |s.live| && Extent(s.live[i]).Has(x) ==> x in arena
    ensures forall i :: 0 <= i < |s.free| && s.free[i].Has(x) ==> x in arena
  {
    assert OwnedOk(s, arena, x);
    forall i: nat | i < |s.live| && Extent(s.live[i]).Has(x) ensures LiveOwners(s.live, x) >= 1 {
      LiveOwnersAt(s.live, i, x);
    }
    forall i: nat | i < |s.free| && s.free[i].Has(x) ensures FreeOwners(s.free, x) >= 1 {
      FreeOwnersAt(s.free, i, x);
    }
    forall i: nat, j: nat | i < j < |s.live| && Extent(s.live[i]).Has(x) && Extent(s.live[j]).Has(x)
      ensures LiveOwners(s.live, x) >= 2 {
      LiveOwnersTwo(s.live, i, j, x);
    }
    forall i: nat, j: nat | i < j < |s.free| && s.free[i].Has(x) && s.free[j].Has(x)
      ensures FreeOwners(s.free, x) >= 2 {
      FreeOwnersTwo(s.free, i, j, x);
    }
  }

  // ------------------------------------------------------------ fragmentation

  /** Every free region and every allocation is smaller than `n` bytes. */
  predicate SmallerThan(s: System, n: nat) {
    && (forall r :: r in s.free ==> r.size < n)
    && (forall h :: h in s.live ==> AdjustedSize(h.layout) < n)
  }

  lemma AllocShrinks(s: System, l: Layout, arena: set<nat>, top: nat, n: nat)
    requires AllocOk(s, l, arena, top) && SmallerThan(s, n)
    ensures SmallerThan(Step(s, AllocOp(l)), n)
  {
    if Chosen(s, l).Some? {
      var t, i := Step(s, AllocOp(l)), Chosen(s, l).value;
      ChosenCarvable(s, l, arena, top);
      CarveParts(s.free[i], l, top, 0);
      assert s.free[i] in s.free;
      CarvedList(Without(s.free, i), s.free[i], l, top);
      forall q | q in t.free ensures q.size < n {
        InPieces(TailOf(s.free[i], l), FrontOf(s.free[i], l), Without(s.free, i), q);
        InWithout(s.free, i, q);
      }
    }
  }

  lemma TooSmall(s: System, arena: set<nat>, top: nat, n: nat, l: Layout)
    requires AllocOk(s, l, arena, top) && SmallerThan(s, n) && AdjustedSize(l) >= n
    ensures Alloc(s.free, l).1 == None
  {
    forall j | 0 <= j < |s.free| ensures s.free[j].start + s.free[j].size < USIZE_LIMIT && !CanHold(s.free[j], l) {
      assert s.free[j] in s.free;
      if CanHold(s.free[j], l) {
        var at: nat, m: nat :| HoldsAt(s.free[j], l, at, m);
        AdjustedNeeds(l, m);
      }
    }
    FirstFitOnly(s.free, l);
  }

  /** Freed neighbours are never merged: once every piece is smaller than `n`, no run
      of allocations and frees ever satisfies a request of `n` bytes again. */
  lemma {:induction false} NeverCoalesces(s: System, ops: seq<Op>, arena: set<nat>, top: nat, n: nat, l: Layout)
    requires Safe(s, arena, top) && Legal(s, ops, arena, top) && top <= USIZE_LIMIT - 8
    requires SmallerThan(s, n) && forall op :: op in ops ==> !op.InitOp?
    requires AdjustedSize(l) >= n && ChosenUnwrapped(Run(s, ops).free, l)
    ensures SmallerThan(Run(s, ops), n) && Alloc(Run(s, ops).free, l).1 == None
    decreases |ops|
  {
    if ops == [] {
      TooSmall(s, arena, top, n, l);
    } else {
      assert ops[0] in ops;
      match ops[0] {
        case AllocOp(k) =>
          AllocKeepsSafe(s, k, arena, top);
          AllocShrinks(s, k, arena, top, n);
        case FreeOp(i) =>
          FreeSafe(s, i, arena, top);
          FreedList(s, i, arena, top);
      }
      NeverCoalesces(Step(s, ops[0]), ops[1..], arena, top, n, l);
    }
  }

  /** After any run a request is met if and only if one free region by itself can hold
      it, however much is free around that region. */
  lemma GrantedAfterRun(s: System, ops: seq<Op>, arena: set<nat>, top: nat, l: Layout)
    requires Safe(s, arena, top) && Legal(s, ops, arena, top) && top <= USIZE_LIMIT - 8
    requires ChosenUnwrapped(Run(s, ops).free, l)
    ensures Alloc(Run(s, ops).free, l).1.Some? <==> exists r :: r in Run(s, ops).free && CanHold(r, l)
  {
    var t := Run(s, ops);
    RunSafe(s, ops, arena, top, 0);
    forall j | 0 <= j < |t.free| ensures t.free[j].start + t.free[j].size < USIZE_LIMIT { assert t.free[j] in t.free; }
    FirstFitOnly(t.free, l);
    if Alloc(t.free, l).1.Some? {
      var i: nat :| HoldsFirst(t.free, l, i, Alloc(t.free, l).1.value);
      assert t.free[i] in t.free && CanHold(t.free[i], l);
    }
  }
}
