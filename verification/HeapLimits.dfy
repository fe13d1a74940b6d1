/** Two limits of the kernel heap, with inputs that meet them: freed neighbours stay
    apart, and the search compares addresses that may have wrapped. */
module HeapLimits {
  import opened Wrappers
  import opened Bits
  import opened Heap
  import opened HeapRuns

  function Words(n: nat): Layout
    requires n < 1024
  {
    RawLayout(8 * n, 3)
  }

  lemma WordsSize(n: nat)
    requires 2 <= n < 1024
    ensures AlignLog(Words(n)) == 3 && AdjustedSize(Words(n)) == 8 * n
  {
    assert Pow2(3) == 8;
    AlignUpLeast(8 * n, 3, 8 * n);
  }

  lemma WordsFit(r: Region, n: nat)
    requires r.start % 8 == 0 && 2 <= n < 1024 && r.start + r.size < USIZE_LIMIT - 0x4000
    ensures AlignUp(r.start, 3) == r.start && Unwrapped(r, Words(n))
    ensures Fits(r, 8 * n, 3) <==> 8 * n <= r.size
    ensures CanHold(r, Words(n)) <==> 8 * n <= r.size
  {
    assert Pow2(3) == 8;
    WordsSize(n);
    AlignUpLeast(r.start, 3, r.start);
    FitsExactly(r, Words(n));
  }

  /** 32 bytes given to the heap, two allocations of 16 bytes made, and both freed. */
  function SplitAndFree(base: nat): seq<Op> {
    [InitOp(base, 32)] + ([AllocOp(Words(2))] + TakeAndFree())
  }

  function TakeAndFree(): seq<Op> {
    [AllocOp(Words(2))] + ([FreeOp(0)] + ([FreeOp(0)] + []))
  }

  lemma RunCons(s: System, op: Op, u: System, rest: seq<Op>, t: System)
    requires Step(s, op) == u && Run(u, rest) == t
    ensures Run(s, [op] + rest) == t
  {
    assert ([op] + rest)[1..] == rest;
  }

  predicate BaseOk(base: nat) {
    base % 8 == 0 && 0 < base < USIZE_LIMIT - 0x8000
  }

  lemma AfterInit(base: nat)
    requires BaseOk(base)
    ensures Step(System([], [], 0, 0), InitOp(base, 32)) == System([Region(base, 32)], [], 0, 32)
  {
    AddAligned([], base, 32);
  }

  lemma TakeFirst(base: nat, s: System)
    requires BaseOk(base) && s.free == [Region(base, 32)]
    ensures Step(s, AllocOp(Words(2))) ==
      System([Region(base + 16, 16)], s.live + [Held(base, Words(2))], s.handedOut + 16, s.total)
  {
    WordsSize(2);
    WordsFit(s.free[0], 2);
    AddAligned([], base + 16, 16);
    assert Without(s.free, 0) == [];
  }

  lemma TakeLast(base: nat, s: System)
    requires BaseOk(base) && s.free == [Region(base + 16, 16)]
    ensures Step(s, AllocOp(Words(2))) == System([], s.live + [Held(base + 16, Words(2))], s.handedOut + 16, s.total)
  {
    WordsSize(2);
    WordsFit(s.free[0], 2);
    assert Without(s.free, 0) == [];
  }

  lemma FreeFirst(s: System, at: nat)
    requires BaseOk(at) && s.live != [] && s.live[0] == Held(at, Words(2))
    ensures Step(s, FreeOp(0)) == System([Region(at, 16)] + s.free, s.live[1..], s.handedOut - 16, s.total)
  {
    WordsSize(2);
    AddAligned(s.free, at, 16);
    assert Drop(s.live, 0) == s.live[1..];
  }

  function Neighbours(base: nat): System {
    System([Region(base + 16, 16), Region(base, 16)], [], 0, 32)
  }

  lemma FreesBoth(base: nat, s: System)
    requires BaseOk(base) && BaseOk(base + 16)
    requires s == System([], [Held(base, Words(2)), Held(base + 16, Words(2))], 32, 32)
    ensures Run(s, [FreeOp(0)] + ([FreeOp(0)] + [])) == Neighbours(base)
  {
    var t := System([Region(base, 16)], [Held(base + 16, Words(2))], 16, 32);
    FreeFirst(s, base);
    assert [Region(base, 16)] + s.free == t.free;
    FreeFirst(t, base + 16);
    assert [Region(base + 16, 16)] + t.free == Neighbours(base).free;
    RunCons(t, FreeOp(0), Neighbours(base), [], Neighbours(base));
    RunCons(s, FreeOp(0), t, [FreeOp(0)] + [], Neighbours(base));
  }

  lemma TakesAndFrees(base: nat, s: System)
    requires BaseOk(base) && BaseOk(base + 16)
    requires s == System([Region(base + 16, 16)], [Held(base, Words(2))], 16, 32)
    ensures Run(s, TakeAndFree()) == Neighbours(base)
  {
    var t := System([], [Held(base, Words(2)), Held(base + 16, Words(2))], 32, 32);
    TakeLast(base, s);
    FreesBoth(base, t);
    RunCons(s, AllocOp(Words(2)), t, [FreeOp(0)] + ([FreeOp(0)] + []), Neighbours(base));
  }

  lemma SplitsAndFrees(base: nat)
    requires BaseOk(base) && BaseOk(base + 16)
    ensures Run(System([], [], 0, 0), SplitAndFree(base)) == Neighbours(base)
  {
    var s := System([Region(base, 32)], [], 0, 32);
    var t := System([Region(base + 16, 16)], [Held(base, Words(2))], 16, 32);
    AfterInit(base);
    TakeFirst(base, s);
    TakesAndFrees(base, t);
    RunCons(s, AllocOp(Words(2)), t, TakeAndFree(), Neighbours(base));
    RunCons(System([], [], 0, 0), InitOp(base, 32), s, [AllocOp(Words(2))] + TakeAndFree(), Neighbours(base));
  }

  /** The input: after that run all 32 bytes are free and side by side, and a request
      for 32 bytes fails. */
  lemma FreedNeighbours(base: nat)
    requires BaseOk(base) && BaseOk(base + 16)
    ensures var t := Run(System([], [], 0, 0), SplitAndFree(base));
      && t.live == [] && t.free == [Region(base + 16, 16), Region(base, 16)]
      && AdjustedSize(Words(4)) == 32 && Alloc(t.free, Words(4)).1 == None
  {
    SplitsAndFrees(base);
    NoneHolds(base);
  }

  lemma NoneHolds(base: nat)
    requires BaseOk(base) && BaseOk(base + 16)
    ensures AdjustedSize(Words(4)) == 32 && Alloc(Neighbours(base).free, Words(4)).1 == None
  {
    WordsSize(4);
    WordsFit(Region(base, 16), 4);
    WordsFit(Region(base + 16, 16), 4);
  }

  // ---------------------------------------------------------------- wrapping

  /** Where the kernel is linked; its heap lies above. */
  const KERNEL_BASE: nat := 0xFFFF_FFFF_8020_0000

  /** The search grants a block that cannot hold the request exactly when the test
      passes on addresses that wrapped. */
  lemma WrongGrant(r: Region, l: Layout)
    requires r.start + r.size < USIZE_LIMIT
    ensures Fits(r, AdjustedSize(l), AlignLog(l)) && !CanHold(r, l) <==>
            Fits(r, AdjustedSize(l), AlignLog(l)) && !Unwrapped(r, l)
    ensures CanHold(r, l) ==> Unwrapped(r, l)
  {
    if CanHold(r, l) { HoldingUnwrapped(r, l); }
    if Unwrapped(r, l) { FitsExactly(r, l); }
  }

  /** For a block above KERNEL_BASE the test always passes when addresses wrap: the
      block is granted exactly when it can hold the request or something wraps. */
  lemma KernelGrant(r: Region, l: Layout)
    requires KERNEL_BASE <= r.start && r.start + r.size < USIZE_LIMIT
    ensures Fits(r, AdjustedSize(l), AlignLog(l)) <==> CanHold(r, l) || !Unwrapped(r, l)
  {
    if CanHold(r, l) { HoldingUnwrapped(r, l); }
    if Unwrapped(r, l) { FitsExactly(r, l); } else { WrappedFits(r, l); }
  }

  lemma WrappedFits(r: Region, l: Layout)
    requires KERNEL_BASE <= r.start && r.start + r.size < USIZE_LIMIT && !Unwrapped(r, l)
    ensures Fits(r, AdjustedSize(l), AlignLog(l))
  {
    AdjustedOk(l);
    WrappedEnd(r, l);
  }

  lemma WrappedEnd(r: Region, l: Layout)
    requires r.start < USIZE_LIMIT && !Unwrapped(r, l)
    ensures Wrap(AlignUp(r.start, AlignLog(l)) + AdjustedSize(l)) <= AdjustedSize(l)
  {
    AdjustedOk(l);
    if Reachable(r.start, AlignLog(l)) {
      AlignBelow(r.start, AlignLog(l));
      WrapPast(AlignUp(r.start, AlignLog(l)) + AdjustedSize(l));
    } else {
      AlignWrapped(r.start, AlignLog(l));
    }
  }

  lemma WrapPast(x: nat)
    requires USIZE_LIMIT <= x < 2 * USIZE_LIMIT
    ensures Wrap(x) == x - USIZE_LIMIT
  {
  }

  lemma AlignBelow(addr: nat, k: nat)
    requires Reachable(addr, k)
    ensures AlignUp(addr, k) < USIZE_LIMIT
  {
    AlignUpLeast(addr, k, 0);
  }

  /** The input: a page at KERNEL_BASE, asked for 0x7FE0_0000 bytes, is granted. */
  lemma HugeRequestGranted()
    ensures var r, l: Layout := Region(KERNEL_BASE, 4096), RawLayout(0x7FE0_0000, 3);
      Alloc([r], l).1 == Some(KERNEL_BASE) && AdjustedSize(l) == 0x7FE0_0000 && !CanHold(r, l)
  {
    var r, l: Layout := Region(KERNEL_BASE, 4096), RawLayout(0x7FE0_0000, 3);
    assert Pow2(3) == 8;
    AlignUpLeast(0x7FE0_0000, 3, 0x7FE0_0000);
    AlignUpLeast(KERNEL_BASE, 3, KERNEL_BASE);
    WrongGrant(r, l);
  }
}
