/** The kernel heap object: its free list lives inside the memory it manages. */
module HeapMachine {
  import opened Wrappers
  import opened Bits
  import opened HeapMemory
  import opened Heap
  import opened HeapRuns
  import opened HeapList

  /** Bytes outside the old free regions keep their value. */
  ghost predicate KeepsHeld(mem: Memory, mem': Memory, bs: seq<Region>) {
    forall x: nat :: FreeOwners(bs, x) == 0 ==> Get(mem', x) == Get(mem, x)
  }

  /** Every byte of the given allocations keeps its value. */
  ghost predicate HeldIntact(mem: Memory, mem': Memory, live: seq<Held>) {
    forall x: nat :: LiveOwners(live, x) > 0 ==> Get(mem', x) == Get(mem, x)
  }

  /** Writing only free memory leaves every allocation intact. */
  lemma FreeWritesOnly(s: System, arena: set<nat>, top: nat, mem: Memory, mem': Memory)
    requires Safe(s, arena, top) && KeepsHeld(mem, mem', s.free)
    ensures HeldIntact(mem, mem', s.live)
  {
    forall x: nat | LiveOwners(s.live, x) > 0 ensures Get(mem', x) == Get(mem, x) {
      assert OwnedOk(s, arena, x);
    }
  }

  /** Writing only one allocation leaves the others intact. */
  lemma OthersIntact(s: System, arena: set<nat>, top: nat, mem: Memory, mem': Memory, i: nat)
    requires Safe(s, arena, top) && i < |s.live|
    requires SameOutside(mem, mem', s.live[i].ptr, s.live[i].ptr + AdjustedSize(s.live[i].layout))
    ensures HeldIntact(mem, mem', Drop(s.live, i))
  {
    forall x: nat | LiveOwners(Drop(s.live, i), x) > 0 ensures Get(mem', x) == Get(mem, x) {
      assert OwnedOk(s, arena, x);
      LiveDrop(s.live, i, x);
    }
  }

  lemma KeepsTrans(mem: Memory, mem1: Memory, mem2: Memory, bs: seq<Region>, i: nat, lo: nat, hi: nat)
    requires KeepsHeld(mem, mem1, bs) && SameOutside(mem1, mem2, lo, hi)
    requires i < |bs| && bs[i].start <= lo <= hi <= bs[i].start + bs[i].size
    ensures KeepsHeld(mem, mem2, bs)
  {
    forall x: nat | FreeOwners(bs, x) == 0 ensures Get(mem2, x) == Get(mem, x) {
      if bs[i].Has(x) { FreeOwnersAt(bs, i, x); }
    }
  }

  /** Headers of the other regions survive a write into region `i`. */
  lemma OthersKeep(s: System, arena: set<nat>, top: nat, mem: Memory, mem': Memory, i: nat, j: nat)
    requires Safe(s, arena, top) && i < |s.free| && j < |s.free| && i != j
    requires SameOutside(mem, mem', s.free[i].start, s.free[i].start + s.free[i].size)
    ensures SameHeader(mem, mem', s.free[j].start)
  {
    FreeApart(s, arena, top, i, j);
    assert RegionOk(s.free[j], top);
    HeaderFrame(mem, mem', s.free[j].start);
  }

  /** The regions left are clear of the one taken out. */
  lemma WithoutClear(s: System, arena: set<nat>, top: nat, i: nat)
    requires Safe(s, arena, top) && i < |s.free|
    ensures Clear(Without(s.free, i), s.free[i].start, s.free[i].size)
  {
    var bs := s.free;
    forall r | r in Without(bs, i) ensures r.start + MIN_BLOCK <= bs[i].start || bs[i].start + bs[i].size <= r.start {
      var j :| 0 <= j < |bs| && j != i && bs[j] == r;
      assert RegionOk(bs[j], top);
      FreeApart(s, arena, top, i, j);
    }
  }

  lemma ClearInside(bs: seq<Region>, lo: nat, size: nat, lo': nat, size': nat)
    requires Clear(bs, lo, size) && lo <= lo' && lo' + size' <= lo + size
    ensures Clear(bs, lo', size')
  {
  }

  lemma FrontClear(bs: seq<Region>, r: Region, at: nat, end: nat)
    requires Clear(bs, r.start, r.size) && r.start % 8 == 0 && r.start <= at <= end
      && end <= r.start + r.size <= USIZE_LIMIT - 8
    ensures Clear(WithFront(bs, r, at), end, r.start + r.size - end)
  {
    ClearInside(bs, r.start, r.size, end, r.start + r.size - end);
    if at - r.start >= MIN_BLOCK { AddAligned(bs, r.start, at - r.start); }
  }

  lemma CarveFacts(s: System, l: Layout, arena: set<nat>, top: nat, i: nat)
    requires AllocOk(s, l, arena, top) && Chosen(s, l) == Some(i)
    ensures 0 < s.free[i].start <= CarveAt(s.free[i], l) && s.free[i].start % 8 == 0
    ensures CarveAt(s.free[i], l) + AdjustedSize(l) <= s.free[i].start + s.free[i].size <= top
    ensures (CarveAt(s.free[i], l) + AdjustedSize(l)) % 8 == 0
    ensures Clear(Without(s.free, i), s.free[i].start, s.free[i].size)
  {
    assert RegionOk(s.free[i], top);
    CarveParts(s.free[i], l, top, 0);
    AdjustedOk(l);
    WithoutClear(s, arena, top, i);
  }

  /** Memory holds the list left after carving a request out of region `i`. */
  ghost predicate Carved(mem: Memory, head: nat, s: System, l: Layout, i: nat) {
    && i < |s.free| && CarveAt(s.free[i], l) >= s.free[i].start
    && CarveAt(s.free[i], l) + AdjustedSize(l) <= s.free[i].start + s.free[i].size
    && ListAt(mem, head, GiveBack(Without(s.free, i), s.free[i], CarveAt(s.free[i], l), AdjustedSize(l)))
  }

  /** The list in memory and the counters are those of a safe system. */
  ghost predicate Represents(mem: Memory, head: nat, total: nat, handedOut: int, s: System, arena: set<nat>, top: nat) {
    && ListAt(mem, head, s.free) && Safe(s, arena, top) && top <= USIZE_LIMIT - 8
    && total == s.total && handedOut == s.handedOut
  }

  lemma CarvedStep(mem: Memory, head: nat, total: nat, handedOut: int, s: System, l: Layout, arena: set<nat>, top: nat,
    i: nat)
    requires AllocOk(s, l, arena, top) && Chosen(s, l) == Some(i) && Carved(mem, head, s, l, i)
    requires total == s.total && handedOut == s.handedOut
    ensures Represents(mem, head, total, handedOut + AdjustedSize(l), Step(s, AllocOp(l)), arena, top)
  {
    ChosenCarvable(s, l, arena, top);
    AllocKeepsSafe(s, l, arena, top);
  }

  /** Detaching region `i`: clear its own link, then point the link before it past it. */
  function Detached(mem: Memory, bs: seq<Region>, i: nat): Memory
    requires i < |bs|
  {
    var next := ReadWord(mem, bs[i].start + WORD);
    var m := WriteWord(mem, bs[i].start + WORD, 0);
    if i == 0 then m else WriteWord(m, bs[i - 1].start + WORD, next)
  }

  lemma LinkSmall(s: System, arena: set<nat>, top: nat, mem: Memory, p: nat, i: nat)
    requires Safe(s, arena, top) && top <= USIZE_LIMIT && i <= |s.free| && ListAt(mem, p, s.free[i..])
    ensures p < WORD_LIMIT
  {
    if i < |s.free| { assert RegionOk(s.free[i], top); }
  }

  lemma DetachFirst(s: System, arena: set<nat>, top: nat, mem: Memory, p: nat)
    requires Safe(s, arena, top) && top <= USIZE_LIMIT && 0 < |s.free| && ListAt(mem, p, s.free)
    ensures ListAt(Detached(mem, s.free, 0), ReadWord(mem, p + WORD), Without(s.free, 0))
    ensures SameOutside(mem, Detached(mem, s.free, 0), p, p + s.free[0].size)
  {
    var bs, m := s.free, Detached(mem, s.free, 0);
    assert RegionOk(bs[0], top);
    WriteRead(mem, p + WORD, 0);
    assert Without(bs, 0) == bs[1..];
    forall r | r in bs[1..] ensures SameHeader(mem, m, r.start) {
      var j :| 0 < j < |bs| && bs[j] == r;
      OthersKeep(s, arena, top, mem, m, 0, j);
    }
    ListFrame(mem, m, ReadWord(mem, p + WORD), bs[1..]);
  }

  /** The two link words written when region `i` is detached from the one before it. */
  ghost predicate Relinked(s: System, mem: Memory, m: Memory, m': Memory, i: nat)
    requires 0 < i < |s.free|
  {
    && SameOutside(mem, m, s.free[i].start + WORD, s.free[i].start + MIN_BLOCK)
    && SameOutside(m, m', s.free[i - 1].start + WORD, s.free[i - 1].start + MIN_BLOCK)
  }

  lemma RelinkedOthers(s: System, arena: set<nat>, top: nat, mem: Memory, m: Memory, m': Memory, i: nat, j: nat)
    requires 0 < i < |s.free| && Relinked(s, mem, m, m', i) && Safe(s, arena, top)
    requires j < |s.free| && j != i && j != i - 1
    ensures SameHeader(mem, m', s.free[j].start)
  {
    assert RegionOk(s.free[i], top) && RegionOk(s.free[i - 1], top);
    OthersKeep(s, arena, top, mem, m, i, j);
    OthersKeep(s, arena, top, m, m', i - 1, j);
  }

  lemma RelinkedSize(s: System, arena: set<nat>, top: nat, mem: Memory, m: Memory, m': Memory, i: nat)
    requires 0 < i < |s.free| && Relinked(s, mem, m, m', i) && Safe(s, arena, top)
    ensures ReadWord(m', s.free[i - 1].start) == ReadWord(mem, s.free[i - 1].start)
  {
    assert RegionOk(s.free[i], top);
    OthersKeep(s, arena, top, mem, m, i, i - 1);
    GetFrame(m, m', s.free[i - 1].start, s.free[i - 1].start + WORD);
  }

  lemma RelinkedHeld(s: System, arena: set<nat>, top: nat, mem: Memory, m: Memory, m': Memory, i: nat)
    requires 0 < i < |s.free| && Relinked(s, mem, m, m', i) && Safe(s, arena, top)
    ensures KeepsHeld(mem, m', s.free)
  {
    var bs := s.free;
    assert RegionOk(bs[i], top) && RegionOk(bs[i - 1], top);
    KeepsTrans(mem, mem, m, bs, i, bs[i].start + WORD, bs[i].start + MIN_BLOCK);
    KeepsTrans(mem, m, m', bs, i - 1, bs[i - 1].start + WORD, bs[i - 1].start + MIN_BLOCK);
  }

  lemma DetachRelinks(s: System, arena: set<nat>, top: nat, mem: Memory, i: nat) returns (m: Memory)
    requires Safe(s, arena, top) && top <= USIZE_LIMIT && 0 < i < |s.free|
    requires ListAt(mem, s.free[i].start, s.free[i..])
    ensures Relinked(s, mem, m, Detached(mem, s.free, i), i)
    ensures ReadWord(Detached(mem, s.free, i), s.free[i - 1].start + WORD) == ReadWord(mem, s.free[i].start + WORD)
  {
    var bs := s.free;
    ListStep(mem, bs[i].start, bs, i);
    var next := ReadWord(mem, bs[i].start + WORD);
    LinkSmall(s, arena, top, mem, next, i + 1);
    m := WriteWord(mem, bs[i].start + WORD, 0);
    WriteRead(mem, bs[i].start + WORD, 0);
    WriteRead(m, bs[i - 1].start + WORD, next);
  }

  lemma DetachInner(s: System, arena: set<nat>, top: nat, mem: Memory, p: nat, i: nat)
    requires Safe(s, arena, top) && top <= USIZE_LIMIT && 0 < i < |s.free| && ListAt(mem, p, s.free)
    requires ListAt(mem, s.free[i].start, s.free[i..])
    ensures ListAt(Detached(mem, s.free, i), p, Without(s.free, i))
    ensures KeepsHeld(mem, Detached(mem, s.free, i), s.free)
  {
    hide Safe, ReadWord;
    var bs, m' := s.free, Detached(mem, s.free, i);
    var m := DetachRelinks(s, arena, top, mem, i);
    RelinkedHeld(s, arena, top, mem, m, m', i);
    RelinkedSize(s, arena, top, mem, m, m', i);
    SizeWord(mem, p, bs, i - 1);
    forall j | 0 <= j < |bs| && j != i - 1 && j != i ensures SameHeader(mem, m', bs[j].start) {
      RelinkedOthers(s, arena, top, mem, m, m', i, j);
    }
    ListStep(mem, bs[i].start, bs, i);
    ListUnlink(mem, m', p, bs, i, ReadWord(mem, bs[i].start + WORD));
  }

  lemma {:induction false} SizeWord(mem: Memory, p: nat, bs: seq<Region>, i: nat)
    requires ListAt(mem, p, bs) && i < |bs|
    ensures ReadWord(mem, bs[i].start) == bs[i].size
    decreases i
  {
    if i > 0 { SizeWord(mem, ReadWord(mem, p + WORD), bs[1..], i - 1); }
  }

  /** The test of the search on the header at `p`. */
  lemma FitStep(mem: Memory, p: nat, bs: seq<Region>, i: nat, size: nat, k: nat)
    requires i < |bs| && ListAt(mem, p, bs[i..]) && Pow2(k) <= USIZE_LIMIT
    ensures p != 0 && p == bs[i].start && ListAt(mem, ReadWord(mem, p + WORD), bs[i + 1..])
    ensures FirstFit(bs, size, k, i) ==
      if Wrap(AlignUp(p, k) + size) <= Wrap(p + ReadWord(mem, p)) then Some(i) else FirstFit(bs, size, k, i + 1)
  {
    ListStep(mem, p, bs, i);
  }

  /** Where nothing wraps, the padding is what lies before and after the piece. */
  lemma GiveBackParts(bs: seq<Region>, r: Region, at: nat, end: nat, size: nat)
    requires r.start <= at && end == at + size <= r.start + r.size < USIZE_LIMIT
    ensures WithFront(bs, r, at) == if at - r.start >= MIN_BLOCK then AddFree(bs, r.start, at - r.start) else bs
    ensures GiveBack(bs, r, at, size) ==
      var now, tail := WithFront(bs, r, at), r.start + r.size - end;
      if tail >= MIN_BLOCK then AddFree(now, end, tail) else now
  {
  }

  class KernelHeap {
    var mem: Memory
    /** Address of the first header, 0 for an empty list. */
    var head: nat
    var total: nat
    var handedOut: int
    ghost var sys: System
    ghost var arena: set<nat>
    ghost const top: nat

    /** The list in memory and the counters are those of a safe system. */
    ghost predicate Valid()
      reads this
    {
      Represents(mem, head, total, handedOut, sys, arena, top)
    }

    constructor (mem: Memory, ghost top: nat)
      requires top <= USIZE_LIMIT - 8
      ensures Valid() && sys == System([], [], 0, 0) && arena == {} && this.mem == mem && this.top == top
    {
      this.mem := mem;
      head, total, handedOut := 0, 0, 0;
      sys, arena := System([], [], 0, 0), {};
      this.top := top;
      new;
      EmptySafe(top);
    }

    /** Pushes a region onto the list, if it can hold a header. */
    method AddFreeRegion(addr: nat, size: nat, ghost bs: seq<Region>)
      requires ListAt(mem, head, bs) && (size >= MIN_BLOCK ==> Clear(bs, addr, size)) && head < WORD_LIMIT
      requires addr > 0 && addr + size <= USIZE_LIMIT - 8
      modifies this`mem, this`head
      ensures ListAt(mem, head, AddFree(bs, addr, size)) && head < WORD_LIMIT
      ensures SameOutside(old(mem), mem, addr, addr + size)
    {
      AlignUpLeast(addr, MIN_ALIGN_LOG, 0);
      assert Pow2(3) == 8;
      var aligned := AlignUp(addr, MIN_ALIGN_LOG);
      var adjust := aligned - addr;
      if size < adjust + MIN_BLOCK {
        return;
      }
      var usable := size - adjust;
      HeaderWritten(mem, aligned, usable, head);
      ListPush(mem, WriteHeader(mem, aligned, usable, head), head, bs, Region(aligned, usable));
      mem := WriteHeader(mem, aligned, usable, head);
      head := aligned;
    }

    /** Gives the heap a region of memory it does not have yet. */
    method Init(start: nat, size: nat)
      requires Valid() && start > 0 && start + size <= top && arena !! HeapRuns.Span(start, size)
      modifies this
      ensures Valid() && sys == Step(old(sys), InitOp(start, size)) && arena == old(arena) + HeapRuns.Span(start, size)
      ensures SameOutside(old(mem), mem, start, start + size)
    {
      LinkSmall(sys, arena, top, mem, head, 0);
      if size >= MIN_BLOCK { ClearOfArena(start, size); }
      AddFreeRegion(start, size, sys.free);
      total := total + size;
      InitSafe(sys, start, size, arena, top);
      sys, arena := Step(sys, InitOp(start, size)), arena + HeapRuns.Span(start, size);
    }

    lemma ClearOfArena(start: nat, size: nat)
      requires Valid() && arena !! HeapRuns.Span(start, size) && size > 0
      ensures Clear(sys.free, start, size)
    {
      forall r | r in sys.free ensures r.start + MIN_BLOCK <= start || start + size <= r.start {
        var i :| 0 <= i < |sys.free| && sys.free[i] == r;
        assert RegionOk(r, top);
        Disjoint(sys, arena, top, Max(r.start, start));
      }
    }

    /** The walk along the list: the first region that fits and the one before it. */
    method FindFit(layout: Layout) returns (prev: Option<nat>, region: nat, ghost i: nat)
      requires ListAt(mem, head, sys.free)
      ensures region == 0 <==> Chosen(sys, layout).None?
      ensures region != 0 ==> Chosen(sys, layout) == Some(i) && ListAt(mem, region, sys.free[i..])
      ensures region != 0 ==>
        prev == (if i == 0 then None else Some(sys.free[i - 1].start)) && (i == 0 ==> region == head)
    {
      var size, align := AdjustedSize(layout), AlignLog(layout);
      ghost var first := FirstFit(sys.free, size, align, 0);
      assert first == Chosen(sys, layout);
      prev, region, i := None, head, 0;
      while region != 0
        invariant i <= |sys.free| && ListAt(mem, region, sys.free[i..])
        invariant prev == if i == 0 then None else Some(sys.free[i - 1].start)
        invariant i == 0 ==> region == head
        invariant FirstFit(sys.free, size, align, i) == first
        decreases |sys.free| - i
      {
        FitStep(mem, region, sys.free, i, size, align);
        var regionEnd := Wrap(region + ReadWord(mem, region));
        if Wrap(AlignUp(region, align) + size) <= regionEnd {
          return;
        }
        prev := Some(region);
        region := ReadWord(mem, region + WORD);
        i := i + 1;
      }
    }

    /** First fit; 0 when nothing fits.  Only free memory is written.  The sums do not
        wrap for the chosen region. */
    method AllocFirstFit(layout: Layout) returns (ptr: nat)
      requires Valid() && ChosenUnwrapped(sys.free, layout)
      modifies this
      ensures Valid() && sys == Step(old(sys), AllocOp(layout)) && arena == old(arena)
      ensures ptr == match Alloc(old(sys).free, layout).1 case Some(p) => p case None => 0
      ensures KeepsHeld(old(mem), mem, old(sys).free) && HeldIntact(old(mem), mem, old(sys).live)
    {
      var prev, region, i := FindFit(layout);
      if region == 0 {
        return 0;
      }
      ptr := Grant(layout, prev, region, i);
    }

    /** Carves the request out of the region found. */
    method Grant(layout: Layout, prev: Option<nat>, region: nat, ghost i: nat) returns (ptr: nat)
      requires Valid() && ChosenUnwrapped(sys.free, layout) && region != 0 && Chosen(sys, layout) == Some(i)
      requires ListAt(mem, region, sys.free[i..]) && (i == 0 ==> region == head)
      requires prev == if i == 0 then None else Some(sys.free[i - 1].start)
      modifies this
      ensures Valid() && sys == Step(old(sys), AllocOp(layout)) && arena == old(arena)
      ensures ptr == CarveAt(old(sys).free[i], layout)
      ensures KeepsHeld(old(mem), mem, old(sys).free) && HeldIntact(old(mem), mem, old(sys).live)
    {
      ptr := Place(layout, prev, region, i);
      FreeWritesOnly(sys, arena, top, old(mem), mem);
      sys := Step(sys, AllocOp(layout));
      handedOut := handedOut + AdjustedSize(layout);
    }

    /** Where the piece starts and ends in the region found. */
    method Place(layout: Layout, prev: Option<nat>, region: nat, ghost i: nat) returns (ptr: nat)
      requires Valid() && ChosenUnwrapped(sys.free, layout) && Chosen(sys, layout) == Some(i)
      requires ListAt(mem, region, sys.free[i..]) && (i == 0 ==> region == head)
      requires prev == if i == 0 then None else Some(sys.free[i - 1].start)
      modifies this`mem, this`head
      ensures Represents(mem, head, total, handedOut + AdjustedSize(layout), Step(sys, AllocOp(layout)), arena, top)
      ensures ptr == CarveAt(sys.free[i], layout) && KeepsHeld(old(mem), mem, sys.free)
    {
      ListStep(mem, region, sys.free, i);
      CarveFacts(sys, layout, arena, top, i);
      ptr := AlignUp(region, AlignLog(layout));
      Carve(layout, prev, region, region + ReadWord(mem, region), ptr, ptr + AdjustedSize(layout), i);
      CarvedStep(mem, head, total, handedOut, sys, layout, arena, top, i);
    }

    /** Takes the region that fits off the list and puts its padding back. */
    method Carve(layout: Layout, prev: Option<nat>, region: nat, regionEnd: nat, allocStart: nat, allocEnd: nat,
      ghost i: nat)
      requires Valid() && ChosenUnwrapped(sys.free, layout) && i < |sys.free| && Chosen(sys, layout) == Some(i)
      requires ListAt(mem, region, sys.free[i..]) && (i == 0 ==> region == head)
      requires prev == if i == 0 then None else Some(sys.free[i - 1].start)
      requires regionEnd == region + sys.free[i].size && allocStart == CarveAt(sys.free[i], layout)
      requires allocEnd == allocStart + AdjustedSize(layout) <= regionEnd
      modifies this`mem, this`head
      ensures Carved(mem, head, sys, layout, i)
      ensures KeepsHeld(old(mem), mem, sys.free)
    {
      ListStep(mem, region, sys.free, i);
      CarveFacts(sys, layout, arena, top, i);
      assert sys.free[i] == Region(region, regionEnd - region);
      assert allocEnd % 8 == 0;
      Detach(prev, region, i);
      Recycle(region, regionEnd, allocStart, allocEnd, AdjustedSize(layout), Without(sys.free, i), sys.free, i,
        old(mem));
    }

    /** Unlinks a region: its own link is cleared, the link before it skips it. */
    method Detach(prev: Option<nat>, region: nat, ghost i: nat)
      requires Valid() && i < |sys.free| && ListAt(mem, region, sys.free[i..]) && (i == 0 ==> region == head)
      requires prev == if i == 0 then None else Some(sys.free[i - 1].start)
      modifies this`mem, this`head
      ensures ListAt(mem, head, Without(sys.free, i)) && head < WORD_LIMIT
      ensures KeepsHeld(old(mem), mem, sys.free)
    {
      ListStep(mem, region, sys.free, i);
      var next := ReadWord(mem, region + WORD);
      LinkSmall(sys, arena, top, mem, next, i + 1);
      LinkSmall(sys, arena, top, mem, head, 0);
      if i == 0 {
        DetachFirst(sys, arena, top, mem, head);
        KeepsTrans(mem, mem, Detached(mem, sys.free, 0), sys.free, 0, region, region + sys.free[0].size);
      } else {
        DetachInner(sys, arena, top, mem, head, i);
      }
      mem := WriteWord(mem, region + WORD, 0);
      if prev.None? {
        head := next;
      } else {
        mem := WriteWord(mem, prev.value + WORD, next);
      }
    }

    /** Returns padding before and after the carved piece to the list. */
    method Recycle(regionStart: nat, regionEnd: nat, allocStart: nat, allocEnd: nat,
                   ghost size: nat, ghost bs: seq<Region>, ghost all: seq<Region>, ghost i: nat, ghost before: Memory)
      requires ListAt(mem, head, bs) && head < WORD_LIMIT && KeepsHeld(before, mem, all)
        && allocEnd == allocStart + size
      requires 0 < regionStart <= allocStart <= allocEnd <= regionEnd <= USIZE_LIMIT - 8
      requires regionStart % 8 == 0 && allocEnd % 8 == 0
      requires Clear(bs, regionStart, regionEnd - regionStart)
      requires i < |all| && all[i] == Region(regionStart, regionEnd - regionStart)
      modifies this`mem, this`head
      ensures ListAt(mem, head, GiveBack(bs, all[i], allocStart, size))
      ensures KeepsHeld(before, mem, all)
    {
      GiveBackParts(bs, all[i], allocStart, allocEnd, size);
      var frontPad := allocStart - regionStart;
      if frontPad >= MIN_BLOCK {
        ClearInside(bs, regionStart, regionEnd - regionStart, regionStart, frontPad);
        AddPiece(regionStart, frontPad, bs, all, i, before);
      }
      ghost var now := WithFront(bs, all[i], allocStart);
      assert ListAt(mem, head, now);
      var tail := regionEnd - allocEnd;
      if tail >= MIN_BLOCK {
        FrontClear(bs, all[i], allocStart, allocEnd);
        AddPiece(allocEnd, tail, now, all, i, before);
      }
    }

    method AddPiece(addr: nat, size: nat, ghost bs: seq<Region>, ghost all: seq<Region>, ghost i: nat,
      ghost before: Memory)
      requires ListAt(mem, head, bs) && head < WORD_LIMIT && KeepsHeld(before, mem, all) && Clear(bs, addr, size)
      requires i < |all| && 0 < all[i].start <= addr && addr + size <= all[i].start + all[i].size <= USIZE_LIMIT - 8
      modifies this`mem, this`head
      ensures ListAt(mem, head, AddFree(bs, addr, size)) && head < WORD_LIMIT
      ensures KeepsHeld(before, mem, all)
    {
      AddFreeRegion(addr, size, bs);
      KeepsTrans(before, old(mem), mem, all, i, addr, addr + size);
    }

    /** Takes back an allocation with the layout it was made with. */
    method Dealloc(ptr: nat, layout: Layout, ghost i: nat)
      requires Valid() && i < |sys.live| && sys.live[i] == Held(ptr, layout)
      modifies this
      ensures Valid() && sys == Step(old(sys), FreeOp(i)) && arena == old(arena)
      ensures SameOutside(old(mem), mem, ptr, ptr + AdjustedSize(layout)) && HeldIntact(old(mem), mem, sys.live)
    {
      var size := AdjustedSize(layout);
      assert HeldOk(sys.live[i], top);
      LinkSmall(sys, arena, top, mem, head, 0);
      ClearOfHeld(i);
      AddFreeRegion(ptr, size, sys.free);
      handedOut := handedOut - size;
      OthersIntact(sys, arena, top, old(mem), mem, i);
      FreeSafe(sys, i, arena, top);
      sys := Step(sys, FreeOp(i));
    }

    lemma ClearOfHeld(i: nat)
      requires Valid() && i < |sys.live|
      ensures Clear(sys.free, sys.live[i].ptr, AdjustedSize(sys.live[i].layout))
    {
      var h := sys.live[i];
      AdjustedOk(h.layout);
      forall r | r in sys.free ensures r.start + MIN_BLOCK <= h.ptr || h.ptr + AdjustedSize(h.layout) <= r.start {
        var j :| 0 <= j < |sys.free| && sys.free[j] == r;
        assert RegionOk(r, top);
        Disjoint(sys, arena, top, Max(r.start, h.ptr));
      }
    }

    /** A caller stores a byte in memory it holds: the heap does not notice. */
    method Store(x: nat, b: Byte)
      requires Valid() && LiveOwners(sys.live, x) > 0
      modifies this`mem
      ensures Valid() && mem == old(mem)[x := b]
    {
      assert OwnedOk(sys, arena, x);
      forall r | r in sys.free ensures SameHeader(mem, mem[x := b], r.start) {
        var j :| 0 <= j < |sys.free| && sys.free[j] == r;
        assert RegionOk(r, top);
        if r.Has(x) { FreeOwnersAt(sys.free, j, x); }
        HeaderFrame(mem, mem[x := b], r.start);
      }
      ListFrame(mem, mem[x := b], head, sys.free);
      mem := mem[x := b];
    }
  }
}
