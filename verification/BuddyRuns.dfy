/** Whole runs of the buddy allocator: blocks handed out and blocks free always
    partition the registered pages, and giving everything back restores the start. */
module BuddyRuns {
  import opened Bits
  import opened Buddy
  import opened BuddyRegion
  import opened Wrappers

  datatype Block = Block(pfn: nat, order: nat)

  /** The allocator together with the blocks its callers hold. */
  datatype System = System(lists: Lists, freePages: int, live: set<Block>)

  datatype Op = AllocOp(order: nat) | FreeOp(block: Block)

  /** Callers only free what they hold. */
  predicate Enabled(s: System, op: Op) {
    op.FreeOp? ==> op.block in s.live && op.block.order <= MAX_ORDER
  }

  function Step(s: System, op: Op): System
    requires Enabled(s, op)
  {
    match op
    case AllocOp(order) =>
      var (ls, r) := Allocated(s.lists, order);
      if r.None? then s else System(ls, s.freePages - Pow2(order), s.live + {Block(r.value, order)})
    case FreeOp(b) =>
      System(Freed(s.lists, b.pfn, b.order), s.freePages + Pow2(b.order), s.live - {b})
  }

  predicate Legal(s: System, ops: seq<Op>)
    decreases |ops|
  {
    ops == [] || (Enabled(s, ops[0]) && Legal(Step(s, ops[0]), ops[1..]))
  }

  function Run(s: System, ops: seq<Op>): System
    requires Legal(s, ops)
    decreases |ops|
  {
    if ops == [] then s else Run(Step(s, ops[0]), ops[1..])
  }

  // ---------------------------------------------------------------- invariant

  ghost function LivePages(live: set<Block>): set<nat> {
    set b, x | b in live && x in Pages(b.pfn, b.order) :: x
  }

  ghost predicate HeldOk(live: set<Block>, registered: set<nat>, b: Block) {
    b in live ==> b.order <= MAX_ORDER && Aligned(b.pfn, b.order) && Pages(b.pfn, b.order) <= registered
  }

  ghost predicate HeldApart(live: set<Block>, b: Block, c: Block) {
    b in live && c in live && b != c ==> Pages(b.pfn, b.order) !! Pages(c.pfn, c.order)
  }

  /** Held blocks are aligned, registered and pairwise disjoint. */
  ghost predicate LiveOk(live: set<Block>, registered: set<nat>) {
    && (forall b :: HeldOk(live, registered, b))
    && (forall b, c :: HeldApart(live, b, c))
  }

  function WeightTo(ls: Lists, n: nat): nat
    requires n <= MAX_ORDER + 1
  {
    if n == 0 then 0 else WeightTo(ls, n - 1) + |ls[n - 1]| * Pow2(n - 1)
  }

  /** The sum of 2^order over all listed blocks. */
  function Weight(ls: Lists): nat {
    WeightTo(ls, MAX_ORDER + 1)
  }

  ghost predicate Valid(s: System, registered: set<nat>) {
    var F := registered - LivePages(s.live);
    && LiveOk(s.live, registered)
    && Canon(s.lists, F)
    && s.freePages == |F| == Weight(s.lists)
  }

  // ------------------------------------------------------------------ weights

  lemma {:induction false} WeightSet(ls: Lists, o: nat, l: seq<nat>, n: nat)
    requires o <= MAX_ORDER && n <= MAX_ORDER + 1
    ensures WeightTo(ls[o := l], n) == WeightTo(ls, n) + if o < n then (|l| - |ls[o]|) * Pow2(o) else 0
  {
    if n > 0 {
      WeightSet(ls, o, l, n - 1);
      if o == n - 1 {
        assert |l| * Pow2(o) == |ls[o]| * Pow2(o) + (|l| - |ls[o]|) * Pow2(o);
      }
    }
  }

  lemma WeightPush(ls: Lists, o: nat, p: nat)
    requires o <= MAX_ORDER
    ensures Weight(Push(ls, o, p)) == Weight(ls) + Pow2(o)
  {
    WeightSet(ls, o, ls[o] + [p], MAX_ORDER + 1);
    assert |ls[o] + [p]| - |ls[o]| == 1;
  }

  lemma WeightPop(ls: Lists, o: nat, l: seq<nat>)
    requires o <= MAX_ORDER && |ls[o]| == |l| + 1
    ensures Weight(ls[o := l]) == Weight(ls) - Pow2(o)
  {
    WeightSet(ls, o, l, MAX_ORDER + 1);
  }

  lemma {:induction false} WeightSplit(ls: Lists, b: nat, o: nat, order: nat)
    requires order <= o <= MAX_ORDER
    ensures Weight(Split(ls, b, o, order)) == Weight(ls) + Pow2(o) - Pow2(order)
    decreases o
  {
    if o > order {
      WeightPush(ls, o - 1, b + Pow2(o - 1));
      WeightSplit(Push(ls, o - 1, b + Pow2(o - 1)), b, o - 1, order);
    }
  }

  lemma WeightAllocated(ls: Lists, order: nat)
    ensures var (ls', r) := Allocated(ls, order);
      Weight(ls') == Weight(ls) - if r.Some? then Pow2(order) else 0
  {
    var o := FirstOrder(ls, order);
    if o <= MAX_ORDER {
      var l := ls[o][..|ls[o]| - 1];
      WeightPop(ls, o, l);
      WeightSplit(ls[o := l], ls[o][|ls[o]| - 1], o, order);
    }
  }

  lemma {:induction false} WeightFreed(ls: Lists, p: nat, o: nat)
    requires o <= MAX_ORDER
    ensures Weight(Freed(ls, p, o)) == Weight(ls) + Pow2(o)
    decreases MAX_ORDER - o
  {
    if o < MAX_ORDER && BuddyOf(p, o) in ls[o] {
      var l := SwapRemove(ls[o], Position(ls[o], BuddyOf(p, o), 0).value);
      WeightPop(ls, o, l);
      WeightFreed(ls[o := l], Min(p, BuddyOf(p, o)), o + 1);
    } else {
      WeightPush(ls, o, p);
    }
  }

  lemma {:induction false} WeightAdded(ls: Lists, pfn: nat, remaining: nat)
    ensures Weight(AddBlocks(ls, pfn, remaining)) == Weight(ls) + remaining
    decreases remaining
  {
    if remaining > 0 {
      var o := PickOrder(pfn, remaining, MAX_ORDER);
      AddBlocksStep(ls, pfn, remaining, o);
      WeightPush(ls, o, pfn);
      WeightAdded(Push(ls, o, pfn), pfn + Pow2(o), remaining - Pow2(o));
    }
  }

  lemma {:induction false} RangeSize(start: nat, end: nat)
    requires start <= end
    ensures |Range(start, end)| == end - start
    decreases end
  {
    if start < end {
      RangeSize(start, end - 1);
      assert Range(start, end) == Range(start, end - 1) + {end - 1};
    }
  }

  lemma PagesSize(p: nat, o: nat)
    ensures |Pages(p, o)| == Pow2(o)
  {
    RangeSize(p, p + Pow2(o));
  }

  // --------------------------------------------------------- steps and runs

  lemma LiveGrows(live: set<Block>, b: Block, registered: set<nat>)
    requires LiveOk(live, registered) && b.order <= MAX_ORDER && Aligned(b.pfn, b.order)
    requires Pages(b.pfn, b.order) <= registered - LivePages(live)
    ensures LivePages(live + {b}) == LivePages(live) + Pages(b.pfn, b.order)
    ensures LiveOk(live + {b}, registered)
  {
    forall c | c in live ensures Pages(c.pfn, c.order) !! Pages(b.pfn, b.order) {
      assert Pages(c.pfn, c.order) <= LivePages(live);
    }
    forall c ensures HeldOk(live + {b}, registered, c) { assert HeldOk(live, registered, c); }
    forall c, d ensures HeldApart(live + {b}, c, d) { assert HeldApart(live, c, d); }
  }

  lemma SizeMinus(F: set<nat>, P: set<nat>)
    requires P <= F
    ensures |F - P| == |F| - |P|
  {
    assert F == (F - P) + P;
  }

  lemma LiveShrinks(live: set<Block>, b: Block, registered: set<nat>)
    requires LiveOk(live, registered) && b in live
    ensures b.order <= MAX_ORDER && Aligned(b.pfn, b.order) && Pages(b.pfn, b.order) <= registered
    ensures LivePages(live - {b}) == LivePages(live) - Pages(b.pfn, b.order)
    ensures Pages(b.pfn, b.order) <= LivePages(live)
    ensures LiveOk(live - {b}, registered)
  {
    assert HeldOk(live, registered, b);
    forall c | c in live - {b} ensures Pages(c.pfn, c.order) !! Pages(b.pfn, b.order) {
      assert HeldApart(live, b, c);
    }
    forall c ensures HeldOk(live - {b}, registered, c) { assert HeldOk(live, registered, c); }
    forall c, d ensures HeldApart(live - {b}, c, d) { assert HeldApart(live, c, d); }
  }

  lemma StepAlloc(s: System, order: nat, registered: set<nat>)
    requires Valid(s, registered)
    ensures Valid(Step(s, AllocOp(order)), registered)
  {
    var F := registered - LivePages(s.live);
    AllocCanon(s.lists, F, order);
    if Allocated(s.lists, order).1.Some? {
      TakeBlock(s, order, Block(Allocated(s.lists, order).1.value, order), registered, F);
    }
  }

  lemma TakeBlock(s: System, order: nat, b: Block, registered: set<nat>, F: set<nat>)
    requires LiveOk(s.live, registered) && F == registered - LivePages(s.live) && s.freePages == |F| == Weight(s.lists)
    requires order <= MAX_ORDER && Allocated(s.lists, order).1 == Some(b.pfn) && b.order == order
    requires Aligned(b.pfn, order) && Pages(b.pfn, order) <= F
    requires Canon(Allocated(s.lists, order).0, F - Pages(b.pfn, order))
    ensures Valid(System(Allocated(s.lists, order).0, s.freePages - Pow2(order), s.live + {b}), registered)
  {
    LiveGrows(s.live, b, registered);
    MinusTwo(registered, LivePages(s.live), Pages(b.pfn, order));
    TakeCount(s.lists, order, F, Pages(b.pfn, order), b.pfn);
    MakeValid(Allocated(s.lists, order).0, s.freePages - Pow2(order), s.live + {b}, registered,
      F - Pages(b.pfn, order));
  }

  lemma TakeCount(ls: Lists, order: nat, F: set<nat>, P: set<nat>, p: nat)
    requires P == Pages(p, order) && P <= F && Allocated(ls, order).1 == Some(p) && |F| == Weight(ls)
    ensures |F - P| == Weight(Allocated(ls, order).0) == |F| - Pow2(order)
  {
    WeightAllocated(ls, order);
    PagesSize(p, order);
    SizeMinus(F, P);
  }

  lemma MakeValid(ls: Lists, n: int, live: set<Block>, registered: set<nat>, F: set<nat>)
    requires LiveOk(live, registered) && registered - LivePages(live) == F && Canon(ls, F) && n == |F| == Weight(ls)
    ensures Valid(System(ls, n, live), registered)
  {
  }

  lemma MinusTwo(R: set<nat>, L: set<nat>, P: set<nat>)
    ensures R - (L + P) == R - L - P
  {
  }

  lemma StepFree(s: System, b: Block, registered: set<nat>)
    requires Valid(s, registered) && Enabled(s, FreeOp(b))
    ensures Valid(Step(s, FreeOp(b)), registered)
  {
    var F, P := registered - LivePages(s.live), Pages(b.pfn, b.order);
    LiveShrinks(s.live, b, registered);
    assert registered - LivePages(s.live - {b}) == F + P;
    FreeCanon(s.lists, F, b.pfn, b.order);
    GiveCount(s.lists, F, b);
    MakeValid(Freed(s.lists, b.pfn, b.order), s.freePages + Pow2(b.order), s.live - {b}, registered, F + P);
  }

  lemma GiveCount(ls: Lists, F: set<nat>, b: Block)
    requires b.order <= MAX_ORDER && F !! Pages(b.pfn, b.order) && |F| == Weight(ls)
    ensures |F + Pages(b.pfn, b.order)| == Weight(Freed(ls, b.pfn, b.order)) == |F| + Pow2(b.order)
  {
    WeightFreed(ls, b.pfn, b.order);
    PagesSize(b.pfn, b.order);
    SizePlus(F, Pages(b.pfn, b.order));
  }

  /** After any run of allocations and valid frees the lists are the canonical
      form of exactly the registered pages nobody holds. */
  lemma {:induction false} RunValid(s: System, ops: seq<Op>, registered: set<nat>)
    requires Valid(s, registered) && Legal(s, ops)
    ensures Valid(Run(s, ops), registered)
    decreases |ops|
  {
    if ops != [] {
      match ops[0] {
        case AllocOp(order) => StepAlloc(s, order, registered);
        case FreeOp(b) => StepFree(s, b, registered);
      }
      RunValid(Step(s, ops[0]), ops[1..], registered);
    }
  }

  /** The start: one region given to an empty allocator. */
  function Booted(start: nat, count: nat): System {
    System(AddBlocks([[], [], [], [], [], [], [], [], [], []], start, count), count, {})
  }

  lemma BootedValid(start: nat, count: nat)
    ensures Valid(Booted(start, count), Range(start, start + count))
  {
    FirstRegionCanon(start, count);
    RangeSize(start, start + count);
    WeightAdded([[], [], [], [], [], [], [], [], [], []], start, count);
    assert WeightTo([[], [], [], [], [], [], [], [], [], []], MAX_ORDER + 1) == 0 by { EmptyWeight(MAX_ORDER + 1); }
    assert Range(start, start + count) - LivePages({}) == Range(start, start + count);
  }

  lemma {:induction false} EmptyWeight(n: nat)
    requires n <= MAX_ORDER + 1
    ensures WeightTo([[], [], [], [], [], [], [], [], [], []], n) == 0
  {
    if n > 0 { EmptyWeight(n - 1); }
  }

  lemma LiveWithin(live: set<Block>, registered: set<nat>, R: set<nat>)
    requires LiveOk(live, registered)
    ensures LivePages(live) <= registered && LiveOk(live, registered + R)
  {
    forall b ensures HeldOk(live, registered + R, b) { assert HeldOk(live, registered, b); }
    forall x | x in LivePages(live) ensures x in registered {
      var b :| b in live && x in Pages(b.pfn, b.order);
      assert HeldOk(live, registered, b);
    }
  }

  /** A run of pages as the boot code registers it. */
  datatype Region = Region(start: nat, count: nat)

  ghost function PagesOf(r: Region): set<nat> {
    Range(r.start, r.start + r.count)
  }

  function Register(s: System, r: Region): System {
    System(AddBlocks(s.lists, r.start, r.count), s.freePages + r.count, s.live)
  }

  /** A later region that `add_region` stores canonically extends the invariant. */
  lemma AddRegionValid(s: System, registered: set<nat>, r: Region)
    requires Valid(s, registered) && registered !! PagesOf(r) && NoBuddyInside(s.lists, r.start, r.start + r.count)
    ensures Valid(Register(s, r), registered + PagesOf(r))
  {
    var F := registered - LivePages(s.live);
    AddCanon(s.lists, F, r);
    AddPages(s, registered, r, F);
  }

  lemma AddCanon(ls: Lists, F: set<nat>, r: Region)
    requires Canon(ls, F) && F !! PagesOf(r) && NoBuddyInside(ls, r.start, r.start + r.count)
    ensures Canon(AddBlocks(ls, r.start, r.count), F + PagesOf(r))
  {
    AddRegionCanon(ls, F, r.start, r.count);
  }

  lemma AddPages(s: System, registered: set<nat>, r: Region, F: set<nat>)
    requires LiveOk(s.live, registered) && F == registered - LivePages(s.live) && s.freePages == |F| == Weight(s.lists)
    requires registered !! PagesOf(r) && Canon(AddBlocks(s.lists, r.start, r.count), F + PagesOf(r))
    ensures Valid(Register(s, r), registered + PagesOf(r))
  {
    LiveWithin(s.live, registered, PagesOf(r));
    MinusApart(registered, PagesOf(r), LivePages(s.live));
    AddCount(s.lists, F, r);
    MakeValid(AddBlocks(s.lists, r.start, r.count), s.freePages + r.count, s.live, registered + PagesOf(r),
      F + PagesOf(r));
  }

  lemma MinusApart(A: set<nat>, B: set<nat>, L: set<nat>)
    requires A !! B && L <= A
    ensures A + B - L == A - L + B
  {
  }

  lemma AddCount(ls: Lists, F: set<nat>, r: Region)
    requires F !! PagesOf(r) && |F| == Weight(ls)
    ensures |F + PagesOf(r)| == Weight(AddBlocks(ls, r.start, r.count)) == |F| + r.count
  {
    WeightAdded(ls, r.start, r.count);
    RangeSize(r.start, r.start + r.count);
    SizePlus(F, PagesOf(r));
  }

  lemma SizePlus(A: set<nat>, B: set<nat>)
    requires A !! B
    ensures |A + B| == |A| + |B|
  {
  }

  const EMPTY: System := System([[], [], [], [], [], [], [], [], [], []], 0, {})

  function RegisterAll(s: System, rs: seq<Region>): System
    decreases |rs|
  {
    if rs == [] then s else RegisterAll(Register(s, rs[0]), rs[1..])
  }

  ghost function RegionPages(rs: seq<Region>): set<nat>
    decreases |rs|
  {
    if rs == [] then {} else PagesOf(rs[0]) + RegionPages(rs[1..])
  }

  /** Regions that neither overlap nor hold the buddy of a block free before them. */
  ghost predicate Spaced(s: System, registered: set<nat>, rs: seq<Region>)
    decreases |rs|
  {
    rs == [] ||
      (&& registered !! PagesOf(rs[0]) && NoBuddyInside(s.lists, rs[0].start, rs[0].start + rs[0].count)
       && Spaced(Register(s, rs[0]), registered + PagesOf(rs[0]), rs[1..]))
  }

  /** Any number of such regions, registered one after the other. */
  lemma {:induction false} RegisterAllValid(s: System, registered: set<nat>, rs: seq<Region>)
    requires Valid(s, registered) && Spaced(s, registered, rs)
    ensures Valid(RegisterAll(s, rs), registered + RegionPages(rs)) && RegisterAll(s, rs).live == s.live
    decreases |rs|
  {
    if rs == [] {
      assert registered + RegionPages(rs) == registered;
    } else {
      AddRegionValid(s, registered, rs[0]);
      RegisterAllValid(Register(s, rs[0]), registered + PagesOf(rs[0]), rs[1..]);
      PlusTwo(registered, PagesOf(rs[0]), RegionPages(rs[1..]));
    }
  }

  lemma PlusTwo(A: set<nat>, B: set<nat>, C: set<nat>)
    ensures A + B + C == A + (B + C)
  {
  }

  lemma EmptyValid()
    ensures Valid(EMPTY, {})
  {
    BootedValid(0, 0);
    RangeSize(0, 0);
    assert Range(0, 0) == {};
    assert Booted(0, 0) == EMPTY;
  }

  // ------------------------------------------------- what canonical lists mean

  /** Every free page lies in exactly one listed block. */
  lemma PageOwner(ls: Lists, F: set<nat>, x: nat) returns (p: nat, o: nat)
    requires Canon(ls, F) && x in F
    ensures o <= MAX_ORDER && p in ls[o] && x in Pages(p, o)
  {
    assert Shr(x, 0) == x;
    assert Full(F, x, 0);
    o := Enclosing(F, x, 0);
    FirstPage(Shr(x, o), o);
    p := Shr(x, o) * Pow2(o);
    assert Listed(ls, F, o, p);
    assert p in multiset(ls[o]);
    PageKey(p, o);
  }

  lemma ListedApart(ls: Lists, F: set<nat>, p: nat, o: nat, p': nat, o': nat)
    requires Canon(ls, F) && o <= o' <= MAX_ORDER && p in ls[o] && p' in ls[o']
    requires (p, o) != (p', o')
    ensures Pages(p, o) !! Pages(p', o') && multiset(ls[o])[p] == 1
  {
    ListedFull(ls, F, p, o);
    ListedFull(ls, F, p', o');
    assert Listed(ls, F, o, p);
    PageKey(p, o);
    PageKey(p', o');
    if x: nat :| x in Pages(p, o) && x in Pages(p', o') {
      Nested(x, o, o');
      if o == o' {
        SameBlock(p, p', o);
      } else {
        ShrHalf(Shr(p, o), o' - o - 1);
        FullInner(F, Shr(p, o) / 2, o + 1, o');
      }
      assert false;
    }
  }

  /** The free set determines the lists up to the order inside each list. */
  lemma CanonUnique(ls: Lists, ls': Lists, F: set<nat>)
    requires Canon(ls, F) && Canon(ls', F)
    ensures forall o :: 0 <= o <= MAX_ORDER ==> multiset(ls[o]) == multiset(ls'[o])
  {
    forall o: nat | o <= MAX_ORDER ensures multiset(ls[o]) == multiset(ls'[o]) {
      forall p: nat ensures multiset(ls[o])[p] == multiset(ls'[o])[p] {
        assert Listed(ls, F, o, p) && Listed(ls', F, o, p);
      }
    }
  }

  function Frees(blocks: seq<Block>): seq<Op> {
    seq(|blocks|, i requires 0 <= i < |blocks| => FreeOp(blocks[i]))
  }

  lemma HeadHeld(live: set<Block>, blocks: seq<Block>, registered: set<nat>)
    requires blocks != [] && multiset(blocks) == multiset(live) && LiveOk(live, registered)
    ensures blocks[0] in live && blocks[0].order <= MAX_ORDER
    ensures multiset(blocks[1..]) == multiset(live - {blocks[0]})
  {
    assert blocks == [blocks[0]] + blocks[1..];
    assert blocks[0] in multiset(blocks);
    assert HeldOk(live, registered, blocks[0]);
    forall b ensures multiset(blocks[1..])[b] == multiset(live - {blocks[0]})[b] {
      assert multiset(blocks)[b] == if b in live then 1 else 0;
    }
  }

  lemma FreesTail(blocks: seq<Block>)
    requires blocks != []
    ensures Frees(blocks) != [] && Frees(blocks)[0] == FreeOp(blocks[0]) && Frees(blocks)[1..] == Frees(blocks[1..])
  {
  }

  lemma FreeHead(s: System, blocks: seq<Block>, registered: set<nat>)
    requires Valid(s, registered) && blocks != [] && multiset(blocks) == multiset(s.live)
    ensures Enabled(s, FreeOp(blocks[0])) && Valid(Step(s, FreeOp(blocks[0])), registered)
    ensures multiset(blocks[1..]) == multiset(Step(s, FreeOp(blocks[0])).live)
  {
    HeadHeld(s.live, blocks, registered);
    StepFree(s, blocks[0], registered);
  }

  lemma NothingHeld(live: set<Block>)
    requires multiset(live) == multiset{}
    ensures live == {}
  {
    assert forall b :: b in live ==> b in multiset(live);
  }

  /** Freeing all held blocks, in any order, is legal and leaves none held. */
  lemma {:induction false} FreesLegal(s: System, blocks: seq<Block>, registered: set<nat>)
    requires Valid(s, registered)
    requires multiset(blocks) == multiset(s.live)
    ensures Legal(s, Frees(blocks)) && Run(s, Frees(blocks)).live == {}
    decreases |blocks|
  {
    if blocks == [] {
      NothingHeld(s.live);
    } else {
      FreeHead(s, blocks, registered);
      FreesTail(blocks);
      FreesLegal(Step(s, FreeOp(blocks[0])), blocks[1..], registered);
    }
  }

  /** From any registered memory with nothing held, after any run, freeing
      everything held in any order restores the initial lists, up to the order inside
      each list. */
  lemma FreeAllRestores(s0: System, registered: set<nat>, ops: seq<Op>, blocks: seq<Block>)
    requires Valid(s0, registered) && s0.live == {} && Legal(s0, ops)
    requires multiset(blocks) == multiset(Run(s0, ops).live)
    ensures var s := Run(s0, ops);
      && Legal(s, Frees(blocks))
      && var t := Run(s, Frees(blocks));
      && t.freePages == s0.freePages && t.live == {}
      && forall o :: 0 <= o <= MAX_ORDER ==> multiset(t.lists[o]) == multiset(s0.lists[o])
  {
    RunValid(s0, ops, registered);
    var s := Run(s0, ops);
    FreesLegal(s, blocks, registered);
    RunValid(s, Frees(blocks), registered);
    CanonUnique(Run(s, Frees(blocks)).lists, s0.lists, registered - LivePages({}));
  }
}
