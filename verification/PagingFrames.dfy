/** Page-table frames taken from the buddy allocator, while the rest of the kernel
    allocates and frees blocks of its own. */
module PagingFrames {
  import opened Wrappers
  import opened Buddy
  import opened BuddyRuns
  import P = Paging
  import T = PagingTree
  import M = PagingMap
  import R = PagingRuns

  /** Page frame numbers whose byte address fits the 52 address bits of an entry. */
  const PFN_LIMIT: nat := 0x100_0000_0000

  /** One page as a frame address.  Address 0 stands for failure in the hook between
      kernel and page tables, so page 0 is lost when it is handed out. */
  function AllocZeroed(s: System): (System, Option<nat>) {
    var r := Allocated(s.lists, 0).1;
    (Step(s, AllocOp(0)), if r.Some? && r.value != 0 then Some(r.value * 4096) else None)
  }

  // ------------------------------------------------------ who holds which block

  /** A frame in use that lies in registered memory is a single page held, and held
      by nobody else.  Frames elsewhere are the boot loader's tables. */
  ghost predicate InUse(s: System, registered: set<nat>, others: set<Block>, used: set<nat>, f: nat) {
    f in used ==> f % 4096 == 0 && (f / 4096 in registered ==> f != 0 && Block(f / 4096, 0) in s.live - others)
  }

  /** Every block held is another holder's, the page of a frame in use, or page 0. */
  ghost predicate Accounted(s: System, others: set<Block>, used: set<nat>, b: Block) {
    b in s.live ==> b in others || b == Block(0, 0) || (b.order == 0 && b.pfn * 4096 in used)
  }

  /** The allocator is sound, and its held blocks are exactly those of the other
      holders, the pages of the used frames, and perhaps page 0. */
  ghost predicate Held(s: System, registered: set<nat>, others: set<Block>, used: set<nat>) {
    && Valid(s, registered) && others <= s.live
    && (forall x :: x in registered ==> x < PFN_LIMIT)
    && (forall f: nat :: InUse(s, registered, others, used, f))
    && (forall b :: Accounted(s, others, used, b))
  }

  /** Page 0 is held by nobody, and nobody will give it back. */
  ghost predicate Lost(s: System, others: set<Block>) {
    Block(0, 0) in s.live && Block(0, 0) !in others
  }

  lemma PageInLive(live: set<Block>, p: nat)
    ensures Block(p, 0) in live ==> p in LivePages(live)
  {
    assert Bits.Pow2(0) == 1;
    assert p in Pages(p, 0);
  }

  lemma AllocNew(s: System, registered: set<nat>, order: nat)
    requires Valid(s, registered) && Allocated(s.lists, order).1.Some?
    ensures var p := Allocated(s.lists, order).1.value;
      Block(p, order) !in s.live && (order == 0 ==> p in registered)
  {
    var p := Allocated(s.lists, order).1.value;
    AllocCanon(s.lists, registered - LivePages(s.live), order);
    assert p in Pages(p, order);
    assert Block(p, order) in s.live ==> p in LivePages(s.live);
  }

  /** One call keeps the accounts: a page it hands out is a used frame, and page 0,
      which it does not hand out, is lost. */
  lemma AllocHeld(s: System, registered: set<nat>, others: set<Block>, used: set<nat>)
    requires Held(s, registered, others, used)
    ensures var (s', r) := AllocZeroed(s);
      && (Lost(s', others) <==> Lost(s, others) || Allocated(s.lists, 0).1 == Some(0))
      && if r.None? then Held(s', registered, others, used)
         else P.GoodFrame(r.value) && r.value !in used && Held(s', registered, others, used + {r.value})
  {
    var (s', r) := AllocZeroed(s);
    StepAlloc(s, 0, registered);
    if Allocated(s.lists, 0).1.Some? { AllocNew(s, registered, 0); }
    if r.Some? {
      assert InUse(s, registered, others, used, r.value);
      forall f: nat ensures InUse(s', registered, others, used + {r.value}, f) {
        assert InUse(s, registered, others, used, f);
      }
      forall b ensures Accounted(s', others, used + {r.value}, b) { assert Accounted(s, others, used, b); }
    } else {
      forall f: nat ensures InUse(s', registered, others, used, f) { assert InUse(s, registered, others, used, f); }
      forall b ensures Accounted(s', others, used, b) { assert Accounted(s, others, used, b); }
    }
  }

  /** The buddy allocator meets what mapping needs: aligned frames never in use. */
  lemma BuddySupplies(registered: set<nat>, others: set<Block>)
    ensures T.Supplies(AllocZeroed, (s, used) => Held(s, registered, others, used))
  {
    var inv := (s: System, used: set<nat>) => Held(s, registered, others, used);
    forall s: System, used: set<nat> ensures T.SupplyOk(AllocZeroed, inv, s, used) {
      if Held(s, registered, others, used) {
        AllocHeld(s, registered, others, used);
      }
    }
  }

  // --------------------------------------------------- drawing several frames

  /** Among the next `n` pages drawn is page 0. */
  predicate DrawsZero(s: System, n: nat)
    decreases n
  {
    n > 0 && (Allocated(s.lists, 0).1 == Some(0) || (AllocZeroed(s).1.Some? && DrawsZero(AllocZeroed(s).0, n - 1)))
  }

  lemma FreePageSupplied(s: System, registered: set<nat>)
    requires Valid(s, registered)
    ensures Allocated(s.lists, 0).1.Some? <==> s.freePages > 0
  {
    var F := registered - LivePages(s.live);
    AllocCanon(s.lists, F, 0);
    if s.freePages > 0 {
      var x :| x in F;
      SinglePage(F, x);
    }
    if Allocated(s.lists, 0).1.Some? {
      var p := Allocated(s.lists, 0).1.value;
      assert Bits.Pow2(0) == 1;
      assert p in Pages(p, 0);
    }
  }

  lemma SinglePage(F: set<nat>, x: nat)
    requires x in F
    ensures Full(F, x, 0)
  {
    forall y: nat | Bits.Shr(y, 0) == x ensures y in F { }
  }

  lemma DrawOne(s: System, registered: set<nat>, others: set<Block>, used: set<nat>)
    requires Held(s, registered, others, used)
    ensures var (s', r) := AllocZeroed(s);
      && (r.Some? <==> s.freePages > 0 && Allocated(s.lists, 0).1 != Some(0))
      && (r.Some? ==> s'.freePages == s.freePages - 1 && Held(s', registered, others, used + {r.value}))
      && (Lost(s', others) <==> Lost(s, others) || Allocated(s.lists, 0).1 == Some(0))
  {
    FreePageSupplied(s, registered);
    AllocHeld(s, registered, others, used);
    assert Bits.Pow2(0) == 1;
  }

  lemma DrawStep(s: System, n: nat, s': System, r: Option<nat>)
    requires n > 0 && AllocZeroed(s) == (s', r)
    ensures T.AllocMany(s, AllocZeroed, n) <==> r.Some? && T.AllocMany(s', AllocZeroed, n - 1)
    ensures T.Drawn(s, AllocZeroed, n) == if r.None? then s' else T.Drawn(s', AllocZeroed, n - 1)
    ensures DrawsZero(s, n) <==> Allocated(s.lists, 0).1 == Some(0) || (r.Some? && DrawsZero(s', n - 1))
  {
  }

  /** `n` frames can be had exactly when `n` pages are free and page 0 is not among
      those drawn; then the counter falls by `n`.  Page 0 is lost exactly when drawn. */
  lemma {:induction false} DrawnFrames(s: System, n: nat, registered: set<nat>, others: set<Block>, used: set<nat>)
    requires Held(s, registered, others, used)
    ensures T.AllocMany(s, AllocZeroed, n) <==> s.freePages >= n && !DrawsZero(s, n)
    ensures T.AllocMany(s, AllocZeroed, n) ==> T.Drawn(s, AllocZeroed, n).freePages == s.freePages - n
    ensures Lost(T.Drawn(s, AllocZeroed, n), others) <==> Lost(s, others) || DrawsZero(s, n)
    decreases n
  {
    if n > 0 {
      DrawOne(s, registered, others, used);
      DrawStep(s, n, AllocZeroed(s).0, AllocZeroed(s).1);
      if AllocZeroed(s).1.Some? {
        DrawnFrames(AllocZeroed(s).0, n - 1, registered, others, used + {AllocZeroed(s).1.value});
      }
    }
  }

  lemma {:induction false} ZeroUnregistered(s: System, n: nat, registered: set<nat>)
    requires Valid(s, registered) && 0 !in registered
    ensures !DrawsZero(s, n)
    decreases n
  {
    if n > 0 {
      StepAlloc(s, 0, registered);
      if Allocated(s.lists, 0).1.Some? { AllocNew(s, registered, 0); }
      ZeroUnregistered(AllocZeroed(s).0, n - 1, registered);
    }
  }

  // ------------------------------------------------------ the kernel as a whole

  /** Page tables below `root`, the page allocator, and the blocks held by others. */
  datatype Kernel = Kernel(mem: P.Memory, root: nat, frames: System, others: set<Block>)

  datatype KernelOp = Paging(op: R.Op) | Take(order: nat) | Give(block: Block)

  /** The others only give back blocks they took. */
  predicate Allowed(k: Kernel, op: KernelOp) {
    op.Give? ==> op.block in k.others && op.block.order <= MAX_ORDER && op.block in k.frames.live
  }

  function KernelStep(k: Kernel, op: KernelOp): Kernel
    requires Allowed(k, op)
  {
    match op
    case Paging(p) =>
      var s := R.Exec(R.State(k.mem, k.frames), k.root, AllocZeroed, p).0;
      k.(mem := s.mem, frames := s.frames)
    case Take(order) =>
      var r := Allocated(k.frames.lists, order).1;
      k.(frames := Step(k.frames, AllocOp(order)),
         others := if r.Some? then k.others + {Block(r.value, order)} else k.others)
    case Give(b) => k.(frames := Step(k.frames, FreeOp(b)), others := k.others - {b})
  }

  predicate KernelLegal(k: Kernel, ops: seq<KernelOp>)
    decreases |ops|
  {
    ops == [] || (Allowed(k, ops[0]) && KernelLegal(KernelStep(k, ops[0]), ops[1..]))
  }

  function KernelRun(k: Kernel, ops: seq<KernelOp>): Kernel
    requires KernelLegal(k, ops)
    decreases |ops|
  {
    if ops == [] then k else KernelRun(KernelStep(k, ops[0]), ops[1..])
  }

  /** The tables missing for a request. */
  function Demand(k: Kernel, op: R.Op): nat {
    if op.Map? then T.Missing(k.mem, k.root, P.Indices(op.virt), 0) else 0
  }

  /** The request finds too few free pages, or is handed page 0. */
  predicate Short(k: Kernel, op: R.Op) {
    k.frames.freePages < Demand(k, op) || DrawsZero(k.frames, Demand(k, op))
  }

  /** The request draws page 0. */
  predicate Loses(k: Kernel, op: KernelOp) {
    op.Paging? && DrawsZero(k.frames, Demand(k, op.op))
  }

  predicate RunLoses(k: Kernel, ops: seq<KernelOp>)
    requires KernelLegal(k, ops)
    decreases |ops|
  {
    ops != [] && (Loses(k, ops[0]) || RunLoses(KernelStep(k, ops[0]), ops[1..]))
  }

  /** What the plain page map becomes: `map` and `unmap` act, the allocator does not.
      A map request that is short of frames leaves it alone. */
  function MapStep(k: Kernel, m: R.Space, op: KernelOp): R.Space {
    match op
    case Paging(p) => R.ExecMap(m, p, Short(k, p)).0
    case _ => m
  }

  function MapRun(k: Kernel, m: R.Space, ops: seq<KernelOp>): R.Space
    requires KernelLegal(k, ops)
    decreases |ops|
  {
    if ops == [] then m else MapRun(KernelStep(k, ops[0]), MapStep(k, m, ops[0]), ops[1..])
  }

  /** The invariant of the whole kernel. */
  ghost predicate KernelOk(k: Kernel, registered: set<nat>, path: T.Paths, m: R.Space) {
    && T.Tree(k.mem, k.root, path) && R.Agree(k.mem, k.root, m)
    && Held(k.frames, registered, k.others, path.Keys)
  }

  ghost predicate KernelLost(k: Kernel) {
    Lost(k.frames, k.others)
  }

  /** One map request: what it replies, and what becomes of the free pages. */
  lemma MapCost(k: Kernel, op: R.Op, registered: set<nat>, path: T.Paths, m: R.Space)
    requires KernelOk(k, registered, path, m) && op.Map?
    ensures var (s, r) := R.Exec(R.State(k.mem, k.frames), k.root, AllocZeroed, op);
      && (r == R.Mapped(P.Err(P.OutOfFrames)) <==> Short(k, op))
      && (R.Exhausts(R.State(k.mem, k.frames), k.root, AllocZeroed, op) <==> Short(k, op))
      && (!Short(k, op) ==> s.frames.freePages == k.frames.freePages - Demand(k, op))
      && (Lost(s.frames, k.others) <==> KernelLost(k) || Loses(k, Paging(op)))
  {
    BuddySupplies(registered, k.others);
    var inv := (s: System, used: set<nat>) => Held(s, registered, k.others, used);
    M.MapDraws(k.mem, k.root, path, op.virt, op.phys, op.flags, k.frames, AllocZeroed, inv);
    DrawnFrames(k.frames, Demand(k, op), registered, k.others, path.Keys);
  }

  /** With page 0 left out of the registered memory, a map request runs out of
      frames exactly when fewer pages are free than tables are missing. */
  lemma MapCostWithoutZero(k: Kernel, op: R.Op, registered: set<nat>, path: T.Paths, m: R.Space)
    requires KernelOk(k, registered, path, m) && op.Map? && 0 !in registered
    ensures var (s, r) := R.Exec(R.State(k.mem, k.frames), k.root, AllocZeroed, op);
      && (r == R.Mapped(P.Err(P.OutOfFrames)) <==> k.frames.freePages < Demand(k, op))
      && (r == R.Mapped(P.Ok(())) <==>
          k.frames.freePages >= Demand(k, op) && P.PageOf(op.virt) !in m.pages && P.PageOf(op.virt) !in m.huge)
  {
    MapCost(k, op, registered, path, m);
    ZeroUnregistered(k.frames, Demand(k, op), registered);
    var path' := StepPaging(k, op, registered, path, m);
  }

  lemma StepPaging(k: Kernel, op: R.Op, registered: set<nat>, path: T.Paths, m: R.Space) returns (path': T.Paths)
    requires KernelOk(k, registered, path, m)
    ensures KernelOk(KernelStep(k, Paging(op)), registered, path', MapStep(k, m, Paging(op)))
    ensures KernelLost(KernelStep(k, Paging(op))) <==> KernelLost(k) || Loses(k, Paging(op))
    ensures R.Exec(R.State(k.mem, k.frames), k.root, AllocZeroed, op).1 == R.ExecMap(m, op, Short(k, op)).1
  {
    BuddySupplies(registered, k.others);
    var inv := (s: System, used: set<nat>) => Held(s, registered, k.others, used);
    path' := R.ExecRefines(R.State(k.mem, k.frames), k.root, path, m, op, AllocZeroed, inv);
    if op.Map? { MapCost(k, op, registered, path, m); }
  }

  lemma StepTake(k: Kernel, order: nat, registered: set<nat>, path: T.Paths, m: R.Space)
    requires KernelOk(k, registered, path, m)
    ensures KernelOk(KernelStep(k, Take(order)), registered, path, m)
    ensures KernelLost(KernelStep(k, Take(order))) <==> KernelLost(k)
  {
    var k' := KernelStep(k, Take(order));
    StepAlloc(k.frames, order, registered);
    if Allocated(k.frames.lists, order).1.Some? { AllocNew(k.frames, registered, order); }
    forall f: nat ensures InUse(k'.frames, registered, k'.others, path.Keys, f) {
      assert InUse(k.frames, registered, k.others, path.Keys, f);
    }
    forall b ensures Accounted(k'.frames, k'.others, path.Keys, b) {
      assert Accounted(k.frames, k.others, path.Keys, b);
    }
  }

  lemma StepGive(k: Kernel, b: Block, registered: set<nat>, path: T.Paths, m: R.Space)
    requires KernelOk(k, registered, path, m) && Allowed(k, Give(b))
    ensures KernelOk(KernelStep(k, Give(b)), registered, path, m)
    ensures KernelLost(KernelStep(k, Give(b))) <==> KernelLost(k)
  {
    var k' := KernelStep(k, Give(b));
    StepFree(k.frames, b, registered);
    forall f: nat ensures InUse(k'.frames, registered, k'.others, path.Keys, f) {
      assert InUse(k.frames, registered, k.others, path.Keys, f);
    }
    forall c ensures Accounted(k'.frames, k'.others, path.Keys, c) {
      assert Accounted(k.frames, k.others, path.Keys, c);
    }
  }

  /** Over every run in which paging and the rest of the kernel share one buddy
      allocator, the tables stay a tree that translates like the plain map, every
      block held is accounted for, and page 0 is lost exactly when paging drew it. */
  lemma {:induction false} KernelRunOk(k: Kernel, ops: seq<KernelOp>, registered: set<nat>, path: T.Paths, m: R.Space)
    returns (path': T.Paths)
    requires KernelOk(k, registered, path, m) && KernelLegal(k, ops)
    ensures KernelOk(KernelRun(k, ops), registered, path', MapRun(k, m, ops))
    ensures KernelLost(KernelRun(k, ops)) <==> KernelLost(k) || RunLoses(k, ops)
    decreases |ops|
  {
    path' := path;
    if ops != [] {
      match ops[0] {
        case Paging(op) => path' := StepPaging(k, op, registered, path, m);
        case Take(order) => StepTake(k, order, registered, path, m);
        case Give(b) => StepGive(k, b, registered, path, m);
      }
      path' := KernelRunOk(KernelStep(k, ops[0]), ops[1..], registered, path', MapStep(k, m, ops[0]));
    }
  }

  // --------------------------------------------------------------- the accounts

  /** The pages of the tables in registered memory. */
  ghost function TableBlocks(path: T.Paths, registered: set<nat>): set<Block> {
    set t | t in path && t / 4096 in registered :: Block(t / 4096, 0)
  }

  /** The blocks held are those of the other holders, one page for each table in
      registered memory, and page 0 if it is lost; the three do not overlap. */
  lemma KernelAccounts(k: Kernel, registered: set<nat>, path: T.Paths, m: R.Space)
    requires KernelOk(k, registered, path, m)
    ensures var lost := if KernelLost(k) then {Block(0, 0)} else {};
      && k.frames.live == k.others + TableBlocks(path, registered) + lost
      && k.others !! TableBlocks(path, registered) && lost !! k.others + TableBlocks(path, registered)
    ensures 0 !in registered ==> !KernelLost(k)
  {
    forall b ensures b in TableBlocks(path, registered) <==>
      b in k.frames.live && b !in k.others && b != Block(0, 0)
    {
      AccountBlock(k, registered, path, m, b);
    }
    PageInLive(k.frames.live, 0);
    LiveWithin(k.frames.live, registered, {});
  }

  lemma AccountBlock(k: Kernel, registered: set<nat>, path: T.Paths, m: R.Space, b: Block)
    requires KernelOk(k, registered, path, m)
    ensures b in TableBlocks(path, registered) <==> b in k.frames.live && b !in k.others && b != Block(0, 0)
  {
    if b in TableBlocks(path, registered) {
      var t :| t in path && t / 4096 in registered && b == Block(t / 4096, 0);
      assert InUse(k.frames, registered, k.others, path.Keys, t);
    }
    if b in k.frames.live && b !in k.others && b != Block(0, 0) {
      assert Accounted(k.frames, k.others, path.Keys, b);
      PageInLive(k.frames.live, b.pfn);
      LiveWithin(k.frames.live, registered, {});
      assert b.pfn * 4096 / 4096 == b.pfn;
    }
  }

  /** Each table in registered memory has a page of its own: other tables, free
      blocks and the blocks of other holders never contain it. */
  lemma TablesOwned(k: Kernel, registered: set<nat>, path: T.Paths, m: R.Space, t: nat)
    requires KernelOk(k, registered, path, m) && t in path && t / 4096 in registered
    ensures t / 4096 in LivePages(k.frames.live)
    ensures forall o, p :: 0 <= o <= MAX_ORDER && p in k.frames.lists[o] ==> t / 4096 !in Pages(p, o)
    ensures forall b :: b in k.others ==> t / 4096 !in Pages(b.pfn, b.order)
    ensures forall u :: u in path && u != t ==> u / 4096 != t / 4096
  {
    var F, b := registered - LivePages(k.frames.live), Block(t / 4096, 0);
    assert InUse(k.frames, registered, k.others, path.Keys, t);
    PageInLive(k.frames.live, t / 4096);
    assert t / 4096 in Pages(b.pfn, 0);
    forall o: nat, p | o <= MAX_ORDER && p in k.frames.lists[o] ensures t / 4096 !in Pages(p, o) {
      ListedFull(k.frames.lists, F, p, o);
    }
    forall c | c in k.others ensures t / 4096 !in Pages(c.pfn, c.order) {
      assert HeldApart(k.frames.live, b, c);
    }
    forall u | u in path && u != t ensures u / 4096 != t / 4096 {
      assert InUse(k.frames, registered, k.others, path.Keys, u);
    }
  }

  // -------------------------------------------------------- where a run starts

  lemma BootedHeld(s: System, registered: set<nat>)
    requires Valid(s, registered) && s.live == {} && forall x :: x in registered ==> x < PFN_LIMIT
    ensures Held(s, registered, {}, {})
  {
    forall f: nat ensures InUse(s, registered, {}, {}, f) { }
    forall b ensures Accounted(s, {}, {}, b) { }
  }

  /** Memory that holds page 0 alone: the first request fails, and the page is gone. */
  lemma PageZeroLost()
    ensures var s := Booted(0, 1);
      && s.freePages == 1 && AllocZeroed(s).1 == None && AllocZeroed(s).0.freePages == 0 && Lost(AllocZeroed(s).0, {})
  {
    var s, registered := Booted(0, 1), Range(0, 1);
    BootedValid(0, 1);
    BootedHeld(s, registered);
    AllocHeld(s, registered, {}, {});
    FreePageSupplied(s, registered);
    AllocNew(s, registered, 0);
    assert Bits.Pow2(0) == 1;
  }

  /** Where a run starts: the usable regions registered one after the other, and the
      boot loader's tables, which lie outside them. */
  lemma KernelBooted(mem: P.Memory, root: nat, path: T.Paths, regions: seq<Region>)
    requires Spaced(EMPTY, {}, regions) && forall x :: x in RegionPages(regions) ==> x < PFN_LIMIT
    requires T.Tree(mem, root, path) && forall t :: t in path ==> t / 4096 !in RegionPages(regions)
    ensures KernelOk(Kernel(mem, root, RegisterAll(EMPTY, regions), {}), RegionPages(regions), path,
      R.SpaceOf(mem, root))
  {
    var s, registered := RegisterAll(EMPTY, regions), RegionPages(regions);
    EmptyValid();
    RegisterAllValid(EMPTY, {}, regions);
    assert {} + registered == registered;
    R.AnyTablesAgree(mem, root);
    forall f: nat ensures InUse(s, registered, {}, path.Keys, f) { assert T.NodeOk(mem, path, f); }
    forall b ensures Accounted(s, {}, path.Keys, b) { }
  }

  /** A new address space: a root table drawn from a kernel that holds no other. */
  lemma NewSpace(s: System, registered: set<nat>, others: set<Block>, root: nat)
    requires Held(s, registered, others, {}) && AllocZeroed(s).1 == Some(root)
    ensures KernelOk(Kernel(map[root := P.ZERO], root, AllocZeroed(s).0, others), registered, map[root := []],
                     R.Space(map[], map[]))
  {
    AllocHeld(s, registered, others, {});
    R.EmptyTree(root);
    var path: T.Paths := map[root := []];
    assert path.Keys == {} + {root};
  }
}
