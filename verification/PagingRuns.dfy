/** Page tables as a plain map of pages and huge pages, over whole runs. */
module PagingRuns {
  import opened Wrappers
  import opened Paging
  import opened PagingMap
  import opened PagingMarks
  import opened PagingTree

  // ----------------------------------------------------------- the reference

  /** A 4 KiB page: as given to `map_page_in`, or as found in tables built earlier. */
  datatype Page = Given(phys: nat, flags: nat) | Found(entry: nat)

  function LeafOf(p: Page): nat {
    match p
    case Given(phys, flags) => LeafEntry(phys, flags)
    case Found(e) => e
  }

  function FrameOf(p: Page): nat {
    match p
    case Given(phys, _) => AddrOf(phys)
    case Found(e) => AddrOf(e)
  }

  /** An address space by page number: its 4 KiB pages, and the pages that lie in
      huge ones. */
  datatype Space = Space(pages: map<nat, Page>, huge: map<nat, Mapping>)

  ghost predicate SpaceOk(m: Space) {
    m.pages.Keys !! m.huge.Keys && forall p :: p in m.huge ==> m.huge[p].level < 3
  }

  /** `Mark` is the processor setting the Accessed or Dirty bit of a present entry. */
  datatype Op = Map(virt: nat, phys: nat, flags: nat) | Unmap(virt: nat) | Mark(table: nat, index: nat, dirty: bool)

  datatype Reply = Mapped(r: Result<()>) | Unmapped(frame: Option<nat>) | Marked

  function ExecMap(m: Space, op: Op, outOfFrames: bool): (Space, Reply) {
    match op
    case Map(virt, phys, flags) =>
      if PageOf(virt) in m.huge then (m, Mapped(Err(HugePagePresent)))
      else if PageOf(virt) in m.pages then (m, Mapped(Err(AlreadyMapped)))
      else if outOfFrames then (m, Mapped(Err(OutOfFrames)))
      else (m.(pages := m.pages[PageOf(virt) := Given(phys, flags)]), Mapped(Ok(())))
    case Unmap(virt) =>
      if PageOf(virt) in m.pages
      then (m.(pages := m.pages - {PageOf(virt)}), Unmapped(Some(FrameOf(m.pages[PageOf(virt)]))))
      else (m, Unmapped(None))
    case Mark(_, _, _) => (m, Marked)
  }

  // ------------------------------------------------------------- the machine

  /** Tables and allocator. */
  datatype State<A> = State(mem: Memory, frames: A)

  function Exec<A>(s: State<A>, root: nat, alloc: A -> (A, Option<nat>), op: Op): (State<A>, Reply) {
    match op
    case Map(virt, phys, flags) =>
      var (mem, a, r) := MapPage(s.mem, root, virt, phys, flags, s.frames, alloc);
      (State(mem, a), Mapped(r))
    case Unmap(virt) =>
      var (mem, r) := UnmapPage(s.mem, root, virt);
      (s.(mem := mem), Unmapped(r))
    case Mark(t, i, dirty) =>
      var e := Entry(s.mem, t, i);
      (if IsPresent(e) then s.(mem := SetEntry(s.mem, t, i, PagingMarks.Mark(e, dirty))) else s, Marked)
  }

  function Run<A>(s: State<A>, root: nat, alloc: A -> (A, Option<nat>), ops: seq<Op>): (State<A>, seq<Reply>)
    decreases |ops|
  {
    if ops == [] then (s, []) else
    var (s', r) := Exec(s, root, alloc, ops[0]);
    var (t, rs) := Run(s', root, alloc, ops[1..]);
    (t, [r] + rs)
  }

  /** The request needs more tables than the allocator supplies. */
  predicate Exhausts<A>(s: State<A>, root: nat, alloc: A -> (A, Option<nat>), op: Op) {
    op.Map? && !AllocMany(s.frames, alloc, Missing(s.mem, root, Indices(op.virt), 0))
  }

  /** The same requests on the reference, short of frames where the tables missing
      in the machine are more than its allocator supplies. */
  function RunMap<A>(m: Space, s: State<A>, root: nat, alloc: A -> (A, Option<nat>), ops: seq<Op>): (Space, seq<Reply>)
    decreases |ops|
  {
    if ops == [] then (m, []) else
    var (m', r) := ExecMap(m, ops[0], Exhausts(s, root, alloc, ops[0]));
    var (n, rs) := RunMap(m', Exec(s, root, alloc, ops[0]).0, root, alloc, ops[1..]);
    (n, [r] + rs)
  }

  // --------------------------------------------------------------- agreement

  /** Where the walk for `v` should end. */
  function Expected(m: Space, v: nat): Option<Mapping> {
    if PageOf(v) in m.pages then Some(Mapping(3, LeafOf(m.pages[PageOf(v)])))
    else if PageOf(v) in m.huge then Some(m.huge[PageOf(v)])
    else None
  }

  ghost predicate AgreeAt(mem: Memory, root: nat, m: Space, v: nat) {
    SameMapping(Expected(m, v), Lookup(mem, root, Indices(v), 0))
  }

  /** The tables map every address as `m` does, up to Accessed and Dirty bits. */
  ghost predicate Agree(mem: Memory, root: nat, m: Space) {
    SpaceOk(m) && forall v: nat :: AgreeAt(mem, root, m, v)
  }

  lemma AgreeChanged(mem: Memory, mem': Memory, root: nat, m: Space, virt: nat, page: Option<Page>)
    requires Agree(mem, root, m) && PageOf(virt) !in m.huge
    requires ChangedOnly(mem, mem', root, Indices(virt),
                         if page.Some? then Some(Mapping(3, LeafOf(page.value))) else None)
    ensures Agree(mem', root, m.(pages := if page.Some? then m.pages[PageOf(virt) := page.value]
      else m.pages - {PageOf(virt)}))
  {
    var m' := m.(pages := if page.Some? then m.pages[PageOf(virt) := page.value] else m.pages - {PageOf(virt)});
    forall v: nat ensures AgreeAt(mem', root, m', v) {
      assert AgreeAt(mem, root, m, v);
      SplitBijective(v, virt);
      IndicesOk(v);
    }
  }

  lemma AgreeSame(mem: Memory, mem': Memory, root: nat, m: Space)
    requires Agree(mem, root, m) && SameMap(mem, mem', root)
    ensures Agree(mem', root, m)
  {
    forall v: nat ensures AgreeAt(mem', root, m, v) {
      assert AgreeAt(mem, root, m, v);
      IndicesOk(v);
    }
  }

  lemma AgreeMarked(mem: Memory, root: nat, m: Space, t: nat, i: nat, e: nat)
    requires Agree(mem, root, m) && SameFields(Entry(mem, t, i), e)
    ensures Agree(SetEntry(mem, t, i, e), root, m)
  {
    forall v: nat ensures AgreeAt(SetEntry(mem, t, i, e), root, m, v) {
      assert AgreeAt(mem, root, m, v);
      MarkStable(mem, t, i, e, root, Indices(v), 0);
    }
  }

  // --------------------------------------------------------------- refinement

  /** The reply to a map request, from what the walk found before it. */
  lemma MapReply(m: Space, op: Op, before: Option<Mapping>, exhausted: bool, r: Result<()>)
    requires SpaceOk(m) && op.Map? && SameMapping(Expected(m, op.virt), before)
    requires r == Err(AlreadyMapped) <==> before.Some? && before.value.level == 3
    requires r == Err(HugePagePresent) <==> before.Some? && before.value.level < 3
    requires r == Err(OutOfFrames) <==> exhausted
    ensures var (m', r') := ExecMap(m, op, exhausted);
      && r' == Mapped(r) && (r.Err? ==> m' == m)
      && (r.Ok? ==>
        PageOf(op.virt) !in m.huge && m' == m.(pages := m.pages[PageOf(op.virt) := Given(op.phys, op.flags)]))
  {
    match r
    case Ok(u) => assert u == ();
    case Err(OutOfFrames) =>
    case Err(AlreadyMapped) =>
    case Err(HugePagePresent) =>
  }

  lemma ExecMapRefines<A(!new)>(s: State<A>, root: nat, path: Paths, m: Space, op: Op,
                                alloc: A -> (A, Option<nat>), inv: (A, set<nat>) -> bool) returns (path': Paths)
    requires Tree(s.mem, root, path) && Supplies(alloc, inv) && inv(s.frames, path.Keys) && Agree(s.mem, root, m)
      && op.Map?
    ensures var (mem, a, r) := MapPage(s.mem, root, op.virt, op.phys, op.flags, s.frames, alloc);
      var (m', r') := ExecMap(m, op, Exhausts(s, root, alloc, op));
      && Tree(mem, root, path') && inv(a, path'.Keys)
      && (Permissive(s.mem, path) ==> Permissive(mem, path'))
      && Mapped(r) == r' && Agree(mem, root, m')
  {
    path' := MapRefines(s.mem, root, path, op.virt, op.phys, op.flags, s.frames, alloc, inv);
    MapDraws(s.mem, root, path, op.virt, op.phys, op.flags, s.frames, alloc, inv);
    var (mem, a, r) := MapPage(s.mem, root, op.virt, op.phys, op.flags, s.frames, alloc);
    assert AgreeAt(s.mem, root, m, op.virt);
    MapReply(m, op, Lookup(s.mem, root, Indices(op.virt), 0), Exhausts(s, root, alloc, op), r);
    if r.Ok? {
      AgreeChanged(s.mem, mem, root, m, op.virt, Some(Given(op.phys, op.flags)));
    } else {
      AgreeSame(s.mem, mem, root, m);
    }
  }

  lemma LeafFrame(p: Page)
    ensures AddrOf(LeafOf(p)) == FrameOf(p)
  {
    if p.Given? { LeafEntryBits(p.phys, p.flags); }
  }

  lemma ExecUnmapRefines(mem: Memory, root: nat, path: Paths, m: Space, virt: nat)
    requires Tree(mem, root, path) && Agree(mem, root, m)
    ensures var (mem', r) := UnmapPage(mem, root, virt);
      var (m', r') := ExecMap(m, Unmap(virt), false);
      && Tree(mem', root, path) && Unmapped(r) == r' && Agree(mem', root, m')
      && (Permissive(mem, path) ==> Permissive(mem', path))
  {
    UnmapRefines(mem, root, path, virt);
    var mem' := UnmapPage(mem, root, virt).0;
    assert AgreeAt(mem, root, m, virt);
    if PageOf(virt) in m.pages {
      LeafFrame(m.pages[PageOf(virt)]);
      AgreeChanged(mem, mem', root, m, virt, None);
    }
  }

  lemma ExecMarkRefines(mem: Memory, root: nat, path: Paths, m: Space, t: nat, i: nat, dirty: bool)
    requires Tree(mem, root, path) && Agree(mem, root, m)
    ensures var mem' := SetEntry(mem, t, i, PagingMarks.Mark(Entry(mem, t, i), dirty));
      && Tree(mem', root, path) && Agree(mem', root, m) && (Permissive(mem, path) ==> Permissive(mem', path))
  {
    var e := PagingMarks.Mark(Entry(mem, t, i), dirty);
    MarkFields(Entry(mem, t, i), dirty);
    MarkKeepsTree(mem, root, path, t, i, e);
    AgreeMarked(mem, root, m, t, i, e);
  }

  lemma ExecRefines<A(!new)>(s: State<A>, root: nat, path: Paths, m: Space, op: Op,
                             alloc: A -> (A, Option<nat>), inv: (A, set<nat>) -> bool) returns (path': Paths)
    requires Tree(s.mem, root, path) && Supplies(alloc, inv) && inv(s.frames, path.Keys) && Agree(s.mem, root, m)
    ensures var (s', r) := Exec(s, root, alloc, op);
      var (m', r') := ExecMap(m, op, Exhausts(s, root, alloc, op));
      && Tree(s'.mem, root, path') && inv(s'.frames, path'.Keys)
      && (Permissive(s.mem, path) ==> Permissive(s'.mem, path'))
      && r == r' && Agree(s'.mem, root, m')
  {
    path' := path;
    match op {
      case Map(virt, phys, flags) => path' := ExecMapRefines(s, root, path, m, op, alloc, inv);
      case Unmap(virt) => ExecUnmapRefines(s.mem, root, path, m, virt);
      case Mark(t, i, dirty) => ExecMarkRefines(s.mem, root, path, m, t, i, dirty);
    }
  }

  /** From any tree that agrees with an address space, every reply of every run is
      the reply of the plain map, and the tables keep agreeing with it. */
  lemma {:induction false} RunRefines<A(!new)>(s: State<A>, root: nat, path: Paths, m: Space, ops: seq<Op>,
                                      alloc: A -> (A, Option<nat>), inv: (A, set<nat>) -> bool) returns (path': Paths)
    requires Tree(s.mem, root, path) && Supplies(alloc, inv) && inv(s.frames, path.Keys) && Agree(s.mem, root, m)
    ensures var (t, rs) := Run(s, root, alloc, ops);
      && |rs| == |ops|
      && Tree(t.mem, root, path') && inv(t.frames, path'.Keys)
      && (Permissive(s.mem, path) ==> Permissive(t.mem, path'))
      && RunMap(m, s, root, alloc, ops).1 == rs && Agree(t.mem, root, RunMap(m, s, root, alloc, ops).0)
    decreases |ops|
  {
    path' := path;
    if ops != [] {
      var m' := ExecMap(m, ops[0], Exhausts(s, root, alloc, ops[0])).0;
      var p := ExecRefines(s, root, path, m, ops[0], alloc, inv);
      path' := RunRefines(Exec(s, root, alloc, ops[0]).0, root, p, m', ops[1..], alloc, inv);
    }
  }

  // --------------------------------------------------- where a run may start

  /** The address space that any tables describe. */
  ghost function SpaceOf(mem: Memory, root: nat): Space {
    Space(
      map p: nat | p < 0x10_0000_0000 && LeafAt(mem, root, p).Some? :: LeafAt(mem, root, p).value,
      map p: nat | p < 0x10_0000_0000 && HugeAt(mem, root, p).Some? :: HugeAt(mem, root, p).value)
  }

  function LeafAt(mem: Memory, root: nat, p: nat): Option<Page> {
    match Lookup(mem, root, Indices(p * 4096), 0)
    case Some(Mapping(3, e)) => Some(Found(e))
    case _ => None
  }

  function HugeAt(mem: Memory, root: nat, p: nat): Option<Mapping> {
    var r := Lookup(mem, root, Indices(p * 4096), 0);
    if r.Some? && r.value.level < 3 then r else None
  }

  lemma PageStart(v: nat)
    ensures Indices(PageOf(v) * 4096) == Indices(v) && PageOf(v) < 0x10_0000_0000
  {
    assert PageOf(PageOf(v) * 4096) == PageOf(v);
    SplitBijective(PageOf(v) * 4096, v);
  }

  /** A run may start from any tables, such as those a boot loader leaves behind. */
  lemma AnyTablesAgree(mem: Memory, root: nat)
    ensures Agree(mem, root, SpaceOf(mem, root))
  {
    var m := SpaceOf(mem, root);
    forall v: nat ensures AgreeAt(mem, root, m, v) {
      PageStart(v);
      LookupLevel(mem, root, Indices(v), 0);
    }
  }

  /** A zeroed root table is the tree of the empty map. */
  lemma EmptyTree(root: nat)
    requires GoodFrame(root)
    ensures var mem: Memory, path: Paths := map[root := ZERO], map[root := []];
      Tree(mem, root, path) && Permissive(mem, path) && Agree(mem, root, Space(map[], map[]))
  {
    var mem, path: Paths := map[root := ZERO], map[root := []];
    FlagBits(0);
    forall t: nat ensures NodeOk(mem, path, t) { }
    forall t: nat, i: nat ensures LinkOk(mem, path, t, i) && PermitsAt(mem, path, t, i) { }
    forall v: nat ensures AgreeAt(mem, root, Space(map[], map[]), v) { }
  }

  /** Base and offset of a walk that ends as the map says. */
  lemma MappedTo(m: Space, v: nat, r: Option<Mapping>)
    requires SpaceOk(m) && SameMapping(Expected(m, v), r)
    ensures match r
      case None => PageOf(v) !in m.pages && PageOf(v) !in m.huge
      case Some(x) =>
        if PageOf(v) in m.pages then x.level == 3 && AddrOf(x.entry) == FrameOf(m.pages[PageOf(v)])
        else
          && PageOf(v) in m.huge && x.level == m.huge[PageOf(v)].level < 3
          && AddrOf(x.entry) == AddrOf(m.huge[PageOf(v)].entry)
  {
    if PageOf(v) in m.pages { LeafFrame(m.pages[PageOf(v)]); }
  }

  /** What the map says is what `translate_in` computes, for every address. */
  lemma TranslateRefines(mem: Memory, root: nat, m: Space, virt: nat)
    requires Agree(mem, root, m)
    ensures Translate(mem, root, virt) ==
      if PageOf(virt) in m.pages then Some(FrameOf(m.pages[PageOf(virt)]) + virt % 4096)
      else if PageOf(virt) in m.huge then
        var h := m.huge[PageOf(virt)];
        Some(AddrOf(h.entry) + virt % Span(h.level))
      else None
  {
    assert AgreeAt(mem, root, m, virt);
    TranslateSum(mem, root, virt);
    MappedTo(m, virt, Lookup(mem, root, Indices(virt), 0));
    LeafSpan(3);
  }
}
