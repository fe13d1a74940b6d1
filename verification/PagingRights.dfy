/** Effective rights along a walk, and huge pages as tables of smaller ones. */
module PagingRights {
  import opened Wrappers
  import opened Paging
  import opened PagingMarks
  import opened PagingRuns
  import opened PagingTree

  // ---------------------------------------------------------- effective rights

  datatype Rights = Rights(write: bool, user: bool, execute: bool)

  function RightsOf(e: nat): Rights {
    Rights(Writable(e), UserBit(e), !NoExecute(e))
  }

  function Both(r: Rights, s: Rights): Rights {
    Rights(r.write && s.write, r.user && s.user, r.execute && s.execute)
  }

  /** Rights combined over all levels of the walk: an access is allowed when every
      entry used allows it (Intel SDM Vol. 3A, section 4.6). */
  function EffectiveRights(mem: Memory, t: nat, idx: seq<nat>, level: nat): Option<Rights>
    requires |idx| == 4 && level <= 3
    decreases 3 - level
  {
    var e := Entry(mem, t, idx[level]);
    if !IsPresent(e) then None
    else if level == 3 || IsHuge(e) then Some(RightsOf(e))
    else
      match EffectiveRights(mem, AddrOf(e), idx, level + 1)
      case None => None
      case Some(r) => Some(Both(RightsOf(e), r))
  }

  predicate AtLeast(r: Rights, s: Rights) {
    (s.write ==> r.write) && (s.user ==> r.user) && (s.execute ==> r.execute)
  }

  /** Every link of the walk allows what `r` allows. */
  predicate LinksAllow(mem: Memory, t: nat, idx: seq<nat>, level: nat, r: Rights)
    requires |idx| == 4 && level <= 3
    decreases 3 - level
  {
    var e := Entry(mem, t, idx[level]);
    level < 3 && Links(e) ==> AtLeast(RightsOf(e), r) && LinksAllow(mem, AddrOf(e), idx, level + 1, r)
  }

  /** A walk never allows more than its last entry, and it allows exactly that if
      and only if every link does. */
  lemma {:induction false} RightsExactly(mem: Memory, t: nat, idx: seq<nat>, level: nat)
    requires |idx| == 4 && level <= 3
    ensures match (Lookup(mem, t, idx, level), EffectiveRights(mem, t, idx, level))
      case (None, None) => true
      case (Some(m), Some(r)) =>
        var l := RightsOf(m.entry);
        AtLeast(l, r) && (r == l <==> LinksAllow(mem, t, idx, level, l))
      case _ => false
    decreases 3 - level
  {
    var e := Entry(mem, t, idx[level]);
    if level < 3 && Links(e) {
      RightsExactly(mem, AddrOf(e), idx, level + 1);
    }
  }

  lemma {:induction false} PermissiveAllows(mem: Memory, root: nat, path: Paths, t: nat, idx: seq<nat>, level: nat,
    r: Rights)
    requires Tree(mem, root, path) && Permissive(mem, path) && OnPath(path, t, idx, level)
    ensures LinksAllow(mem, t, idx, level, r)
    decreases 3 - level
  {
    var e := Entry(mem, t, idx[level]);
    if level < 3 && Links(e) {
      assert PermitsAt(mem, path, t, idx[level]);
      StepDown(mem, root, path, t, idx, level);
      PermissiveAllows(mem, root, path, AddrOf(e), idx, level + 1, r);
    }
  }

  /** Below links that do not restrict, the mapping alone decides. */
  lemma RightsOfMapping(mem: Memory, root: nat, path: Paths, t: nat, idx: seq<nat>, level: nat)
    requires Tree(mem, root, path) && Permissive(mem, path) && OnPath(path, t, idx, level)
    ensures EffectiveRights(mem, t, idx, level) ==
      match Lookup(mem, t, idx, level)
      case None => None
      case Some(m) => Some(RightsOf(m.entry))
  {
    RightsExactly(mem, t, idx, level);
    var r := Lookup(mem, t, idx, level);
    if r.Some? { PermissiveAllows(mem, root, path, t, idx, level, RightsOf(r.value.entry)); }
  }

  /** The rights of a page of the address space: those its flags asked for, or those
      of the entry found. */
  function RightsIn(m: Space, page: nat): Option<Rights> {
    if page in m.pages then
      match m.pages[page]
      case Given(_, f) => Some(Rights(Contains(f, WRITE), Contains(f, USER), Contains(f, EXEC)))
      case Found(e) => Some(RightsOf(e))
    else if page in m.huge then Some(RightsOf(m.huge[page].entry))
    else None
  }

  lemma ExpectedRights(m: Space, v: nat, r: Option<Mapping>)
    requires SameMapping(Expected(m, v), r)
    ensures RightsIn(m, PageOf(v)) == match r case None => None case Some(x) => Some(RightsOf(x.entry))
  {
    if PageOf(v) in m.pages && m.pages[PageOf(v)].Given? {
      LeafEntryBits(m.pages[PageOf(v)].phys, m.pages[PageOf(v)].flags);
    }
  }

  /** Every page has exactly the rights its flags asked for, as long as no table
      found at the start restricts them.  With RunRefines this holds after every run
      of maps and unmaps. */
  lemma RightsAsGiven(mem: Memory, root: nat, path: Paths, m: Space, virt: nat)
    requires Tree(mem, root, path) && Permissive(mem, path) && Agree(mem, root, m)
    ensures EffectiveRights(mem, root, Indices(virt), 0) == RightsIn(m, PageOf(virt))
  {
    var idx := Indices(virt);
    IndicesOk(virt);
    assert idx[..0] == [];
    assert AgreeAt(mem, root, m, virt);
    ExpectedRights(m, virt, Lookup(mem, root, idx, 0));
    RightsOfMapping(mem, root, path, root, idx, 0);
  }

  /** In any tables, a page has the rights its flags asked for if and only if every
      link on its walk allows them. */
  lemma RightsInAnyTables(mem: Memory, root: nat, m: Space, virt: nat)
    requires Agree(mem, root, m)
    ensures var (r, g) := (EffectiveRights(mem, root, Indices(virt), 0), RightsIn(m, PageOf(virt)));
      && r.Some? == g.Some?
      && (g.Some? ==> AtLeast(g.value, r.value) && (r == g <==> LinksAllow(mem, root, Indices(virt), 0, g.value)))
  {
    assert AgreeAt(mem, root, m, virt);
    ExpectedRights(m, virt, Lookup(mem, root, Indices(virt), 0));
    RightsExactly(mem, root, Indices(virt), 0);
  }

  predicate KernelLinkAt(mem: Memory, t: seq<nat>, i: nat) {
    i + 1 < |t| ==> GoodFrame(t[i + 1]) && Entry(mem, t[i], 0) == t[i + 1] + 3
  }

  /** Four tables linked for the kernel only, down to an empty leaf table. */
  predicate KernelOnly(mem: Memory, t: seq<nat>) {
    && |t| == 4 && t[3] in mem && t[3] !in t[..3] && Entry(mem, t[3], 0) == 0
    && KernelLinkAt(mem, t, 0) && KernelLinkAt(mem, t, 1) && KernelLinkAt(mem, t, 2)
  }

  lemma KernelLink(f: nat)
    requires GoodFrame(f)
    ensures Links(f + 3) && AddrOf(f + 3) == f && !UserBit(f + 3)
  {
    LowBits(f / 4096, 3, 0);
    FlagBits(f + 3);
    AddrBits(f + 3);
  }

  lemma {:induction false} KernelWalk<A>(mem: Memory, t: seq<nat>, level: nat, idx: seq<nat>, a: A,
    alloc: A -> (A, Option<nat>))
    requires KernelOnly(mem, t) && level <= 3 && idx == [0, 0, 0, 0]
    ensures Descend(mem, t[level], idx, level, a, alloc) == (mem, a, Ok(t[3]))
    decreases 3 - level
  {
    if level < 3 {
      KernelLink(t[level + 1]);
      KernelWalk(mem, t, level + 1, idx, a, alloc);
    }
  }

  lemma {:induction false} KernelRights(mem: Memory, t: seq<nat>, level: nat, idx: seq<nat>, e: nat)
    requires KernelOnly(mem, t) && level <= 3 && idx == [0, 0, 0, 0] && IsPresent(e)
    ensures var r := EffectiveRights(SetEntry(mem, t[3], 0, e), t[level], idx, level);
      r.Some? && (level < 3 ==> !r.value.user)
    decreases 3 - level
  {
    if level < 3 {
      KernelLink(t[level + 1]);
      assert Entry(SetEntry(mem, t[3], 0, e), t[level], 0) == t[level + 1] + 3;
      KernelRights(mem, t, level + 1, idx, e);
    }
  }

  /** There the leaf alone does not decide: a page mapped for users is out of their reach. */
  lemma UserPageHidden<A>(mem: Memory, t: seq<nat>, virt: nat, phys: nat, a: A, alloc: A -> (A, Option<nat>))
    requires KernelOnly(mem, t) && PageOf(virt) == 0
    ensures var (mem', _, r) := MapPage(mem, t[0], virt, phys, USER, a, alloc);
      && r.Ok? && EffectiveRights(mem', t[0], Indices(virt), 0).Some?
      && !EffectiveRights(mem', t[0], Indices(virt), 0).value.user
  {
    var idx := Indices(virt);
    IndexBits(virt);
    IndicesFromPage(virt);
    FlagBits(0);
    LeafEntryBits(phys, USER);
    KernelWalk(mem, t, 0, idx, a, alloc);
    KernelRights(mem, t, 0, idx, LeafEntry(phys, USER));
  }

  const KERNEL_TABLES: Memory := map[
    0x1000 := ZERO[0 := 0x2003], 0x2000 := ZERO[0 := 0x3003], 0x3000 := ZERO[0 := 0x4003], 0x4000 := ZERO]

  /** The input: virtual page 0, mapped with the user flag in such tables. */
  lemma UserPageZeroHidden<A>(phys: nat, a: A, alloc: A -> (A, Option<nat>))
    ensures var (mem, _, r) := MapPage(KERNEL_TABLES, 0x1000, 0, phys, USER, a, alloc);
      && r == Ok(()) && EffectiveRights(mem, 0x1000, Indices(0), 0) != None
      && !EffectiveRights(mem, 0x1000, Indices(0), 0).value.user
  {
    UserPageHidden(KERNEL_TABLES, [0x1000, 0x2000, 0x3000, 0x4000], 0, phys, a, alloc);
  }

  // -------------------------------------------------------------- huge pages

  /** `c` is the mapping of part `j` of the huge page `e`, one level further down. */
  predicate PartOf(e: nat, level: nat, c: nat, j: nat)
    requires level < 3
  {
    IsPresent(c) && (level + 1 < 3 ==> IsHuge(c)) && AddrOf(c) == AddrOf(e) + j * Span(level + 1)
  }

  lemma Offset1G(virt: nat)
    ensures virt % 0x4000_0000 == virt / 0x20_0000 % 512 * 0x20_0000 + virt % 0x20_0000
  {
    assert virt / 0x4000_0000 == virt / 0x20_0000 / 512;
  }

  lemma Offset2M(virt: nat)
    ensures virt % 0x20_0000 == virt / 4096 % 512 * 4096 + virt % 4096
  {
    assert virt / 0x20_0000 == virt / 4096 / 512;
  }

  /** The offset in a large page is the offset of a part plus the offset in it. */
  lemma Offsets(level: nat, virt: nat)
    requires 1 <= level <= 2
    ensures virt % Span(level) == Indices(virt)[level + 1] * Span(level + 1) + virt % Span(level + 1)
  {
    Spans();
    IndexBits(virt);
    if level == 1 { Offset1G(virt); } else { Offset2M(virt); }
  }

  /** A huge page gives each address the same target as the part it falls into. */
  lemma PartTarget(level: nat, e: nat, c: nat, virt: nat)
    requires 1 <= level <= 2 && PartOf(e, level, c, Indices(virt)[level + 1])
    ensures Target(Mapping(level, e), virt) == Target(Mapping(level + 1, c), virt)
  {
    TargetSum(Mapping(level, e), virt);
    TargetSum(Mapping(level + 1, c), virt);
    Offsets(level, virt);
  }

  /** Entry `i` of table `t` replaced by a link to `frame` holding `parts`. */
  function Refined(mem: Memory, t: nat, i: nat, frame: nat, parts: Table): Memory {
    SetEntry(mem[frame := parts], t, i, TableEntry(frame))
  }

  ghost predicate IsSplit(e: nat, level: nat, parts: Table)
    requires level < 3
  {
    forall j: nat :: j < ENTRY_COUNT ==> PartOf(e, level, parts[j], j)
  }

  /** Two lookups that give every address the same target. */
  predicate SameTarget(a: Option<Mapping>, b: Option<Mapping>, virt: nat) {
    match (a, b)
    case (None, None) => true
    case (Some(x), Some(y)) => x.level <= 3 && y.level <= 3 && Target(x, virt) == Target(y, virt)
    case _ => false
  }

  lemma {:induction false} SplitStable(mem: Memory, root: nat, path: Paths, t: nat, i: nat, frame: nat, parts: Table,
                                       u: nat, virt: nat, level: nat)
    requires Tree(mem, root, path) && t in path && 1 <= |path[t]| <= 2 && i < ENTRY_COUNT
    requires frame !in path && GoodFrame(frame)
    requires IsPresent(Entry(mem, t, i)) && IsHuge(Entry(mem, t, i)) && IsSplit(Entry(mem, t, i), |path[t]|, parts)
    requires OnPath(path, u, Indices(virt), level)
    ensures SameTarget(Lookup(mem, u, Indices(virt), level),
                       Lookup(Refined(mem, t, i, frame, parts), u, Indices(virt), level), virt)
    decreases 3 - level
  {
    var m, idx := Refined(mem, t, i, frame, parts), Indices(virt);
    assert NodeOk(mem, path, t) && NodeOk(mem, path, u);
    if u == t && idx[level] == i {
      TableEntryLinks(frame);
      var c := parts[idx[level + 1]];
      assert PartOf(Entry(mem, t, i), level, c, idx[level + 1]);
      assert Entry(m, frame, idx[level + 1]) == c;
      PartTarget(level, Entry(mem, t, i), c, virt);
    } else {
      assert Entry(m, u, idx[level]) == Entry(mem, u, idx[level]);
      if level < 3 && Links(Entry(mem, u, idx[level])) {
        StepDown(mem, root, path, u, idx, level);
        SplitStable(mem, root, path, t, i, frame, parts, AddrOf(Entry(mem, u, idx[level])), virt, level + 1);
      } else {
        StopLevel(mem, u, idx, level);
      }
    }
  }

  lemma StopLevel(mem: Memory, u: nat, idx: seq<nat>, level: nat)
    requires |idx| == 4 && level <= 3 && (level == 3 || !Links(Entry(mem, u, idx[level])))
    ensures Lookup(mem, u, idx, level).Some? ==> Lookup(mem, u, idx, level).value.level <= 3
  {
  }

  /** A 2 MiB page translates every address as the table of its 512 pages does, and
      a 1 GiB page as the table of its 512 parts of 2 MiB. */
  lemma HugeRefinesSmall(mem: Memory, root: nat, path: Paths, t: nat, i: nat, frame: nat, parts: Table, virt: nat)
    requires Tree(mem, root, path) && t in path && 1 <= |path[t]| <= 2 && i < ENTRY_COUNT
    requires frame !in path && GoodFrame(frame)
    requires IsPresent(Entry(mem, t, i)) && IsHuge(Entry(mem, t, i)) && IsSplit(Entry(mem, t, i), |path[t]|, parts)
    ensures Translate(Refined(mem, t, i, frame, parts), root, virt) == Translate(mem, root, virt)
  {
    IndicesOk(virt);
    assert Indices(virt)[..0] == [];
    SplitStable(mem, root, path, t, i, frame, parts, root, virt, 0);
  }
}
