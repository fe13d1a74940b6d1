/** Page tables refine a partial map from pages to leaf entries, over whole runs. */
module PagingMap {
  import opened Wrappers
  import opened Paging
  import opened PagingTree

  // ------------------------------------------------- one mapping operation

  /** The walk for `idx` now ends in `e`; every other page translates as before. */
  ghost predicate ChangedOnly(mem: Memory, mem': Memory, root: nat, idx: seq<nat>, e: Option<Mapping>) {
    forall idx': seq<nat> :: IsIndex(idx') ==>
      Lookup(mem', root, idx', 0) == if idx' == idx then e else Lookup(mem, root, idx', 0)
  }

  lemma SetKeepsTree(mem: Memory, root: nat, path: Paths, pt: nat, i: nat, e: nat)
    requires Tree(mem, root, path) && pt in path && |path[pt]| == 3 && i < ENTRY_COUNT
    ensures Tree(SetEntry(mem, pt, i, e), root, path)
    ensures SameBut(mem, SetEntry(mem, pt, i, e), path, pt, i)
    ensures Entry(SetEntry(mem, pt, i, e), pt, i) == e
  {
    var m := SetEntry(mem, pt, i, e);
    assert NodeOk(mem, path, pt);
    forall t: nat ensures NodeOk(m, path, t) { assert NodeOk(mem, path, t); }
    forall t: nat, j: nat ensures LinkOk(m, path, t, j) { assert LinkOk(mem, path, t, j); }
  }

  lemma SetKeepsPermits(mem: Memory, path: Paths, pt: nat, i: nat, e: nat)
    requires pt in path && |path[pt]| == 3 && Permissive(mem, path)
    ensures Permissive(SetEntry(mem, pt, i, e), path)
  {
    forall t: nat, j: nat ensures PermitsAt(SetEntry(mem, pt, i, e), path, t, j) { assert PermitsAt(mem, path, t, j); }
  }

  /** Writing leaf entry `i` of the leaf table of `idx` changes only that page. */
  lemma SetLeaf(mem: Memory, root: nat, path: Paths, pt: nat, idx: seq<nat>, e: nat, idx': seq<nat>)
    requires Tree(mem, root, path) && OnPath(path, pt, idx, 3) && IsIndex(idx')
    requires LeafTable(mem, root, idx, 0) == Some(pt)
    ensures Lookup(SetEntry(mem, pt, idx[3], e), root, idx', 0) ==
      if idx' == idx then (if IsPresent(e) then Some(Mapping(3, e)) else None) else Lookup(mem, root, idx', 0)
  {
    var m := SetEntry(mem, pt, idx[3], e);
    SetKeepsTree(mem, root, path, pt, idx[3], e);
    if idx' == idx {
      ToLeaf(mem, m, root, path, pt, root, idx, 0);
    } else {
      assert idx'[..0] == [];
      UsesPrefix(path, pt, idx[3], idx');
      assert idx == idx[..3] + [idx[3]] && idx' == idx'[..3] + [idx'[3]];
      assert idx'[..4] == idx';
      LookupStable(mem, m, root, path, pt, idx[3], root, idx', 0);
    }
  }

  /** The walk for `idx` reaches its leaf table also after the leaf is written. */
  lemma {:induction false} ToLeaf(mem: Memory, m: Memory, root: nat, path: Paths, pt: nat, t: nat, idx: seq<nat>,
    level: nat)
    requires Tree(mem, root, path) && OnPath(path, t, idx, level) && OnPath(path, pt, idx, 3)
    requires SameBut(mem, m, path, pt, idx[3]) && LeafTable(mem, t, idx, level) == Some(pt)
    ensures Lookup(m, t, idx, level) == Lookup(m, pt, idx, 3)
    decreases 3 - level
  {
    if level < 3 {
      assert SameAt(mem, m, path, pt, idx[3], t, idx[level]);
      StepDown(mem, root, path, t, idx, level);
      ToLeaf(mem, m, root, path, pt, AddrOf(Entry(mem, t, idx[level])), idx, level + 1);
    }
  }

  lemma {:induction false} LeafTableLookup(mem: Memory, root: nat, path: Paths, t: nat, idx: seq<nat>, level: nat)
    requires Tree(mem, root, path) && OnPath(path, t, idx, level)
    ensures var pt := LeafTable(mem, t, idx, level);
      if pt.Some? then OnPath(path, pt.value, idx, 3) && Lookup(mem, t, idx, level) == Lookup(mem, pt.value, idx, 3)
      else Lookup(mem, t, idx, level).None? || Lookup(mem, t, idx, level).value.level < 3
    decreases 3 - level
  {
    if level < 3 && Links(Entry(mem, t, idx[level])) {
      StepDown(mem, root, path, t, idx, level);
      LeafTableLookup(mem, root, path, AddrOf(Entry(mem, t, idx[level])), idx, level + 1);
    }
  }

  /** The effect of `map_page_in` on the translation.  A success adds exactly the
      given page; every failure changes no translation; the page was already mapped
      exactly for `AlreadyMapped`, blocked by a huge page exactly for
      `HugePagePresent`, and unmapped otherwise. */
  lemma MapRefines<A(!new)>(
      mem: Memory, root: nat, path: Paths, virt: nat, phys: nat, flags: nat,
      a: A, alloc: A -> (A, Option<nat>), inv: (A, set<nat>) -> bool) returns (path': Paths)
    requires Tree(mem, root, path) && Supplies(alloc, inv) && inv(a, path.Keys)
    ensures var (mem', a', r) := MapPage(mem, root, virt, phys, flags, a, alloc);
      var idx, before := Indices(virt), Lookup(mem, root, Indices(virt), 0);
      && Tree(mem', root, path') && inv(a', path'.Keys)
      && (Permissive(mem, path) ==> Permissive(mem', path'))
      && (r.Err? ==> SameMap(mem, mem', root))
      && (r == Err(AlreadyMapped) <==> before.Some? && before.value.level == 3)
      && (r == Err(HugePagePresent) <==> before.Some? && before.value.level < 3)
      && (r.Ok? ==> ChangedOnly(mem, mem', root, idx, Some(Mapping(3, LeafEntry(phys, flags)))))
  {
    var idx := Indices(virt);
    IndicesOk(virt);
    assert idx[..0] == [];
    path' := DescendTree(mem, root, path, root, idx, 0, a, alloc, inv);
    var (mem1, a1, r1) := Descend(mem, root, idx, 0, a, alloc);
    if r1.Ok? && !IsPresent(Entry(mem1, r1.value, idx[3])) {
      LeafEntryBits(phys, flags);
      SetKeepsTree(mem1, root, path', r1.value, idx[3], LeafEntry(phys, flags));
      if Permissive(mem, path) { SetKeepsPermits(mem1, path', r1.value, idx[3], LeafEntry(phys, flags)); }
      forall idx': seq<nat> | IsIndex(idx')
        ensures Lookup(SetEntry(mem1, r1.value, idx[3], LeafEntry(phys, flags)), root, idx', 0) ==
                if idx' == idx then Some(Mapping(3, LeafEntry(phys, flags))) else Lookup(mem, root, idx', 0)
      {
        SetLeaf(mem1, root, path', r1.value, idx, LeafEntry(phys, flags), idx');
      }
    }
  }

  /** `map_page_in` asks for exactly the missing tables, and runs out of frames
      exactly when the allocator does not supply that many. */
  lemma MapDraws<A(!new)>(
      mem: Memory, root: nat, path: Paths, virt: nat, phys: nat, flags: nat,
      a: A, alloc: A -> (A, Option<nat>), inv: (A, set<nat>) -> bool)
    requires Tree(mem, root, path) && Supplies(alloc, inv) && inv(a, path.Keys)
    ensures var (_, a', r) := MapPage(mem, root, virt, phys, flags, a, alloc);
      var n := Missing(mem, root, Indices(virt), 0);
      && a' == Drawn(a, alloc, n) && (r == Err(OutOfFrames) <==> !AllocMany(a, alloc, n))
  {
    IndicesOk(virt);
    assert Indices(virt)[..0] == [];
    DescendDraws(mem, root, path, root, Indices(virt), 0, a, alloc, inv);
  }

  /** `unmap_page_in` returns the frame of a mapped 4 KiB page and removes exactly
      that page; otherwise it returns nothing and changes nothing. */
  lemma UnmapRefines(mem: Memory, root: nat, path: Paths, virt: nat)
    requires Tree(mem, root, path)
    ensures var (mem', r) := UnmapPage(mem, root, virt);
      var idx, before := Indices(virt), Lookup(mem, root, Indices(virt), 0);
      && Tree(mem', root, path)
      && (Permissive(mem, path) ==> Permissive(mem', path))
      && (r.Some? <==> before.Some? && before.value.level == 3)
      && (r.Some? ==> r.value == AddrOf(before.value.entry))
      && (r.None? ==> mem' == mem)
      && (r.Some? ==> ChangedOnly(mem, mem', root, idx, None))
  {
    var idx := Indices(virt);
    IndicesOk(virt);
    assert idx[..0] == [];
    LeafTableLookup(mem, root, path, root, idx, 0);
    var pt := LeafTable(mem, root, idx, 0);
    if pt.Some? && IsPresent(Entry(mem, pt.value, idx[3])) {
      FlagBits(0);
      SetKeepsTree(mem, root, path, pt.value, idx[3], 0);
      if Permissive(mem, path) { SetKeepsPermits(mem, path, pt.value, idx[3], 0); }
      forall idx': seq<nat> | IsIndex(idx')
        ensures Lookup(SetEntry(mem, pt.value, idx[3], 0), root, idx', 0) ==
                if idx' == idx then None else Lookup(mem, root, idx', 0)
      {
        SetLeaf(mem, root, path, pt.value, idx, 0, idx');
      }
    }
  }
}
