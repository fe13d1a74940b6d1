/** The tree invariant, and that mapping and unmapping act as on a plain map. */
module PagingTree {
  import opened Paging
  import opened Wrappers

  // --------------------------------------------------------------- invariant

  /** An entry that leads to another table. */
  predicate Links(e: nat) {
    IsPresent(e) && !IsHuge(e)
  }

  /** Where a table hangs: its index path from the root. */
  type Paths = map<nat, seq<nat>>

  ghost predicate NodeOk(mem: Memory, path: Paths, t: nat) {
    t in path ==> t in mem && |path[t]| <= 3 && GoodFrame(t)
  }

  ghost predicate LinkOk(mem: Memory, path: Paths, t: nat, i: nat) {
    t in path && |path[t]| < 3 && i < ENTRY_COUNT && Links(Entry(mem, t, i)) ==>
      var c := AddrOf(Entry(mem, t, i));
      c in path && path[c] == path[t] + [i]
  }

  /** Every table is reached by exactly one path. */
  ghost predicate Tree(mem: Memory, root: nat, path: Paths) {
    && root in path && path[root] == []
    && (forall t: nat :: NodeOk(mem, path, t))
    && (forall t: nat, i: nat :: LinkOk(mem, path, t, i))
  }

  ghost predicate PermitsAt(mem: Memory, path: Paths, t: nat, i: nat) {
    t in path && |path[t]| < 3 && i < ENTRY_COUNT && Links(Entry(mem, t, i)) ==>
      var e := Entry(mem, t, i);
      Writable(e) && UserBit(e) && !NoExecute(e)
  }

  /** No link between tables restricts what is reached through it. */
  ghost predicate Permissive(mem: Memory, path: Paths) {
    forall t: nat, i: nat :: PermitsAt(mem, path, t, i)
  }

  predicate IsIndex(idx: seq<nat>) {
    |idx| == 4 && idx[0] < ENTRY_COUNT && idx[1] < ENTRY_COUNT && idx[2] < ENTRY_COUNT && idx[3] < ENTRY_COUNT
  }

  lemma IndicesOk(virt: nat)
    ensures IsIndex(Indices(virt))
  {
    IndexBits(virt);
  }

  /** Table `t` is the one the walk for `idx` is in at level `level`. */
  ghost predicate OnPath(path: Paths, t: nat, idx: seq<nat>, level: nat) {
    IsIndex(idx) && level <= 3 && t in path && path[t] == idx[..level]
  }

  lemma StepDown(mem: Memory, root: nat, path: Paths, t: nat, idx: seq<nat>, level: nat)
    requires Tree(mem, root, path) && OnPath(path, t, idx, level) && level < 3
    requires Links(Entry(mem, t, idx[level]))
    ensures OnPath(path, AddrOf(Entry(mem, t, idx[level])), idx, level + 1)
  {
    assert LinkOk(mem, path, t, idx[level]);
    assert idx[..level] + [idx[level]] == idx[..level + 1];
  }

  // ------------------------------------------------------ changing one entry

  /** `mem'` has the tables of `path`, changed at most in entry `i` of table `u`. */
  ghost predicate SameAt(mem: Memory, mem': Memory, path: Paths, u: nat, i: nat, t: nat, j: nat) {
    t in path && (t, j) != (u, i) ==> Entry(mem', t, j) == Entry(mem, t, j)
  }

  ghost predicate SameBut(mem: Memory, mem': Memory, path: Paths, u: nat, i: nat) {
    forall t: nat, j: nat :: SameAt(mem, mem', path, u, i, t, j)
  }

  /** A walk that does not use the changed entry sees no change. */
  lemma {:induction false} LookupStable(mem: Memory, mem': Memory, root: nat, path: Paths, u: nat, i: nat,
                                        t: nat, idx: seq<nat>, level: nat)
    requires Tree(mem, root, path) && OnPath(path, t, idx, level)
    requires u in path && |path[u]| <= 3 && SameBut(mem, mem', path, u, i)
    requires idx[..|path[u]| + 1] != path[u] + [i]
    ensures Lookup(mem', t, idx, level) == Lookup(mem, t, idx, level)
    decreases 3 - level
  {
    assert SameAt(mem, mem', path, u, i, t, idx[level]);
    assert idx[..level] + [idx[level]] == idx[..level + 1];
    if level < 3 && Links(Entry(mem, t, idx[level])) {
      StepDown(mem, root, path, t, idx, level);
      LookupStable(mem, mem', root, path, u, i, AddrOf(Entry(mem, t, idx[level])), idx, level + 1);
    }
  }

  /** An index path whose walk passes through entry `i` of table `u`. */
  ghost predicate Uses(path: Paths, u: nat, i: nat, idx: seq<nat>)
    requires u in path
  {
    IsIndex(idx) && |path[u]| <= 3 && idx[..|path[u]|] == path[u] && idx[|path[u]|] == i
  }

  lemma UsesPrefix(path: Paths, u: nat, i: nat, idx: seq<nat>)
    requires u in path && |path[u]| <= 3 && IsIndex(idx)
    ensures Uses(path, u, i, idx) <==> idx[..|path[u]| + 1] == path[u] + [i]
  {
    assert idx[..|path[u]| + 1] == idx[..|path[u]|] + [idx[|path[u]|]];
  }

  // ------------------------------------------------- linking a fresh table

  /** `frame`, zeroed and linked at entry `i` of table `t`. */
  function Linked(mem: Memory, t: nat, i: nat, frame: nat): Memory {
    SetEntry(mem[frame := ZERO], t, i, TableEntry(frame))
  }

  lemma LinkedEntries(mem: Memory, t: nat, i: nat, frame: nat)
    requires t in mem && t != frame && i < ENTRY_COUNT
    ensures var m := Linked(mem, t, i, frame);
      && Entry(m, t, i) == TableEntry(frame) && (forall j: nat :: Entry(m, frame, j) == 0)
      && forall u: nat, j: nat :: u != frame && (u, j) != (t, i) ==> Entry(m, u, j) == Entry(mem, u, j)
  {
  }

  lemma LinkTree(mem: Memory, root: nat, path: Paths, t: nat, i: nat, frame: nat)
    requires Tree(mem, root, path) && t in path && |path[t]| < 3 && i < ENTRY_COUNT
    requires frame !in path && GoodFrame(frame) && !IsPresent(Entry(mem, t, i))
    ensures Tree(Linked(mem, t, i, frame), root, path[frame := path[t] + [i]])
  {
    var m, p := Linked(mem, t, i, frame), path[frame := path[t] + [i]];
    assert NodeOk(mem, path, t);
    LinkedEntries(mem, t, i, frame);
    TableEntryLinks(frame);
    FlagBits(0);
    forall u: nat ensures NodeOk(m, p, u) {
      assert NodeOk(mem, path, u);
    }
    forall u: nat, j: nat ensures LinkOk(m, p, u, j) {
      assert LinkOk(mem, path, u, j);
    }
  }

  /** A table linked by the kernel does not restrict. */
  lemma LinkPermits(mem: Memory, root: nat, path: Paths, t: nat, i: nat, frame: nat)
    requires Tree(mem, root, path) && t in path && |path[t]| < 3 && i < ENTRY_COUNT
    requires frame !in path && GoodFrame(frame) && Permissive(mem, path)
    ensures Permissive(Linked(mem, t, i, frame), path[frame := path[t] + [i]])
  {
    var m, p := Linked(mem, t, i, frame), path[frame := path[t] + [i]];
    assert NodeOk(mem, path, t);
    LinkedEntries(mem, t, i, frame);
    TableEntryLinks(frame);
    FlagBits(0);
    forall u: nat, j: nat ensures PermitsAt(m, p, u, j) {
      assert PermitsAt(mem, path, u, j);
    }
  }

  /** Linking a zeroed table changes no walk. */
  lemma {:induction false} LinkStable(mem: Memory, root: nat, path: Paths, t: nat, i: nat, frame: nat,
                                      u: nat, idx: seq<nat>, level: nat)
    requires Tree(mem, root, path) && t in path && |path[t]| < 3 && i < ENTRY_COUNT
    requires frame !in path && GoodFrame(frame) && !IsPresent(Entry(mem, t, i))
    requires OnPath(path, u, idx, level)
    ensures Lookup(Linked(mem, t, i, frame), u, idx, level) == Lookup(mem, u, idx, level)
    decreases 3 - level
  {
    var m := Linked(mem, t, i, frame);
    assert NodeOk(mem, path, t);
    LinkedEntries(mem, t, i, frame);
    if u == t && idx[level] == i {
      TableEntryLinks(frame);
      FlagBits(0);
      assert Lookup(m, frame, idx, level + 1) == None;
    } else if level < 3 && Links(Entry(mem, u, idx[level])) {
      StepDown(mem, root, path, u, idx, level);
      LinkStable(mem, root, path, t, i, frame, AddrOf(Entry(mem, u, idx[level])), idx, level + 1);
    }
  }

  // ------------------------------------------------------------- allocators

  /** One call hands out an aligned frame not in use, or fails. */
  ghost predicate SupplyOk<A>(alloc: A -> (A, Option<nat>), inv: (A, set<nat>) -> bool, a: A, used: set<nat>) {
    inv(a, used) ==>
      if alloc(a).1.None? then inv(alloc(a).0, used)
      else GoodFrame(alloc(a).1.value) && alloc(a).1.value !in used && inv(alloc(a).0, used + {alloc(a).1.value})
  }

  /** `alloc` supplies fresh frames as long as `inv` says which are in use. */
  ghost predicate Supplies<A(!new)>(alloc: A -> (A, Option<nat>), inv: (A, set<nat>) -> bool) {
    forall a: A, used: set<nat> :: SupplyOk(alloc, inv, a, used)
  }

  /** The number of tables missing on the walk for `idx`. */
  function Missing(mem: Memory, t: nat, idx: seq<nat>, level: nat): nat
    requires |idx| == 4 && level <= 3
    decreases 3 - level
  {
    if level == 3 then 0 else
    var e := Entry(mem, t, idx[level]);
    if !IsPresent(e) then 3 - level else if IsHuge(e) then 0 else Missing(mem, AddrOf(e), idx, level + 1)
  }

  /** `n` successive calls of the allocator all succeed. */
  predicate AllocMany<A>(a: A, alloc: A -> (A, Option<nat>), n: nat)
    decreases n
  {
    n == 0 || (alloc(a).1.Some? && AllocMany(alloc(a).0, alloc, n - 1))
  }

  /** The allocator after `n` calls, or after the first that failed. */
  function Drawn<A>(a: A, alloc: A -> (A, Option<nat>), n: nat): A
    decreases n
  {
    if n == 0 then a
    else if alloc(a).1.None? then alloc(a).0
    else Drawn(alloc(a).0, alloc, n - 1)
  }

  /** No address translates differently. */
  ghost predicate SameMap(mem: Memory, mem': Memory, root: nat) {
    forall idx: seq<nat> :: IsIndex(idx) ==> Lookup(mem', root, idx, 0) == Lookup(mem, root, idx, 0)
  }

  ghost predicate KeepsAt(mem: Memory, mem': Memory, path: Paths, t: nat, i: nat) {
    t in path && IsPresent(Entry(mem, t, i)) ==> Entry(mem', t, i) == Entry(mem, t, i)
  }

  /** No present entry of an existing table is overwritten. */
  ghost predicate Keeps(mem: Memory, mem': Memory, path: Paths) {
    forall t: nat, i: nat :: KeepsAt(mem, mem', path, t, i)
  }

  // --------------------------------------------------------------- descending

  /** Creating the missing tables on the way changes no translation, keeps the
      tree, and ends in the leaf table of `idx` or in the right error. */
  lemma {:induction false} DescendTree<A(!new)>(
      mem: Memory, root: nat, path: Paths, t: nat, idx: seq<nat>, level: nat,
      a: A, alloc: A -> (A, Option<nat>), inv: (A, set<nat>) -> bool) returns (path': Paths)
    requires Tree(mem, root, path) && OnPath(path, t, idx, level)
    requires Supplies(alloc, inv) && inv(a, path.Keys)
    ensures var (mem', a', r) := Descend(mem, t, idx, level, a, alloc);
      && Tree(mem', root, path') && SameMap(mem, mem', root) && inv(a', path'.Keys)
      && (forall u :: u in path ==> u in path' && path'[u] == path[u])
      && Keeps(mem, mem', path)
      && (r.Ok? ==> OnPath(path', r.value, idx, 3) && Lookup(mem', r.value, idx, 3) == Lookup(mem, t, idx, level))
      && (r.Ok? ==> LeafTable(mem', t, idx, level) == Some(r.value))
      && (r == Err(HugePagePresent) <==> Lookup(mem, t, idx, level).Some? && Lookup(mem, t, idx, level).value.level < 3)
      && (r == Err(OutOfFrames) ==> Lookup(mem, t, idx, level).None?)
      && r != Err(AlreadyMapped)
      && (Permissive(mem, path) ==> Permissive(mem', path'))
    decreases 3 - level
  {
    path' := path;
    if level < 3 {
      var e := Entry(mem, t, idx[level]);
      if !IsPresent(e) {
        var (a1, f) := alloc(a);
        assert SupplyOk(alloc, inv, a, path.Keys);
        if f.Some? {
          path' := DescendFresh(mem, root, path, t, idx, level, a1, f.value, alloc, inv);
        }
      } else if !IsHuge(e) {
        StepDown(mem, root, path, t, idx, level);
        path' := DescendTree(mem, root, path, AddrOf(e), idx, level + 1, a, alloc, inv);
        assert KeepsAt(mem, Descend(mem, t, idx, level, a, alloc).0, path, t, idx[level]);
      }
    }
  }

  lemma {:induction false} DescendFresh<A(!new)>(
      mem: Memory, root: nat, path: Paths, t: nat, idx: seq<nat>, level: nat,
      a: A, frame: nat, alloc: A -> (A, Option<nat>), inv: (A, set<nat>) -> bool) returns (path': Paths)
    requires Tree(mem, root, path) && OnPath(path, t, idx, level) && level < 3
    requires Supplies(alloc, inv) && inv(a, path.Keys + {frame})
    requires !IsPresent(Entry(mem, t, idx[level])) && frame !in path && GoodFrame(frame)
    ensures var (mem', a', r) := Descend(Linked(mem, t, idx[level], frame), frame, idx, level + 1, a, alloc);
      && Tree(mem', root, path') && SameMap(mem, mem', root) && inv(a', path'.Keys)
      && (forall u :: u in path ==> u in path' && path'[u] == path[u])
      && Keeps(mem, mem', path)
      && (r.Ok? ==> OnPath(path', r.value, idx, 3) && Lookup(mem', r.value, idx, 3) == None)
      && (r.Ok? ==> LeafTable(mem', t, idx, level) == Some(r.value))
      && (r.Err? ==> r == Err(OutOfFrames))
      && (Permissive(mem, path) ==> Permissive(mem', path'))
    decreases 3 - level, 0
  {
    var i := idx[level];
    var m, p := Linked(mem, t, i, frame), path[frame := path[t] + [i]];
    LinkTree(mem, root, path, t, i, frame);
    if Permissive(mem, path) { LinkPermits(mem, root, path, t, i, frame); }
    assert path[t] + [i] == idx[..level + 1];
    assert p.Keys == path.Keys + {frame};
    forall idx': seq<nat> | IsIndex(idx') ensures Lookup(m, root, idx', 0) == Lookup(mem, root, idx', 0) {
      assert idx'[..0] == [];
      LinkStable(mem, root, path, t, i, frame, root, idx', 0);
    }
    assert NodeOk(mem, path, t);
    LinkedEntries(mem, t, i, frame);
    FlagBits(0);
    assert Lookup(m, frame, idx, level + 1) == None;
    path' := DescendTree(m, root, p, frame, idx, level + 1, a, alloc, inv);
    var mem' := Descend(m, frame, idx, level + 1, a, alloc).0;
    forall u: nat, j: nat ensures KeepsAt(mem, mem', path, u, j) { assert KeepsAt(m, mem', p, u, j); }
    TableEntryLinks(frame);
    assert KeepsAt(m, mem', p, t, i);
  }

  /** Descending asks the allocator for exactly the missing tables, and runs out of
      frames exactly when it does not supply that many. */
  lemma {:induction false} DescendDraws<A(!new)>(
      mem: Memory, root: nat, path: Paths, t: nat, idx: seq<nat>, level: nat,
      a: A, alloc: A -> (A, Option<nat>), inv: (A, set<nat>) -> bool)
    requires Tree(mem, root, path) && OnPath(path, t, idx, level)
    requires Supplies(alloc, inv) && inv(a, path.Keys)
    ensures var (_, a', r) := Descend(mem, t, idx, level, a, alloc);
      var n := Missing(mem, t, idx, level);
      && a' == Drawn(a, alloc, n) && (r == Err(OutOfFrames) <==> !AllocMany(a, alloc, n))
    decreases 3 - level
  {
    if level < 3 {
      var e := Entry(mem, t, idx[level]);
      if !IsPresent(e) {
        assert SupplyOk(alloc, inv, a, path.Keys);
        if alloc(a).1.Some? {
          DrawsFresh(mem, root, path, t, idx, level, alloc(a).0, alloc(a).1.value, alloc, inv);
        }
      } else if !IsHuge(e) {
        StepDown(mem, root, path, t, idx, level);
        DescendDraws(mem, root, path, AddrOf(e), idx, level + 1, a, alloc, inv);
      }
    }
  }

  lemma {:induction false} DrawsFresh<A(!new)>(
      mem: Memory, root: nat, path: Paths, t: nat, idx: seq<nat>, level: nat,
      a: A, frame: nat, alloc: A -> (A, Option<nat>), inv: (A, set<nat>) -> bool)
    requires Tree(mem, root, path) && OnPath(path, t, idx, level) && level < 3
    requires Supplies(alloc, inv) && inv(a, path.Keys + {frame})
    requires !IsPresent(Entry(mem, t, idx[level])) && frame !in path && GoodFrame(frame)
    ensures var (_, a', r) := Descend(Linked(mem, t, idx[level], frame), frame, idx, level + 1, a, alloc);
      && a' == Drawn(a, alloc, 2 - level) && (r == Err(OutOfFrames) <==> !AllocMany(a, alloc, 2 - level))
    decreases 3 - level, 0
  {
    var i := idx[level];
    var m, p := Linked(mem, t, i, frame), path[frame := path[t] + [i]];
    LinkTree(mem, root, path, t, i, frame);
    assert path[t] + [i] == idx[..level + 1];
    assert p.Keys == path.Keys + {frame};
    assert NodeOk(mem, path, t);
    LinkedEntries(mem, t, i, frame);
    FlagBits(0);
    assert Missing(m, frame, idx, level + 1) == 2 - level;
    DescendDraws(m, root, p, frame, idx, level + 1, a, alloc, inv);
  }
}
