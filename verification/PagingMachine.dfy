/** The page-table routines as the kernel runs them: loops that write tables in
    place and draw frames from the buddy allocator object. */
module PagingMachine {
  import opened Wrappers
  import opened Bits
  import opened Paging
  import opened PagingFrames
  import A = BuddyAllocator

  class PageMapper {
    /** The tables by physical address, read and written through the direct map. */
    var mem: Memory
    const buddy: A.BuddyAllocator
    /** The blocks handed out so far. */
    ghost var live: set<BuddyRuns.Block>

    constructor (buddy: A.BuddyAllocator)
      ensures this.buddy == buddy && mem == map[] && live == {}
    {
      this.buddy := buddy;
      mem, live := map[], {};
    }

    ghost function Frames(): BuddyRuns.System
      reads this, buddy
    {
      BuddyRuns.System(buddy.freeLists, buddy.freePages, live)
    }

    /** One zeroed frame. */
    method AllocZeroedFrame() returns (r: Option<nat>)
      modifies this, buddy
      ensures (Frames(), r) == AllocZeroed(old(Frames()))
      ensures mem == if r.Some? then old(mem)[r.value := ZERO] else old(mem)
    {
      var p := buddy.Alloc(0);
      if p.Some? {
        live := live + {BuddyRuns.Block(p.value, 0)};
      }
      assert Pow2(0) == 1;
      if p.None? || p.value * 4096 == 0 {
        return None;
      }
      mem := mem[p.value * 4096 := ZERO];
      r := Some(p.value * 4096);
    }

    /** Maps one 4 KiB page, creating the missing tables. */
    method MapPageIn(root: nat, virt: nat, phys: nat, flags: nat) returns (r: Result<()>)
      modifies this, buddy
      ensures (mem, Frames(), r) == MapPage(old(mem), root, virt, phys, flags, old(Frames()), AllocZeroed)
    {
      var idx, pteFlags := Indices(virt), PteFlagsFrom(flags);
      var tablePhys := root;
      for level := 0 to 3
        invariant Descend(mem, tablePhys, idx, level, Frames(), AllocZeroed) ==
                  Descend(old(mem), root, idx, 0, old(Frames()), AllocZeroed)
      {
        var entry := Entry(mem, tablePhys, idx[level]);
        if And(entry, PTE_PRESENT) == 0 {
          var frame := AllocZeroedFrame();
          if frame.None? {
            return Err(OutOfFrames);
          }
          mem := SetEntry(mem, tablePhys, idx[level], Or(Or(Or(frame.value, PTE_PRESENT), PTE_WRITABLE), PTE_USER));
          tablePhys := frame.value;
        } else if And(entry, PTE_HUGE) != 0 {
          return Err(HugePagePresent);
        } else {
          tablePhys := And(entry, PTE_ADDR_MASK);
        }
      }
      var leaf := Entry(mem, tablePhys, idx[3]);
      if And(leaf, PTE_PRESENT) != 0 {
        return Err(AlreadyMapped);
      }
      mem := SetEntry(mem, tablePhys, idx[3], Or(And(phys, PTE_ADDR_MASK), pteFlags));
      r := Ok(());
    }

    /** Walks the tables; huge pages end the walk early. */
    method TranslateIn(root: nat, virt: nat) returns (r: Option<nat>)
      ensures r == Translate(mem, root, virt)
    {
      var idx := Indices(virt);
      var tablePhys := root;
      for level := 0 to 3
        invariant Lookup(mem, tablePhys, idx, level) == Lookup(mem, root, idx, 0)
      {
        var entry := Entry(mem, tablePhys, idx[level]);
        if And(entry, PTE_PRESENT) == 0 {
          return None;
        }
        if And(entry, PTE_HUGE) != 0 {
          var shift := 39 - 9 * level;
          var size := Pow2(shift);
          var base := And(entry, PTE_ADDR_MASK);
          return Some(base + And(virt, size - 1));
        }
        tablePhys := And(entry, PTE_ADDR_MASK);
      }
      var leaf := Entry(mem, tablePhys, idx[3]);
      if And(leaf, PTE_PRESENT) == 0 {
        return None;
      }
      r := Some(Or(And(leaf, PTE_ADDR_MASK), PageOffset(virt)));
    }

    /** Removes a 4 KiB mapping and returns its frame. */
    method UnmapPageIn(root: nat, virt: nat) returns (r: Option<nat>)
      modifies this`mem
      ensures (mem, r) == UnmapPage(old(mem), root, virt)
    {
      var idx := Indices(virt);
      var tablePhys := root;
      for level := 0 to 3
        invariant mem == old(mem) && LeafTable(mem, tablePhys, idx, level) == LeafTable(mem, root, idx, 0)
      {
        var entry := Entry(mem, tablePhys, idx[level]);
        if And(entry, PTE_PRESENT) == 0 || And(entry, PTE_HUGE) != 0 {
          return None;
        }
        tablePhys := And(entry, PTE_ADDR_MASK);
      }
      var leaf := Entry(mem, tablePhys, idx[3]);
      if And(leaf, PTE_PRESENT) == 0 {
        return None;
      }
      var frame := And(leaf, PTE_ADDR_MASK);
      mem := SetEntry(mem, tablePhys, idx[3], 0);
      r := Some(frame);
    }
  }
}
