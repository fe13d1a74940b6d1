/** The buddy allocator object: its loops compute the functions of module Buddy. */
module BuddyAllocator {
  import opened Bits
  import opened Buddy
  import opened Wrappers

  class BuddyAllocator {
    var freeLists: Lists
    var totalPages: nat
    var freePages: int

    constructor ()
      ensures forall o :: 0 <= o <= MAX_ORDER ==> freeLists[o] == []
      ensures totalPages == 0 && freePages == 0
    {
      freeLists := [[], [], [], [], [], [], [], [], [], []];
      totalPages, freePages := 0, 0;
    }

    /** The largest order that fits both the remaining size and the alignment. */
    static method LargestOrder(pfn: nat, remaining: nat) returns (order: nat)
      requires remaining > 0
      ensures order == PickOrder(pfn, remaining, MAX_ORDER) <= MAX_ORDER
    {
      order := MAX_ORDER;
      while order > 0
        invariant order <= MAX_ORDER
        invariant PickOrder(pfn, remaining, order) == PickOrder(pfn, remaining, MAX_ORDER)
      {
        var pagesInOrder := Pow2(order);
        if remaining >= pagesInOrder && And(pfn, Pow2(order) - 1) == 0 {
          break;
        }
        order := order - 1;
      }
    }

    method AddRegion(start: nat, pageCount: nat)
      modifies this
      ensures freeLists == AddBlocks(old(freeLists), start, pageCount)
      ensures totalPages == old(totalPages) + pageCount
      ensures freePages == old(freePages) + pageCount
    {
      var remaining, pfn := pageCount, start;
      totalPages := totalPages + pageCount;
      freePages := freePages + pageCount;
      while remaining > 0
        invariant AddBlocks(freeLists, pfn, remaining) == AddBlocks(old(freeLists), start, pageCount)
        invariant totalPages == old(totalPages) + pageCount
        invariant freePages == old(freePages) + pageCount
      {
        var order := LargestOrder(pfn, remaining);
        var pagesInOrder := Pow2(order);
        AddBlocksStep(freeLists, pfn, remaining, order);
        freeLists := freeLists[order := freeLists[order] + [pfn]];
        pfn := pfn + pagesInOrder;
        remaining := remaining - pagesInOrder;
      }
    }

    /** Hands out `1 << order` contiguous pages. */
    method Alloc(order: nat) returns (r: Option<nat>)
      modifies this
      ensures (freeLists, r) == Allocated(old(freeLists), order)
      ensures totalPages == old(totalPages)
      ensures r.None? ==> freePages == old(freePages)
      ensures r.Some? ==> freePages == old(freePages) - Pow2(order)
    {
      var o := order;
      while o <= MAX_ORDER && freeLists[o] == []
        invariant FirstOrder(freeLists, o) == FirstOrder(freeLists, order)
        invariant o >= order && totalPages == old(totalPages) && freeLists == old(freeLists)
          && freePages == old(freePages)
      {
        o := o + 1;
      }
      if o > MAX_ORDER {
        return None;
      }
      var block := freeLists[o][|freeLists[o]| - 1];
      freeLists := freeLists[o := freeLists[o][..|freeLists[o]| - 1]];
      freePages := freePages - Pow2(order);
      SplitDown(block, o, order);
      r := Some(block);
    }

    /** Splits a block taken off list `from` down to the order asked for. */
    method SplitDown(block: nat, from: nat, order: nat)
      requires order <= from <= MAX_ORDER
      modifies this`freeLists
      ensures freeLists == Split(old(freeLists), block, from, order)
    {
      var o := from;
      while o > order
        invariant order <= o <= MAX_ORDER
        invariant Split(freeLists, block, o, order) == Split(old(freeLists), block, from, order)
      {
        SplitStep(freeLists, block, o, order);
        o := o - 1;
        var buddy := block + Pow2(o);
        freeLists := freeLists[o := freeLists[o] + [buddy]];
      }
    }

    /** Gives back `1 << order` contiguous pages, coalescing buddies. */
    method Free(frame: nat, order: nat)
      requires order <= MAX_ORDER
      modifies this
      ensures freeLists == Freed(old(freeLists), frame, order)
      ensures totalPages == old(totalPages)
      ensures freePages == old(freePages) + Pow2(order)
    {
      var pfn, o := frame, order;
      freePages := freePages + Pow2(order);
      while o < MAX_ORDER
        invariant o <= MAX_ORDER
        invariant Freed(freeLists, pfn, o) == Freed(old(freeLists), frame, order)
        invariant totalPages == old(totalPages)
        invariant freePages == old(freePages) + Pow2(order)
      {
        var buddyPfn := Xor(pfn, Pow2(o));
        var found := Position(freeLists[o], buddyPfn, 0);
        if found.Some? {
          freeLists := freeLists[o := SwapRemove(freeLists[o], found.value)];
          pfn := Min(pfn, buddyPfn);
          o := o + 1;
        } else {
          break;
        }
      }
      freeLists := freeLists[o := freeLists[o] + [pfn]];
    }
  }
}
