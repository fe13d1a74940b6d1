/** What the processor itself writes into page tables: the Accessed and Dirty bits
    (Intel SDM Vol. 3A, section 4.8). */
module PagingMarks {
  import opened Wrappers
  import opened Bits
  import opened Paging
  import opened PagingTree

  const ACCESSED: nat := 0x20
  const DIRTY: nat := 0x40

  /** The entries agree in every field that a walk or an access check reads. */
  predicate SameFields(e: nat, e': nat) {
    && IsPresent(e) == IsPresent(e') && IsHuge(e) == IsHuge(e') && AddrOf(e) == AddrOf(e')
    && Writable(e) == Writable(e') && UserBit(e) == UserBit(e') && NoExecute(e) == NoExecute(e')
  }

  function Mark(e: nat, dirty: bool): nat {
    Or(e, if dirty then DIRTY else ACCESSED)
  }

  /** The binary digits below a bit that is clear, and the part above it. */
  lemma ClearBit(e: nat, k: nat)
    requires Shr(e, k) % 2 == 0
    ensures Or(e, Pow2(k)) == e + Pow2(k)
    decreases k
  {
    if k > 0 {
      ShrNext(e, k);
      ClearBit(e / 2, k - 1);
      OrDigit(e, Pow2(k));
    } else {
      OrDigit(e, 1);
    }
  }

  lemma SetBit(e: nat, k: nat)
    requires Shr(e, k) % 2 == 1
    ensures Or(e, Pow2(k)) == e
    decreases k
  {
    if k > 0 {
      ShrNext(e, k);
      SetBit(e / 2, k - 1);
      OrDigit(e, Pow2(k));
    } else {
      OrDigit(e, 1);
    }
  }

  lemma ShrFive(e: nat)
    ensures Shr(e, 5) == e / 32 && Shr(e, 6) == e / 64 && Pow2(5) == 32 && Pow2(6) == 64
  {
    ShrSplit(e, 5);
    ShrSplit(e, 6);
  }

  /** The three lowest digits of a number split at a multiple of 8. */
  lemma LowThree(m: nat, h: nat, l: nat)
    requires m == 8 * h + l
    ensures m % 2 == l % 2 && m / 2 % 2 == l / 2 % 2 && m / 4 % 2 == l / 4 % 2
  {
    DigitBelow(m, h, l, 1, 4);
    DigitBelow(m, h, l, 2, 2);
    DigitBelow(m, h, l, 4, 1);
  }

  /** Adding a clear bit leaves what lies above it. */
  lemma AddClear(e: nat, b: nat)
    requires b > 0 && e / b % 2 == 0
    ensures (e + b) / (2 * b) == e / (2 * b)
  {
    var q, r := e / b, e % b;
    var h := q / 2;
    assert e == q * b + r;
    assert q * b == h * (2 * b) by { assert q == 2 * h; }
    DivUnique(e, 2 * b, h, r);
    DivUnique(e + b, 2 * b, h, r + b);
  }

  lemma HighDigits(e: nat, m: nat)
    requires m / 128 == e / 128
    ensures m / 4096 == e / 4096 && m / 0x8000_0000_0000_0000 == e / 0x8000_0000_0000_0000
  {
    assert m / 4096 == m / 128 / 32 && e / 4096 == e / 128 / 32;
    assert m / 0x8000_0000_0000_0000 == m / 4096 / 0x8_0000_0000_0000;
    assert e / 0x8000_0000_0000_0000 == e / 4096 / 0x8_0000_0000_0000;
  }

  lemma FieldsFromDigits(e: nat, m: nat)
    requires m % 2 == e % 2 && m / 2 % 2 == e / 2 % 2 && m / 4 % 2 == e / 4 % 2 && m / 128 == e / 128
    ensures SameFields(e, m)
  {
    HighDigits(e, m);
    FlagBits(e);
    FlagBits(m);
    AddrBits(e);
    AddrBits(m);
  }

  lemma AddMark(e: nat, dirty: bool)
    requires e / (if dirty then 64 else 32) % 2 == 0
    ensures SameFields(e, e + if dirty then 64 else 32)
  {
    var b := if dirty then 64 else 32;
    LowThree(e + b, b / 8, e);
    AddClear(e, b);
    if !dirty { HalfAgain(e); }
    FieldsFromDigits(e, e + b);
  }

  lemma HalfAgain(e: nat)
    requires (e + 32) / 64 == e / 64
    ensures (e + 32) / 128 == e / 128
  {
    assert (e + 32) / 128 == (e + 32) / 64 / 2 && e / 128 == e / 64 / 2;
  }

  /** Setting Accessed or Dirty changes no other field. */
  lemma MarkFields(e: nat, dirty: bool)
    ensures SameFields(e, Mark(e, dirty))
  {
    var k := if dirty then 6 else 5;
    ShrFive(e);
    if Shr(e, k) % 2 == 1 {
      SetBit(e, k);
    } else {
      ClearBit(e, k);
      AddMark(e, dirty);
    }
  }

  /** Walks that end alike: nowhere, or at the same level in entries with the same fields. */
  predicate SameMapping(a: Option<Mapping>, b: Option<Mapping>) {
    a.Some? == b.Some? && (a.Some? ==> a.value.level == b.value.level && SameFields(a.value.entry, b.value.entry))
  }

  lemma MarkKeepsTree(mem: Memory, root: nat, path: Paths, t: nat, i: nat, e: nat)
    requires Tree(mem, root, path) && SameFields(Entry(mem, t, i), e)
    ensures Tree(SetEntry(mem, t, i, e), root, path)
    ensures Permissive(mem, path) ==> Permissive(SetEntry(mem, t, i, e), path)
  {
    var m := SetEntry(mem, t, i, e);
    forall u: nat ensures NodeOk(m, path, u) { assert NodeOk(mem, path, u); }
    forall u: nat, j: nat ensures LinkOk(m, path, u, j) { assert LinkOk(mem, path, u, j); }
    if Permissive(mem, path) {
      forall u: nat, j: nat ensures PermitsAt(m, path, u, j) { assert PermitsAt(mem, path, u, j); }
    }
  }

  /** A mark anywhere changes no walk. */
  lemma {:induction false} MarkStable(mem: Memory, t: nat, i: nat, e: nat, u: nat, idx: seq<nat>, level: nat)
    requires |idx| == 4 && level <= 3 && SameFields(Entry(mem, t, i), e)
    ensures SameMapping(Lookup(mem, u, idx, level), Lookup(SetEntry(mem, t, i, e), u, idx, level))
    decreases 3 - level
  {
    var x := Entry(mem, u, idx[level]);
    assert SameFields(x, Entry(SetEntry(mem, t, i, e), u, idx[level]));
    if level < 3 && Links(x) { MarkStable(mem, t, i, e, AddrOf(x), idx, level + 1); }
  }
}
