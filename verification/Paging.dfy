/** x86_64 page tables: 4-level walks over tables in physical memory. */
module Paging {
  import opened Bits
  import opened Wrappers

  const ENTRY_COUNT: nat := 512
  const PTE_PRESENT: nat := 0x1
  const PTE_WRITABLE: nat := 0x2
  const PTE_USER: nat := 0x4
  const PTE_WRITE_THROUGH: nat := 0x8
  const PTE_CACHE_DISABLE: nat := 0x10
  const PTE_HUGE: nat := 0x80
  const PTE_GLOBAL: nat := 0x100
  const PTE_NO_EXECUTE: nat := 0x8000_0000_0000_0000
  const PTE_ADDR_MASK: nat := 0x000F_FFFF_FFFF_F000

  // PageFlags bits.
  const WRITE: nat := 0x2
  const EXEC: nat := 0x4
  const USER: nat := 0x8
  const WRITE_THROUGH: nat := 0x10
  const CACHE_DISABLE: nat := 0x20
  const GLOBAL: nat := 0x40

  datatype MapError = OutOfFrames | AlreadyMapped | HugePagePresent

  datatype Result<+T> = Ok(value: T) | Err(error: MapError)

  function Zeros(n: nat): (s: seq<nat>)
    ensures |s| == n && forall i :: 0 <= i < n ==> s[i] == 0
  {
    if n == 0 then [] else Zeros(n - 1) + [0]
  }

  type Table = t: seq<nat> | |t| == ENTRY_COUNT witness Zeros(ENTRY_COUNT)

  /** A zeroed table. */
  const ZERO: Table := Zeros(ENTRY_COUNT)

  /** The tables, by physical address. */
  type Memory = map<nat, Table>

  // -------------------------------------------------------------- bit fields

  predicate Contains(flags: nat, bit: nat) {
    And(flags, bit) == bit
  }

  function PteFlagsFrom(flags: nat): nat {
    var b0 := PTE_PRESENT;
    var b1 := if Contains(flags, WRITE) then Or(b0, PTE_WRITABLE) else b0;
    var b2 := if Contains(flags, USER) then Or(b1, PTE_USER) else b1;
    var b3 := if Contains(flags, WRITE_THROUGH) then Or(b2, PTE_WRITE_THROUGH) else b2;
    var b4 := if Contains(flags, CACHE_DISABLE) then Or(b3, PTE_CACHE_DISABLE) else b3;
    var b5 := if Contains(flags, GLOBAL) then Or(b4, PTE_GLOBAL) else b4;
    if !Contains(flags, EXEC) then Or(b5, PTE_NO_EXECUTE) else b5
  }

  predicate IsPresent(e: nat) {
    And(e, PTE_PRESENT) != 0
  }

  predicate IsHuge(e: nat) {
    And(e, PTE_HUGE) != 0
  }

  predicate Writable(e: nat) {
    And(e, PTE_WRITABLE) != 0
  }

  predicate UserBit(e: nat) {
    And(e, PTE_USER) != 0
  }

  predicate NoExecute(e: nat) {
    And(e, PTE_NO_EXECUTE) != 0
  }

  function AddrOf(e: nat): nat {
    And(e, PTE_ADDR_MASK)
  }

  /** The permissive entry that links a freshly allocated table. */
  function TableEntry(frame: nat): nat {
    Or(Or(Or(frame, PTE_PRESENT), PTE_WRITABLE), PTE_USER)
  }

  function LeafEntry(phys: nat, flags: nat): nat {
    Or(And(phys, PTE_ADDR_MASK), PteFlagsFrom(flags))
  }

  /** `[PML4, PDPT, PD, PT]` indices. */
  function Indices(virt: nat): (r: seq<nat>)
    ensures |r| == 4
  {
    [And(Shr(virt, 39), 0x1FF), And(Shr(virt, 30), 0x1FF), And(Shr(virt, 21), 0x1FF), And(Shr(virt, 12), 0x1FF)]
  }

  function PageOffset(virt: nat): nat {
    And(virt, 0xFFF)
  }

  // ------------------------------------------------- bit fields as arithmetic

  lemma BigPowers()
    ensures Pow2(36) == 0x10_0000_0000 && Pow2(39) == 0x80_0000_0000 && Pow2(40) == 0x100_0000_0000
    ensures Pow2(51) == 0x8_0000_0000_0000 && Pow2(52) == 0x10_0000_0000_0000
    ensures Pow2(63) == 0x8000_0000_0000_0000
  {
    assert Pow2(12) == 4096;
    Pow2Add(12, 12);
    Pow2Add(24, 12);
    Pow2Add(36, 12);
    Pow2Add(48, 12);
    assert Pow2(60) == 0x1000_0000_0000_0000;
    assert Pow2(39) == 2 * Pow2(38) && Pow2(38) == 2 * Pow2(37);
    assert Pow2(52) == 2 * Pow2(51) && Pow2(51) == 2 * Pow2(50) && Pow2(50) == 2 * Pow2(49);
    assert Pow2(63) == 2 * Pow2(62) && Pow2(62) == 2 * Pow2(61);
  }

  lemma BitAt(e: nat, k: nat)
    ensures And(e, Pow2(k)) == (Shr(e, k) % 2) * Pow2(k)
  {
    AndField(e, k, k + 1);
    assert Pow2(k + 1) - Pow2(k) == Pow2(k) && Pow2(1) == 2;
  }

  lemma FlagBits(e: nat)
    ensures IsPresent(e) <==> e % 2 == 1
    ensures IsHuge(e) <==> (e / 128) % 2 == 1
    ensures Writable(e) <==> (e / 2) % 2 == 1
    ensures UserBit(e) <==> (e / 4) % 2 == 1
    ensures NoExecute(e) <==> (e / 0x8000_0000_0000_0000) % 2 == 1
  {
    assert Pow2(0) == 1 && Pow2(1) == 2 && Pow2(2) == 4 && Pow2(7) == 128;
    BigPowers();
    BitAt(e, 0); ShrSplit(e, 0);
    BitAt(e, 1); ShrSplit(e, 1);
    BitAt(e, 2); ShrSplit(e, 2);
    BitAt(e, 7); ShrSplit(e, 7);
    BitAt(e, 63); ShrSplit(e, 63);
  }

  lemma AddrBits(e: nat)
    ensures AddrOf(e) == (e / 4096 % 0x100_0000_0000) * 4096
  {
    assert Pow2(12) == 4096;
    BigPowers();
    AndField(e, 12, 52);
    ShrSplit(e, 12);
  }

  lemma IndexBits(virt: nat)
    ensures Indices(virt) == [virt / 0x80_0000_0000 % 512, virt / 0x4000_0000 % 512, virt / 0x20_0000 % 512,
      virt / 4096 % 512]
    ensures PageOffset(virt) == virt % 4096
  {
    assert Pow2(9) == 512 && Pow2(12) == 4096 && Pow2(21) == 0x20_0000 && Pow2(30) == 0x4000_0000;
    BigPowers();
    ShrSplit(virt, 39); AndLowMask(Shr(virt, 39), 9);
    ShrSplit(virt, 30); AndLowMask(Shr(virt, 30), 9);
    ShrSplit(virt, 21); AndLowMask(Shr(virt, 21), 9);
    ShrSplit(virt, 12); AndLowMask(Shr(virt, 12), 9);
    AndLowMask(virt, 12);
  }

  /** The number of the 4 KiB page of a 48-bit address; higher bits are ignored. */
  function PageOf(virt: nat): nat {
    virt / 4096 % 0x10_0000_0000
  }

  /** The four 9-bit indices and the page number determine each other. */
  lemma SplitBijective(v: nat, w: nat)
    ensures Indices(v) == Indices(w) <==> PageOf(v) == PageOf(w)
  {
    IndexBits(v);
    IndexBits(w);
    PageFromIndices(v);
    PageFromIndices(w);
    var a, b := Indices(v), Indices(w);
    if PageOf(v) == PageOf(w) {
      IndicesFromPage(v);
      IndicesFromPage(w);
    }
    if a == b {
      assert a[0] == b[0] && a[1] == b[1] && a[2] == b[2] && a[3] == b[3];
    }
  }

  /** Any four indices belong to some page, and to that page alone. */
  lemma SplitOnto(idx: seq<nat>)
    requires |idx| == 4 && idx[0] < ENTRY_COUNT && idx[1] < ENTRY_COUNT && idx[2] < ENTRY_COUNT && idx[3] < ENTRY_COUNT
    ensures var p := idx[0] * 0x800_0000 + idx[1] * 0x4_0000 + idx[2] * 512 + idx[3];
      p < 0x10_0000_0000 && forall v: nat :: Indices(v) == idx <==> PageOf(v) == p
  {
    var p := idx[0] * 0x800_0000 + idx[1] * 0x4_0000 + idx[2] * 512 + idx[3];
    FourDigits(idx[0], idx[1], idx[2], idx[3]);
    assert PageOf(p * 4096) == p;
    IndexBits(p * 4096);
    IndicesFromPage(p * 4096);
    assert Indices(p * 4096) == idx;
    forall v: nat ensures Indices(v) == idx <==> PageOf(v) == p { SplitBijective(v, p * 4096); }
  }

  lemma LastDigit36(q: nat)
    ensures q % 0x10_0000_0000 == q / 512 % 0x800_0000 * 512 + q % 512
  {
    assert q / 0x10_0000_0000 == q / 512 / 0x800_0000;
  }

  lemma LastDigit27(q: nat)
    ensures q % 0x800_0000 == q / 512 % 0x4_0000 * 512 + q % 512
  {
    assert q / 0x800_0000 == q / 512 / 0x4_0000;
  }

  lemma LastDigit18(q: nat)
    ensures q % 0x4_0000 == q / 512 % 512 * 512 + q % 512
  {
    assert q / 0x4_0000 == q / 512 / 512;
  }

  lemma Shifts9(v: nat)
    ensures v / 0x20_0000 == v / 4096 / 512 && v / 0x4000_0000 == v / 4096 / 512 / 512
    ensures v / 0x80_0000_0000 == v / 4096 / 512 / 512 / 512
  {
    assert v / 0x20_0000 == v / 4096 / 512;
    assert v / 0x4000_0000 == v / 0x20_0000 / 512;
    assert v / 0x80_0000_0000 == v / 0x4000_0000 / 512;
  }

  lemma PageFromIndices(v: nat)
    ensures PageOf(v) ==
      v / 0x80_0000_0000 % 512 * 0x800_0000 + v / 0x4000_0000 % 512 * 0x4_0000 + v / 0x20_0000 % 512 * 512 +
        v / 4096 % 512
  {
    var q := v / 4096;
    Shifts9(v);
    LastDigit36(q);
    LastDigit27(q / 512);
    LastDigit18(q / 512 / 512);
  }

  lemma FourDigits(a: nat, b: nat, c: nat, d: nat)
    requires a < 512 && b < 512 && c < 512 && d < 512
    ensures var p := a * 0x800_0000 + b * 0x4_0000 + c * 512 + d;
      p / 0x800_0000 == a && p / 0x4_0000 % 512 == b && p / 512 % 512 == c && p % 512 == d
  {
    var p := a * 0x800_0000 + b * 0x4_0000 + c * 512 + d;
    assert p / 512 == a * 0x4_0000 + b * 512 + c;
    assert p / 0x4_0000 == a * 512 + b;
  }

  lemma IndicesFromPage(v: nat)
    ensures var p := PageOf(v);
      && v / 0x80_0000_0000 % 512 == p / 0x800_0000 && v / 0x4000_0000 % 512 == p / 0x4_0000 % 512
      && v / 0x20_0000 % 512 == p / 512 % 512 && v / 4096 % 512 == p % 512
  {
    PageFromIndices(v);
    FourDigits(v / 0x80_0000_0000 % 512, v / 0x4000_0000 % 512, v / 0x20_0000 % 512, v / 4096 % 512);
  }

  lemma {:induction false} OrAbove(b: nat, k: nat)
    requires b < Pow2(k)
    ensures Or(b, Pow2(k)) == b + Pow2(k)
  {
    if k > 0 && b > 0 { OrAbove(b / 2, k - 1); }
  }

  lemma OrDigit(x: nat, y: nat)
    ensures Or(x, y) == 2 * Or(x / 2, y / 2) + (if x % 2 == 1 || y % 2 == 1 then 1 else 0)
  {
  }

  lemma OrHalf(x: nat, y: nat)
    ensures Or(x, y) / 2 == Or(x / 2, y / 2)
    ensures Or(x, y) % 2 == if x % 2 == 1 || y % 2 == 1 then 1 else 0
  {
    OrDigit(x, y);
  }

  lemma {:induction false} OrAssoc(x: nat, y: nat, z: nat)
    ensures Or(Or(x, y), z) == Or(x, Or(y, z))
    decreases x + y + z
  {
    if x > 0 && y > 0 && z > 0 {
      OrAssoc(x / 2, y / 2, z / 2);
      OrHalf(x, y);
      OrHalf(y, z);
      OrDigit(Or(x, y), z);
      OrDigit(x, Or(y, z));
    }
  }

  /** A table-aligned frame below 2^52. */
  predicate GoodFrame(f: nat) {
    f % 4096 == 0 && f < 0x10_0000_0000_0000
  }

  lemma TableEntrySum(f: nat)
    requires GoodFrame(f)
    ensures TableEntry(f) == f + 7
  {
    assert Pow2(12) == 4096;
    OrAssoc(Or(f, 1), 2, 4);
    OrAssoc(f, 1, Or(2, 4));
    assert Or(1, Or(2, 4)) == 7;
    OrDisjoint(f / 4096, 7, 12);
    assert f / 4096 * 4096 == f;
  }

  /** An entry written for a fresh table links exactly that table, permissively. */
  lemma TableEntryLinks(f: nat)
    requires GoodFrame(f)
    ensures var e := TableEntry(f);
      && IsPresent(e) && !IsHuge(e) && AddrOf(e) == f
      && Writable(e) && UserBit(e) && !NoExecute(e)
  {
    TableEntrySum(f);
    LowBits(f / 4096, 7, 0);
    FlagBits(f + 7);
    AddrBits(f + 7);
  }

  /** The fields of an entry assembled from frame number, low flags and top bit. */
  lemma LowBits(q: nat, l: nat, n: nat)
    requires q < 0x100_0000_0000 && l < 4096 && n <= 1
    ensures var e := q * 4096 + l + n * 0x8000_0000_0000_0000;
      && e % 2 == l % 2 && (e / 2) % 2 == (l / 2) % 2 && (e / 4) % 2 == (l / 4) % 2 && (e / 128) % 2 == (l / 128) % 2
      && (e / 0x8000_0000_0000_0000) % 2 == n && e / 4096 % 0x100_0000_0000 == q
  {
    var h := q + n * 0x8_0000_0000_0000;
    LowPart(q * 4096 + l + n * 0x8000_0000_0000_0000, h, l);
    HighPart(q, l, n);
  }

  lemma LowPart(e: nat, h: nat, l: nat)
    requires e == h * 4096 + l
    ensures e % 2 == l % 2 && (e / 2) % 2 == (l / 2) % 2 && (e / 4) % 2 == (l / 4) % 2 && (e / 128) % 2 == (l / 128) % 2
  {
    DigitBelow(e, h, l, 1, 2048);
    DigitBelow(e, h, l, 2, 1024);
    DigitBelow(e, h, l, 4, 512);
    DigitBelow(e, h, l, 128, 16);
  }

  lemma HighPart(q: nat, l: nat, n: nat)
    requires q < 0x100_0000_0000 && l < 4096 && n <= 1
    ensures var e := q * 4096 + l + n * 0x8000_0000_0000_0000;
      e / 0x8000_0000_0000_0000 == n && e / 4096 % 0x100_0000_0000 == q
  {
    if n == 1 {
      assert (q * 4096 + l + 0x8000_0000_0000_0000) / 4096 == q + 0x8_0000_0000_0000;
    }
  }

  /** Low flag bits of a leaf, as a number below 512. */
  function LowFlags(flags: nat): nat {
    1 + (if Contains(flags, WRITE) then 2 else 0) + (if Contains(flags, USER) then 4 else 0)
      + (if Contains(flags, WRITE_THROUGH) then 8 else 0) + (if Contains(flags, CACHE_DISABLE) then 16 else 0)
      + (if Contains(flags, GLOBAL) then 256 else 0)
  }

  function NxBit(flags: nat): nat {
    if Contains(flags, EXEC) then 0 else PTE_NO_EXECUTE
  }

  lemma PteFlagsSplit(flags: nat)
    ensures PteFlagsFrom(flags) == if Contains(flags, EXEC) then LowFlags(flags)
      else Or(LowFlags(flags), PTE_NO_EXECUTE)
  {
    assert Pow2(1) == 2 && Pow2(2) == 4 && Pow2(3) == 8 && Pow2(4) == 16 && Pow2(8) == 256;
    var b1 := OrIf(PTE_PRESENT, Contains(flags, WRITE), 1);
    var b2 := OrIf(b1, Contains(flags, USER), 2);
    var b3 := OrIf(b2, Contains(flags, WRITE_THROUGH), 3);
    var b4 := OrIf(b3, Contains(flags, CACHE_DISABLE), 4);
    var b5 := OrIf(b4, Contains(flags, GLOBAL), 8);
  }

  /** Setting bit `k`, if asked to, above a number that does not reach it. */
  lemma OrIf(b: nat, c: bool, k: nat) returns (r: nat)
    requires b < Pow2(k)
    ensures r == (if c then Or(b, Pow2(k)) else b) == b + (if c then Pow2(k) else 0) && r < 2 * Pow2(k)
  {
    OrAbove(b, k);
    r := if c then b + Pow2(k) else b;
  }

  lemma LeafEntrySum(phys: nat, flags: nat)
    ensures LeafEntry(phys, flags) == AddrOf(phys) + LowFlags(flags) + NxBit(flags)
  {
    AddrBits(phys);
    PteFlagsSplit(flags);
    LowFlagsBound(flags);
    EntrySum(AddrOf(phys) / 4096, LowFlags(flags), !Contains(flags, EXEC));
  }

  lemma LowFlagsBound(flags: nat)
    ensures LowFlags(flags) < 512
  {
  }

  lemma EntrySum(q: nat, l: nat, nx: bool)
    requires q < 0x100_0000_0000 && l < 512
    ensures Or(q * 4096, if nx then Or(l, PTE_NO_EXECUTE) else l) == q * 4096 + l + if nx then PTE_NO_EXECUTE else 0
  {
    OrLow(q, l);
    if nx {
      OrAssoc(q * 4096, l, PTE_NO_EXECUTE);
      TopBit(q * 4096 + l);
    }
  }

  lemma TopBit(x: nat)
    requires x < 0x8000_0000_0000_0000
    ensures Or(x, PTE_NO_EXECUTE) == x + PTE_NO_EXECUTE
  {
    BigPowers();
    OrAbove(x, 63);
  }

  lemma OrLow(q: nat, l: nat)
    requires l < 4096
    ensures Or(q * 4096, l) == q * 4096 + l
  {
    assert Pow2(12) == 4096;
    OrDisjoint(q, l, 12);
  }

  /** A leaf holds the frame and exactly the rights it was given. */
  lemma LeafEntryBits(phys: nat, flags: nat)
    ensures var e := LeafEntry(phys, flags);
      && IsPresent(e) && AddrOf(e) == AddrOf(phys)
      && (Writable(e) <==> Contains(flags, WRITE)) && (UserBit(e) <==> Contains(flags, USER))
      && (NoExecute(e) <==> !Contains(flags, EXEC))
  {
    var e, n := LeafEntry(phys, flags), if Contains(flags, EXEC) then 0 else 1;
    LeafEntrySum(phys, flags);
    AddrBits(phys);
    LowBits(phys / 4096 % 0x100_0000_0000, LowFlags(flags), n);
    LowFlagBits(flags);
    assert e == phys / 4096 % 0x100_0000_0000 * 4096 + LowFlags(flags) + n * 0x8000_0000_0000_0000;
    FlagBits(e);
    AddrBits(e);
  }

  lemma LowFlagBits(flags: nat)
    ensures var l := LowFlags(flags);
      l % 2 == 1 && ((l / 2) % 2 == 1 <==> Contains(flags, WRITE)) && ((l / 4) % 2 == 1 <==> Contains(flags, USER))
  {
  }

  /** Binary digit number `k`. */
  function Digit(x: nat, k: nat): (d: nat)
    ensures d <= 1
  {
    x / Pow2(k) % 2
  }

  /** Each page flag is one binary digit. */
  lemma FlagDigit(flags: nat, k: nat)
    ensures Contains(flags, Pow2(k)) <==> Digit(flags, k) == 1
  {
    BitAt(flags, k);
    ShrSplit(flags, k);
    if Digit(flags, k) == 0 { assert 0 * Pow2(k) == 0; } else { assert 1 * Pow2(k) == Pow2(k); }
  }

  lemma FlagDigits(flags: nat)
    ensures Contains(flags, WRITE) <==> Digit(flags, 1) == 1
    ensures Contains(flags, EXEC) <==> Digit(flags, 2) == 1
    ensures Contains(flags, USER) <==> Digit(flags, 3) == 1
    ensures Contains(flags, WRITE_THROUGH) <==> Digit(flags, 4) == 1
    ensures Contains(flags, CACHE_DISABLE) <==> Digit(flags, 5) == 1
    ensures Contains(flags, GLOBAL) <==> Digit(flags, 6) == 1
  {
    assert Pow2(1) == 2 && Pow2(2) == 4 && Pow2(3) == 8 && Pow2(4) == 16 && Pow2(5) == 32 && Pow2(6) == 64;
    FlagDigit(flags, 1);
    FlagDigit(flags, 2);
    FlagDigit(flags, 3);
    FlagDigit(flags, 4);
    FlagDigit(flags, 5);
    FlagDigit(flags, 6);
  }

  /** A leaf digit by digit: present, then write, user, write-through, cache-disable
      and global as the flags say, bits 12 to 51 of the frame address, and at the top
      no-execute unless the flags allow execution; every other digit is 0. */
  lemma LeafDigits(phys: nat, flags: nat)
    ensures LeafEntry(phys, flags) ==
      1 + 2 * Digit(flags, 1) + 4 * Digit(flags, 3) + 8 * Digit(flags, 4) + 16 * Digit(flags, 5) + 256 * Digit(flags, 6)
      + 0x1000 * (phys / 0x1000 % 0x100_0000_0000) + 0x8000_0000_0000_0000 * (1 - Digit(flags, 2))
  {
    LeafEntrySum(phys, flags);
    AddrBits(phys);
    FlagDigits(flags);
  }

  // ------------------------------------------------------------------- walks

  function Entry(mem: Memory, t: nat, i: nat): nat {
    if t in mem && i < ENTRY_COUNT then mem[t][i] else 0
  }

  /** A present mapping: at level 3 a 4 KiB leaf, above it a huge page. */
  datatype Mapping = Mapping(level: nat, entry: nat)

  /** The mapping the walk for `idx` ends in, from table `t` of level `level` on. */
  function Lookup(mem: Memory, t: nat, idx: seq<nat>, level: nat): Option<Mapping>
    requires |idx| == 4 && level <= 3
    decreases 3 - level
  {
    var e := Entry(mem, t, idx[level]);
    if !IsPresent(e) then None
    else if level == 3 || IsHuge(e) then Some(Mapping(level, e))
    else Lookup(mem, AddrOf(e), idx, level + 1)
  }

  /** The address that a mapping gives to `virt`. */
  function Target(m: Mapping, virt: nat): nat
    requires m.level <= 3
  {
    if m.level == 3 then Or(AddrOf(m.entry), PageOffset(virt))
    else AddrOf(m.entry) + And(virt, Pow2(39 - 9 * m.level) - 1)
  }

  /** Bytes covered by one entry of level `level`. */
  function Span(level: nat): nat
    requires level <= 3
  {
    Pow2(39 - 9 * level)
  }

  lemma Spans()
    ensures Span(1) == 0x4000_0000 && Span(2) == 0x20_0000 && Span(3) == 4096
  {
    assert Pow2(12) == 4096 && Pow2(21) == 0x20_0000 && Pow2(30) == 0x4000_0000;
  }

  lemma LeafTarget(e: nat, virt: nat)
    ensures Or(AddrOf(e), PageOffset(virt)) == AddrOf(e) + virt % 4096
  {
    IndexBits(virt);
    AddrBits(e);
    OrLow(e / 4096 % 0x100_0000_0000, virt % 4096);
  }

  lemma MaskIsMod(x: nat, k: nat)
    ensures And(x, Pow2(k) - 1) == x % Pow2(k)
  {
    AndLowMask(x, k);
  }

  lemma SpanMask(virt: nat, level: nat)
    requires level < 3
    ensures And(virt, Pow2(39 - 9 * level) - 1) == virt % Span(level)
  {
    hide And, Pow2;
    MaskIsMod(virt, 39 - 9 * level);
  }

  lemma HugeTarget(m: Mapping, virt: nat, base: nat, offset: nat)
    requires m.level < 3 && base == AddrOf(m.entry) && offset == And(virt, Pow2(39 - 9 * m.level) - 1)
    ensures Target(m, virt) == base + offset
  {
  }

  /** Base plus offset, whether the offset is added or combined bit by bit. */
  lemma TargetSum(m: Mapping, virt: nat)
    requires m.level <= 3
    ensures Target(m, virt) == AddrOf(m.entry) + virt % Span(m.level)
  {
    if m.level < 3 {
      SpanMask(virt, m.level);
      HugeTarget(m, virt, AddrOf(m.entry), virt % Span(m.level));
    } else {
      LeafSpan(m.level);
      LeafTarget(m.entry, virt);
    }
  }

  lemma LeafSpan(level: nat)
    requires level == 3
    ensures Span(level) == 4096
  {
    Spans();
  }

  lemma {:induction false} LookupLevel(mem: Memory, t: nat, idx: seq<nat>, level: nat)
    requires |idx| == 4 && level <= 3
    ensures Lookup(mem, t, idx, level).Some? ==> level <= Lookup(mem, t, idx, level).value.level <= 3
    decreases 3 - level
  {
    var e := Entry(mem, t, idx[level]);
    if IsPresent(e) && level < 3 && !IsHuge(e) { LookupLevel(mem, AddrOf(e), idx, level + 1); }
  }

  function Translate(mem: Memory, root: nat, virt: nat): Option<nat> {
    match Lookup(mem, root, Indices(virt), 0)
    case None => None
    case Some(m) => Some(Target(m, virt))
  }

  lemma TranslateSum(mem: Memory, root: nat, virt: nat)
    ensures Translate(mem, root, virt) ==
      match Lookup(mem, root, Indices(virt), 0)
      case None => None
      case Some(m) => if m.level <= 3 then Some(AddrOf(m.entry) + virt % Span(m.level)) else None
  {
    LookupLevel(mem, root, Indices(virt), 0);
    var r := Lookup(mem, root, Indices(virt), 0);
    if r.Some? { TargetSum(r.value, virt); }
  }

  /** Write one entry of one table. */
  function SetEntry(mem: Memory, t: nat, i: nat, e: nat): Memory {
    if t in mem && i < ENTRY_COUNT then mem[t := mem[t][i := e]] else mem
  }

  /** Descend from table `t`, creating missing tables with frames from `alloc`;
      gives the memory, the allocator state and the leaf table or the error. */
  function Descend<A>(mem: Memory, t: nat, idx: seq<nat>, level: nat, a: A, alloc: A -> (A, Option<nat>))
    : (Memory, A, Result<nat>)
    requires |idx| == 4 && level <= 3
    decreases 3 - level
  {
    if level == 3 then (mem, a, Ok(t)) else
    var e := Entry(mem, t, idx[level]);
    if !IsPresent(e) then
      var (a', f) := alloc(a);
      match f
      case None => (mem, a', Err(OutOfFrames))
      case Some(frame) =>
        Descend(SetEntry(mem[frame := ZERO], t, idx[level], TableEntry(frame)), frame, idx, level + 1, a', alloc)
    else if IsHuge(e) then (mem, a, Err(HugePagePresent))
    else Descend(mem, AddrOf(e), idx, level + 1, a, alloc)
  }

  function MapPage<A>(mem: Memory, root: nat, virt: nat, phys: nat, flags: nat, a: A, alloc: A -> (A, Option<nat>))
    : (Memory, A, Result<()>)
  {
    var idx := Indices(virt);
    var (mem', a', r) := Descend(mem, root, idx, 0, a, alloc);
    match r
    case Err(e) => (mem', a', Err(e))
    case Ok(pt) =>
      if IsPresent(Entry(mem', pt, idx[3])) then (mem', a', Err(AlreadyMapped))
      else (SetEntry(mem', pt, idx[3], LeafEntry(phys, flags)), a', Ok(()))
  }

  /** The leaf table of an existing path of tables. */
  function LeafTable(mem: Memory, t: nat, idx: seq<nat>, level: nat): Option<nat>
    requires |idx| == 4 && level <= 3
    decreases 3 - level
  {
    if level == 3 then Some(t) else
    var e := Entry(mem, t, idx[level]);
    if !IsPresent(e) || IsHuge(e) then None else LeafTable(mem, AddrOf(e), idx, level + 1)
  }

  function UnmapPage(mem: Memory, root: nat, virt: nat): (Memory, Option<nat>) {
    var idx := Indices(virt);
    match LeafTable(mem, root, idx, 0)
    case None => (mem, None)
    case Some(pt) =>
      var e := Entry(mem, pt, idx[3]);
      if !IsPresent(e) then (mem, None) else (SetEntry(mem, pt, idx[3], 0), Some(AddrOf(e)))
  }
}
