/** The first-fit kernel heap as a list of free regions. */
module Heap {
  import opened Wrappers
  import opened Bits

  const MIN_BLOCK: nat := 16
  /** MIN_ALIGN is 8, the third power of two. */
  const MIN_ALIGN_LOG: nat := 3
  /** One past the largest `usize`. */
  const USIZE_LIMIT: nat := 0x1_0000_0000_0000_0000

  datatype Region = Region(start: nat, size: nat) {
    predicate Has(x: nat) {
      start <= x < start + size
    }
  }

  function Max(a: nat, b: nat): nat {
    if a >= b then a else b
  }

  /** Address arithmetic wraps at 2^64. */
  function Wrap(x: int): (r: nat)
    ensures r < USIZE_LIMIT && (0 <= x < USIZE_LIMIT ==> r == x)
  {
    x % USIZE_LIMIT
  }

  /** `(addr + align - 1) & !(align - 1)` for `align == 1 << k`. */
  function AlignUp(addr: nat, k: nat): nat
    requires Pow2(k) <= USIZE_LIMIT
  {
    And(Wrap(addr + Pow2(k) - 1), USIZE_LIMIT - 1 - (Pow2(k) - 1))
  }

  /** Rounding `addr` up stays inside the address space. */
  predicate Reachable(addr: nat, k: nat) {
    addr + Pow2(k) <= USIZE_LIMIT
  }

  lemma Limit()
    ensures Pow2(64) == USIZE_LIMIT
  {
    assert Pow2(8) == 256;
    Pow2Add(8, 8);
    Pow2Add(16, 16);
    Pow2Add(32, 32);
  }

  lemma LogBelow(k: nat)
    requires Pow2(k) <= USIZE_LIMIT
    ensures k <= 64
  {
    Limit();
    if k > 64 { Pow2Mono(65, k); }
  }

  lemma AlignUpValue(addr: nat, k: nat) returns (q: nat)
    requires Reachable(addr, k)
    ensures AlignUp(addr, k) == q * Pow2(k)
    ensures addr <= q * Pow2(k) < addr + Pow2(k)
  {
    LogBelow(k);
    q := RoundDown(addr + Pow2(k) - 1, k);
  }

  lemma RoundDown(x: nat, k: nat) returns (q: nat)
    requires k <= 64 && x < USIZE_LIMIT && Pow2(k) <= USIZE_LIMIT
    ensures And(x, USIZE_LIMIT - 1 - (Pow2(k) - 1)) == q * Pow2(k)
    ensures q * Pow2(k) <= x < q * Pow2(k) + Pow2(k)
  {
    Limit();
    AndHighMask(x, k, 64);
    ShrSplit(x, k);
    q := Shr(x, k);
  }

  lemma NotBelow(addr: nat, p: nat, q: nat, n: nat)
    requires p > 0 && q * p < addr + p && n * p >= addr
    ensures q * p <= n * p
  {
    if n < q { MulMono(n + 1, q, p); }
    MulMono(q, n, p);
  }

  lemma LeastMultiple(addr: nat, p: nat, a: nat, q: nat, m: nat)
    requires p > 0 && a == q * p && addr <= a < addr + p
    ensures a % p == 0 && (m % p == 0 && m >= addr ==> a <= m)
  {
    DivUnique(a, p, q, 0);
    if m % p == 0 && m >= addr {
      assert m == m / p * p;
      NotBelow(addr, p, q, m / p);
    }
  }

  /** The mask form is the least multiple of the alignment that is not below `addr`. */
  lemma AlignUpLeast(addr: nat, k: nat, m: nat)
    requires Reachable(addr, k)
    ensures AlignUp(addr, k) % Pow2(k) == 0
    ensures addr <= AlignUp(addr, k) < addr + Pow2(k)
    ensures m % Pow2(k) == 0 && m >= addr ==> AlignUp(addr, k) <= m
  {
    var q := AlignUpValue(addr, k);
    LeastMultiple(addr, Pow2(k), AlignUp(addr, k), q, m);
  }

  // ---------------------------------------------------------------- layouts

  datatype RawLayout = RawLayout(size: nat, alignLog: nat)

  /** A request for `size` bytes aligned to `1 << alignLog`; the size rounded up to
      the alignment does not exceed the largest `isize`. */
  type Layout = l: RawLayout | l.size + Pow2(l.alignLog) <= 0x8000_0000_0000_0000 witness RawLayout(0, 0)

  /** `align_up` applied to the larger of the size and MIN_BLOCK. */
  function AlignLog(l: Layout): (k: nat)
    ensures k >= 3 && k >= l.alignLog && (k == 3 || k == l.alignLog)
    ensures Pow2(k) <= Pow2(l.alignLog) + 8
  {
    Max(l.alignLog, MIN_ALIGN_LOG)
  }

  function AdjustedSize(l: Layout): nat {
    AlignUp(Max(l.size, MIN_BLOCK), AlignLog(l))
  }

  lemma EightDivides(a: nat, k: nat)
    requires k >= MIN_ALIGN_LOG && a % Pow2(k) == 0
    ensures a % 8 == 0
  {
    Pow2Add(3, k - 3);
    var q, p := a / Pow2(k), Pow2(k - 3);
    assert a == q * (8 * p);
    assert q * (8 * p) == q * p * 8;
    DivUnique(a, 8, q * p, 0);
  }

  /** A freed block can always hold a header, and its end is aligned like its start. */
  lemma AdjustedOk(l: Layout)
    ensures AdjustedSize(l) >= l.size && AdjustedSize(l) >= MIN_BLOCK
    ensures AdjustedSize(l) % Pow2(AlignLog(l)) == 0 && AdjustedSize(l) % 8 == 0
    ensures AdjustedSize(l) < 0x8000_0000_0000_0018
  {
    AlignUpLeast(Max(l.size, MIN_BLOCK), AlignLog(l), 0);
    EightDivides(AdjustedSize(l), AlignLog(l));
  }

  /** The alignment of a request, but at least 8. */
  function Granule(l: Layout): (g: nat)
    ensures g > 0
  {
    if Pow2(l.alignLog) < 8 then 8 else Pow2(l.alignLog)
  }

  /** `n` is the least multiple of the alignment that covers the size and 16 bytes. */
  predicate Needs(l: Layout, n: nat) {
    n % Granule(l) == 0 && n >= l.size && n >= 16 && (n - Granule(l) < l.size || n - Granule(l) < 16)
  }

  lemma GranuleIs(l: Layout)
    ensures Granule(l) == Pow2(AlignLog(l))
  {
    assert Pow2(3) == 8;
    if l.alignLog < 3 {
      Pow2Mono(l.alignLog, 2);
      assert Pow2(2) == 4;
    } else {
      Pow2Mono(3, l.alignLog);
    }
  }

  /** The size handed out is what the request needs, and nothing else is. */
  lemma AdjustedNeeds(l: Layout, n: nat)
    ensures Needs(l, n) <==> n == AdjustedSize(l)
  {
    GranuleIs(l);
    AlignUpLeast(Max(l.size, MIN_BLOCK), AlignLog(l), n);
    if Needs(l, n) { OneMultiple(n, AdjustedSize(l), Granule(l)); }
  }

  lemma OneMultiple(n: nat, a: nat, g: nat)
    requires g > 0 && n % g == 0 && a % g == 0 && a <= n < a + g
    ensures n == a
  {
    assert a == a / g * g;
    DivUnique(n, g, a / g, n - a);
  }

  // -------------------------------------------------------------- free lists

  /** `add_free_region`: the aligned part goes to the front of the list, unless it
      cannot hold a header. */
  function AddFree(bs: seq<Region>, addr: nat, size: nat): seq<Region> {
    var aligned := AlignUp(addr, MIN_ALIGN_LOG);
    var adjust := Wrap(aligned - addr);
    if size < Wrap(adjust + MIN_BLOCK) then bs else [Region(aligned, Wrap(size - adjust))] + bs
  }

  function EndOf(r: Region): nat {
    Wrap(r.start + r.size)
  }

  /** The comparison of the search, on wrapped addresses. */
  predicate Fits(r: Region, size: nat, k: nat)
    requires Pow2(k) <= USIZE_LIMIT
  {
    Wrap(AlignUp(r.start, k) + size) <= EndOf(r)
  }

  /** The first block at or after position `i` that fits. */
  function FirstFit(bs: seq<Region>, size: nat, k: nat, i: nat): (r: Option<nat>)
    requires Pow2(k) <= USIZE_LIMIT && i <= |bs|
    ensures r.None? ==> forall j :: i <= j < |bs| ==> !Fits(bs[j], size, k)
    ensures r.Some? ==> i <= r.value < |bs| && Fits(bs[r.value], size, k)
    ensures r.Some? ==> forall j :: i <= j < r.value ==> !Fits(bs[j], size, k)
    decreases |bs| - i
  {
    if i == |bs| then None
    else if Fits(bs[i], size, k) then Some(i)
    else FirstFit(bs, size, k, i + 1)
  }

  function Without(bs: seq<Region>, i: nat): seq<Region>
    requires i < |bs|
  {
    bs[..i] + bs[i + 1..]
  }

  /** The list after the padding in front of the carved piece went back to it. */
  function WithFront(bs: seq<Region>, r: Region, at: nat): seq<Region> {
    var front := Wrap(at - r.start);
    if front >= MIN_BLOCK then AddFree(bs, r.start, front) else bs
  }

  /** The list after the padding before and after the carved piece went back to it. */
  function GiveBack(bs: seq<Region>, r: Region, at: nat, size: nat): seq<Region> {
    var end := Wrap(at + size);
    var tail := Wrap(EndOf(r) - end);
    if tail >= MIN_BLOCK then AddFree(WithFront(bs, r, at), end, tail) else WithFront(bs, r, at)
  }

  function Alloc(bs: seq<Region>, l: Layout): (seq<Region>, Option<nat>) {
    var size, k := AdjustedSize(l), AlignLog(l);
    match FirstFit(bs, size, k, 0)
    case None => (bs, None)
    case Some(i) =>
      var at := AlignUp(bs[i].start, k);
      (GiveBack(Without(bs, i), bs[i], at, size), Some(at))
  }

  function Dealloc(bs: seq<Region>, ptr: nat, l: Layout): seq<Region> {
    AddFree(bs, ptr, AdjustedSize(l))
  }

  lemma AddAligned(bs: seq<Region>, addr: nat, size: nat)
    requires addr % 8 == 0 && addr + 8 <= USIZE_LIMIT && MIN_BLOCK <= size < USIZE_LIMIT
    ensures AddFree(bs, addr, size) == [Region(addr, size)] + bs
  {
    assert Pow2(3) == 8;
    AlignUpLeast(addr, 3, addr);
  }

  /** Unless addresses wrap, what is listed starts at the first multiple of 8 and
      reaches to the end, and it is dropped when it is shorter than 16 bytes. */
  lemma AddFreeExact(bs: seq<Region>, addr: nat, size: nat, a: nat)
    requires addr + size <= USIZE_LIMIT - 8 && a % 8 == 0 && addr <= a < addr + 8
    ensures AddFree(bs, addr, size) == if a + 16 <= addr + size then [Region(a, addr + size - a)] + bs else bs
  {
    assert Pow2(3) == 8;
    AlignUpLeast(addr, 3, a);
  }

  // ----------------------------------------------------- what a block can hold

  /** Some aligned address leaves what the request needs of the block. */
  ghost predicate CanHold(r: Region, l: Layout) {
    exists at: nat, n: nat :: HoldsAt(r, l, at, n)
  }

  /** `n` bytes, which the request needs, lie in the block from the aligned address `at`. */
  predicate HoldsAt(r: Region, l: Layout, at: nat, n: nat) {
    Needs(l, n) && at % Granule(l) == 0 && r.start <= at && at + n <= r.start + r.size
  }

  /** Neither the aligned start nor the end computed for a request wraps. */
  predicate Unwrapped(r: Region, l: Layout) {
    Reachable(r.start, AlignLog(l)) && AlignUp(r.start, AlignLog(l)) + AdjustedSize(l) < USIZE_LIMIT
  }

  /** `at` is the first aligned address of the block. */
  predicate FirstAligned(r: Region, l: Layout, at: nat) {
    at % Granule(l) == 0 && r.start <= at < r.start + Granule(l)
  }

  /** Without wrapping, the test of the search finds out what a block can hold. */
  lemma FitsExactly(r: Region, l: Layout)
    requires r.start + r.size < USIZE_LIMIT && Unwrapped(r, l)
    ensures Fits(r, AdjustedSize(l), AlignLog(l)) <==> CanHold(r, l)
    ensures FirstAligned(r, l, AlignUp(r.start, AlignLog(l)))
  {
    var at := AlignUp(r.start, AlignLog(l));
    GranuleIs(l);
    AdjustedNeeds(l, AdjustedSize(l));
    AlignUpLeast(r.start, AlignLog(l), 0);
    if Fits(r, AdjustedSize(l), AlignLog(l)) { assert HoldsAt(r, l, at, AdjustedSize(l)); }
    if CanHold(r, l) {
      var m: nat, n: nat :| HoldsAt(r, l, m, n);
      AdjustedNeeds(l, n);
      AlignUpLeast(r.start, AlignLog(l), m);
    }
  }

  lemma NextMultiple(n: nat, m: nat, p: nat)
    requires p > 0 && (m - 1) * p < n * p
    ensures m * p <= n * p
  {
    if n < m { MulMono(n, m - 1, p); }
    MulMono(m, n, p);
  }

  lemma MultipleAbove(addr: nat, p: nat, m: nat, at: nat)
    requires p > 0 && addr + p > m * p && at % p == 0 && at >= addr
    ensures at >= m * p
  {
    var n := at / p;
    assert at == n * p;
    assert (m - 1) * p == m * p - p;
    NextMultiple(n, m, p);
  }

  /** No multiple of the alignment lies between `addr` and the end of the address space. */
  lemma NoneAbove(addr: nat, k: nat, at: nat)
    requires addr < USIZE_LIMIT && Pow2(k) <= USIZE_LIMIT && !Reachable(addr, k)
    requires at % Pow2(k) == 0 && at >= addr
    ensures at >= USIZE_LIMIT
  {
    LogBelow(k);
    Limit();
    Pow2Add(k, 64 - k);
    MultipleAbove(addr, Pow2(k), Pow2(64 - k), at);
  }

  /** An alignment that would pass the end of the address space gives address 0. */
  lemma AlignWrapped(addr: nat, k: nat)
    requires addr < USIZE_LIMIT && Pow2(k) <= USIZE_LIMIT && !Reachable(addr, k)
    ensures AlignUp(addr, k) == 0
  {
    LogBelow(k);
    var q := RoundDown(Wrap(addr + Pow2(k) - 1), k);
    assert Wrap(addr + Pow2(k) - 1) == addr + Pow2(k) - 1 - USIZE_LIMIT;
    MulMono(1, q, Pow2(k));
  }

  /** A block that can hold a request lets nothing wrap. */
  lemma HoldingUnwrapped(r: Region, l: Layout)
    requires r.start + r.size < USIZE_LIMIT && CanHold(r, l)
    ensures Unwrapped(r, l) && Fits(r, AdjustedSize(l), AlignLog(l))
  {
    var at: nat, n: nat :| HoldsAt(r, l, at, n);
    GranuleIs(l);
    AdjustedNeeds(l, n);
    if !Reachable(r.start, AlignLog(l)) { NoneAbove(r.start, AlignLog(l), at); }
    AlignUpLeast(r.start, AlignLog(l), at);
    FitsExactly(r, l);
  }

  /** The chosen block, if any, is one where nothing wraps. */
  predicate ChosenUnwrapped(bs: seq<Region>, l: Layout) {
    var i := FirstFit(bs, AdjustedSize(l), AlignLog(l), 0);
    i.Some? ==> Unwrapped(bs[i.value], l)
  }

  ghost predicate HoldsFirst(bs: seq<Region>, l: Layout, i: nat, at: nat) {
    && i < |bs| && FirstAligned(bs[i], l, at) && (exists n: nat :: HoldsAt(bs[i], l, at, n))
    && forall j :: 0 <= j < i ==> !CanHold(bs[j], l)
  }

  /** A request fails exactly when no listed block can hold it; otherwise it gets the
      first aligned address of the first block that can. */
  lemma FirstFitOnly(bs: seq<Region>, l: Layout)
    requires forall j :: 0 <= j < |bs| ==> bs[j].start + bs[j].size < USIZE_LIMIT
    requires ChosenUnwrapped(bs, l)
    ensures var r := Alloc(bs, l).1;
      && (r.None? <==> forall j :: 0 <= j < |bs| ==> !CanHold(bs[j], l))
      && (r.Some? ==> exists i: nat :: HoldsFirst(bs, l, i, r.value))
  {
    var i := FirstFit(bs, AdjustedSize(l), AlignLog(l), 0);
    forall j | 0 <= j < |bs| && CanHold(bs[j], l) ensures Fits(bs[j], AdjustedSize(l), AlignLog(l)) {
      HoldingUnwrapped(bs[j], l);
    }
    if i.Some? {
      FitsExactly(bs[i.value], l);
      AdjustedNeeds(l, AdjustedSize(l));
      GranuleIs(l);
      assert HoldsAt(bs[i.value], l, Alloc(bs, l).1.value, AdjustedSize(l));
      assert HoldsFirst(bs, l, i.value, Alloc(bs, l).1.value);
    }
  }

  /** Freeing a block and asking for the same layout again returns the same block
      and restores the list exactly. */
  lemma ExactReuse(bs: seq<Region>, ptr: nat, l: Layout)
    requires ptr % Pow2(AlignLog(l)) == 0 && Reachable(ptr, AlignLog(l))
    ensures Alloc(Dealloc(bs, ptr, l), l) == (bs, Some(ptr))
  {
    AdjustedOk(l);
    EightDivides(ptr, AlignLog(l));
    Pow2Mono(3, AlignLog(l));
    AddAligned(bs, ptr, AdjustedSize(l));
    AlignUpLeast(ptr, AlignLog(l), ptr);
    var bs1 := Dealloc(bs, ptr, l);
    assert FirstFit(bs1, AdjustedSize(l), AlignLog(l), 0) == Some(0);
    assert Without(bs1, 0) == bs;
  }
}
