/** Which block an allocation takes and where a freed block goes: the free lists
    element by element. */
module BuddyOrder {
  import opened Bits
  import opened Buddy
  import opened Wrappers

  // ------------------------------------------------------------- allocation

  lemma {:induction false} SplitAt(ls: Lists, block: nat, o: nat, order: nat, k: nat)
    requires order <= o <= MAX_ORDER && k <= MAX_ORDER
    ensures Split(ls, block, o, order)[k] == if order <= k < o then ls[k] + [block + Pow2(k)] else ls[k]
    decreases o
  {
    if o > order {
      SplitStep(ls, block, o, order);
      SplitAt(Push(ls, o - 1, block + Pow2(o - 1)), block, o - 1, order, k);
    }
  }

  /** An allocation takes the block that came last to the first list in use from the
      order on, and leaves one upper half in each list passed over. */
  lemma TakesNewest(ls: Lists, order: nat, r: nat, k: nat)
    requires order <= r <= 9 && ls[r] != [] && (forall i :: order <= i < r ==> ls[i] == []) && k <= 9
    ensures var (ls', got) := Allocated(ls, order);
      var block := ls[r][|ls[r]| - 1];
      && got == Some(block)
      && ls'[k] == if k == r then ls[r][..|ls[r]| - 1] else if order <= k < r then [block + Pow2(k)] else ls[k]
  {
    FirstIs(ls, order, r);
    var l := ls[r];
    SplitAt(ls[r := l[..|l| - 1]], l[|l| - 1], r, order, k);
  }

  lemma {:induction false} FirstIs(ls: Lists, order: nat, r: nat)
    requires order <= r <= 9 && ls[r] != [] && (forall i :: order <= i < r ==> ls[i] == [])
    ensures FirstOrder(ls, order) == r
    decreases r - order
  {
    if order < r { FirstIs(ls, order + 1, r); }
  }

  // ------------------------------------------------------------------- free

  /** The block of order `k` around page `p`, */
  function Around(p: nat, k: nat): nat {
    MulMono(0, Shr(p, k), Pow2(k));
    Shr(p, k) * Pow2(k)
  }

  /** and the other half of the block of the next order around it. */
  function OtherHalf(p: nat, k: nat): int {
    if Shr(p, k) % 2 == 0 then Around(p, k) + Pow2(k) else Around(p, k) - Pow2(k)
  }

  /** The other half is free at every order from `o` up to `m`, and not at `m`. */
  predicate MergesTo(ls: Lists, p: nat, o: nat, m: nat)
    requires o <= m <= MAX_ORDER
  {
    && (forall k :: o <= k < m ==> OtherHalf(p, k) in ls[k])
    && (m == 9 || OtherHalf(p, m) !in ls[m])
  }

  /** The first `x` of the list gives its place to the last element. */
  predicate SwappedOut(l: seq<nat>, x: int, i: nat, r: seq<nat>) {
    && i < |l| && l[i] == x && x !in l[..i] && |r| == |l| - 1
    && forall j :: 0 <= j < |r| ==> r[j] == if j == i then l[|l| - 1] else l[j]
  }

  /** What merging the orders from `o` up to `m` leaves of list `k`. */
  ghost predicate LeftBy(ls: Lists, r: Lists, p: nat, o: nat, m: nat, k: nat)
    requires o <= m <= MAX_ORDER && k <= MAX_ORDER
  {
    if k < o || k > m then r[k] == ls[k]
    else if k == m then r[m] == ls[m] + [Around(p, m)]
    else exists i: nat :: SwappedOut(ls[k], OtherHalf(p, k), i, r[k])
  }

  lemma AroundSame(p: nat, o: nat, k: nat)
    requires o <= k
    ensures Around(Around(p, o), k) == Around(p, k) && OtherHalf(Around(p, o), k) == OtherHalf(p, k)
  {
    ShrSplit(p, o);
    ShrSplit(p, k);
    ShrSplit(Around(p, o), k);
    ShrMul(Shr(p, o), o, 0);
    Nested(p, o, k);
    Nested(Around(p, o), o, k);
  }

  /** The buddy of the code is the other half, and the merged block lies around. */
  lemma BuddyIsOtherHalf(p: nat, o: nat)
    requires Aligned(p, o)
    ensures BuddyOf(p, o) == OtherHalf(p, o) && Min(p, BuddyOf(p, o)) == Around(p, o + 1)
    ensures Around(p, o) == p && Aligned(Around(p, o + 1), o + 1)
  {
    ShrSplit(p, o);
    XorBit(p, o);
    ShrSplit(p, o + 1);
    ShrHalf(p, o);
    BuddyPlace(p, o, Around(p, o + 1));
    FirstPage(Shr(p, o + 1), o + 1);
  }

  lemma SwapRemoves(l: seq<nat>, x: nat)
    requires x in l
    ensures var i := Position(l, x, 0); i.Some? && SwappedOut(l, x, i.value, SwapRemove(l, i.value))
  {
    assert l[0..] == l;
    var i := Position(l, x, 0).value;
    assert l[0..i] == l[..i];
  }

  /** A freed block takes in the other half at every order where that is free, takes
      each out of its list by a swap with the last element, and goes to the end of
      the list of the first order where it is not, or of the largest. */
  lemma {:induction false} FreesUpTo(ls: Lists, p: nat, o: nat, m: nat, k: nat)
    requires Aligned(p, o) && o <= m <= 9 && k <= 9 && MergesTo(ls, p, o, m)
    ensures LeftBy(ls, Freed(ls, p, o), p, o, m, k)
    decreases m - o
  {
    BuddyIsOtherHalf(p, o);
    assert ls[o][0..] == ls[o];
    if o < m {
      var b := BuddyOf(p, o);
      SwapRemoves(ls[o], b);
      var i := Position(ls[o], b, 0).value;
      var p', ls' := Around(p, o + 1), ls[o := SwapRemove(ls[o], i)];
      MergesOn(ls, ls', p, o, m);
      FreesUpTo(ls', p', o + 1, m, k);
      LeftOn(ls, ls', Freed(ls', p', o + 1), p, o, m, k, i);
    }
  }

  lemma LeftOn(ls: Lists, ls': Lists, r: Lists, p: nat, o: nat, m: nat, k: nat, i: nat)
    requires o < m <= MAX_ORDER && k <= MAX_ORDER && LeftBy(ls', r, Around(p, o + 1), o + 1, m, k)
    requires (forall j :: 0 <= j <= MAX_ORDER && j != o ==> ls'[j] == ls[j])
      && SwappedOut(ls[o], OtherHalf(p, o), i, ls'[o])
    ensures LeftBy(ls, r, p, o, m, k)
  {
    AroundSame(p, o + 1, m);
    if k > o { AroundSame(p, o + 1, k); }
  }

  lemma MergesOn(ls: Lists, ls': Lists, p: nat, o: nat, m: nat)
    requires o < m <= MAX_ORDER && MergesTo(ls, p, o, m) && forall k :: o < k <= MAX_ORDER ==> ls'[k] == ls[k]
    ensures MergesTo(ls', Around(p, o + 1), o + 1, m)
  {
    forall k | o + 1 <= k <= m ensures OtherHalf(Around(p, o + 1), k) == OtherHalf(p, k) { AroundSame(p, o + 1, k); }
  }

  // ----------------------------------------------------------------- regions

  /** A region's blocks of one order come in increasing order behind those listed. */
  lemma {:induction false} BlocksAscend(ls: Lists, pfn: nat, remaining: nat, o: nat)
    requires o <= 9
    ensures var r, n := AddBlocks(ls, pfn, remaining)[o], |ls[o]|;
      && ls[o] <= r && (forall i :: n <= i < |r| ==> pfn <= r[i] < pfn + remaining)
      && forall i, j :: n <= i < j < |r| ==> r[i] < r[j]
    decreases remaining
  {
    if remaining > 0 {
      var k := PickOrder(pfn, remaining, MAX_ORDER);
      AddBlocksStep(ls, pfn, remaining, k);
      BlocksAscend(Push(ls, k, pfn), pfn + Pow2(k), remaining - Pow2(k), o);
    }
  }
}
