/** The physical-page buddy allocator: free lists per order, as plain values.
    The class in BuddyAllocator.dfy is proved to compute these functions. */
module Buddy {
  import opened Bits
  import opened Wrappers

  const MAX_ORDER: nat := 9

  /** One free list of page frame numbers per order 0..MAX_ORDER. */
  type Lists = ls: seq<seq<nat>> | |ls| == MAX_ORDER + 1
    witness [[], [], [], [], [], [], [], [], [], []]

  // ---------------------------------------------------------------- the code

  function Push(ls: Lists, o: nat, p: nat): Lists
    requires o <= MAX_ORDER
  {
    ls[o := ls[o] + [p]]
  }

  /** The scan for the smallest order >= `o` with a free block. */
  function FirstOrder(ls: Lists, o: nat): (r: nat)
    ensures r >= o
    ensures r <= MAX_ORDER ==> ls[r] != []
    ensures forall k :: o <= k < r && k <= MAX_ORDER ==> ls[k] == []
    decreases MAX_ORDER + 1 - o
  {
    if o <= MAX_ORDER && ls[o] == [] then FirstOrder(ls, o + 1) else o
  }

  function Split(ls: Lists, block: nat, o: nat, order: nat): Lists
    requires order <= o <= MAX_ORDER
    decreases o
  {
    if o > order then Split(Push(ls, o - 1, block + Pow2(o - 1)), block, o - 1, order) else ls
  }

  lemma SplitStep(ls: Lists, block: nat, o: nat, order: nat)
    requires order < o <= MAX_ORDER
    ensures Split(ls, block, o, order) == Split(Push(ls, o - 1, block + Pow2(o - 1)), block, o - 1, order)
  {
  }

  function Allocated(ls: Lists, order: nat): (Lists, Option<nat>) {
    var o := FirstOrder(ls, order);
    if o > MAX_ORDER then (ls, None) else
      var l := ls[o];
      var block := l[|l| - 1];
      (Split(ls[o := l[..|l| - 1]], block, o, order), Some(block))
  }

  /** The index of the first occurrence of `x` in `l[i..]`. */
  function Position(l: seq<nat>, x: nat, i: nat): (r: Option<nat>)
    requires i <= |l|
    ensures r.None? <==> x !in l[i..]
    ensures r.Some? ==> i <= r.value < |l| && l[r.value] == x && x !in l[i..r.value]
    decreases |l| - i
  {
    if i == |l| then None
    else if l[i] == x then Some(i)
    else
      var r := Position(l, x, i + 1);
      assert l[i..] == [l[i]] + l[i + 1..];
      r
  }

  function SwapRemove(l: seq<nat>, i: nat): seq<nat>
    requires i < |l|
  {
    l[i := l[|l| - 1]][..|l| - 1]
  }

  function BuddyOf(p: nat, o: nat): nat {
    Xor(p, Pow2(o))
  }

  function Min(a: nat, b: nat): nat {
    if a <= b then a else b
  }

  function Freed(ls: Lists, p: nat, o: nat): Lists
    requires o <= MAX_ORDER
    decreases MAX_ORDER - o
  {
    if o < MAX_ORDER then
      match Position(ls[o], BuddyOf(p, o), 0)
      case Some(i) => Freed(ls[o := SwapRemove(ls[o], i)], Min(p, BuddyOf(p, o)), o + 1)
      case None => Push(ls, o, p)
    else Push(ls, o, p)
  }

  predicate Fits(pfn: nat, remaining: nat, order: nat) {
    remaining >= Pow2(order) && And(pfn, Pow2(order) - 1) == 0
  }

  function PickOrder(pfn: nat, remaining: nat, order: nat): (r: nat)
    ensures r <= order
    ensures r > 0 ==> Fits(pfn, remaining, r)
    ensures forall k :: r < k <= order ==> !Fits(pfn, remaining, k)
  {
    if order > 0 then
      if Fits(pfn, remaining, order) then order else PickOrder(pfn, remaining, order - 1)
    else 0
  }

  function AddBlocks(ls: Lists, pfn: nat, remaining: nat): Lists
    decreases remaining
  {
    if remaining > 0 then
      var o := PickOrder(pfn, remaining, MAX_ORDER);
      AddBlocks(Push(ls, o, pfn), pfn + Pow2(o), remaining - Pow2(o))
    else ls
  }

  lemma AddBlocksStep(ls: Lists, pfn: nat, remaining: nat, o: nat)
    requires remaining > 0 && o == PickOrder(pfn, remaining, MAX_ORDER)
    ensures Pow2(o) <= remaining
    ensures AddBlocks(ls, pfn, remaining) == AddBlocks(Push(ls, o, pfn), pfn + Pow2(o), remaining - Pow2(o))
  {
  }

  // ------------------------------------------------------ aligned blocks, keys

  /** Block (p, o) holds pages p .. p + 2^o; its key is p >> o. */
  predicate Aligned(p: nat, o: nat) {
    Low(p, o) == 0
  }

  predicate Between(start: nat, x: nat, end: nat) {
    start <= x < end
  }

  ghost function Range(start: nat, end: nat): (r: set<nat>)
    ensures forall x: nat :: x in r <==> start <= x < end
  {
    set x: nat | x < end && Between(start, x, end)
  }

  ghost function Pages(p: nat, o: nat): set<nat> {
    Range(p, p + Pow2(o))
  }

  /** Every page with key `q` at order `o` is in `F`. */
  ghost predicate Full(F: set<nat>, q: nat, o: nat) {
    forall x: nat :: Shr(x, o) == q ==> x in F
  }

  /** A block wholly in `F` that cannot be merged with its buddy inside `F`. */
  ghost predicate IsMax(F: set<nat>, q: nat, o: nat) {
    o <= MAX_ORDER && Full(F, q, o) && (o < MAX_ORDER ==> !Full(F, q / 2, o + 1))
  }

  /** Whether list `o` holds `p` as it should: once if (p, o) is a maximal block
      of `F`, and not at all otherwise. */
  ghost predicate Listed(ls: Lists, F: set<nat>, o: nat, p: nat) {
    o <= MAX_ORDER ==>
      multiset(ls[o])[p] == if Aligned(p, o) && IsMax(F, Shr(p, o), o) then 1 else 0
  }

  /** The lists hold each maximal block of `F` exactly once and nothing else. */
  ghost predicate Canon(ls: Lists, F: set<nat>) {
    forall o: nat, p: nat :: Listed(ls, F, o, p)
  }

  function Sibling(q: nat): nat {
    if q % 2 == 0 then q + 1 else q - 1
  }

  lemma PageKey(p: nat, o: nat)
    requires Aligned(p, o)
    ensures p == Shr(p, o) * Pow2(o)
    ensures forall x: nat :: x in Pages(p, o) <==> Shr(x, o) == Shr(p, o)
    ensures p in Pages(p, o)
  {
    ShrSplit(p, o);
    forall x: nat ensures x in Pages(p, o) <==> Shr(x, o) == Shr(p, o) {
      ShrBlock(x, Shr(p, o), o);
    }
  }

  lemma FirstPage(q: nat, o: nat)
    ensures Shr(q * Pow2(o), o) == q && Aligned(q * Pow2(o), o)
  {
    ShrMul(q, o, 0);
  }

  lemma SameBlock(p: nat, p': nat, o: nat)
    requires Aligned(p, o) && Aligned(p', o) && Shr(p, o) == Shr(p', o)
    ensures p == p'
  {
    PageKey(p, o);
    PageKey(p', o);
  }

  /** Aligned blocks that share a page are nested. */
  lemma Nested(x: nat, o: nat, m: nat)
    requires o <= m
    ensures Shr(x, m) == Shr(Shr(x, o), m - o)
  {
    ShrShr(x, o, m - o);
  }

  lemma HalfPages(p: nat, o: nat)
    ensures Pages(p, o + 1) == Pages(p, o) + Pages(p + Pow2(o), o)
    ensures Pages(p, o) !! Pages(p + Pow2(o), o)
  {
  }

  /** Going from a block to its two halves. */
  lemma Halves(p: nat, o: nat)
    requires Aligned(p, o + 1)
    ensures Aligned(p, o) && Shr(p, o) == 2 * Shr(p, o + 1)
    ensures Aligned(p + Pow2(o), o) && Shr(p + Pow2(o), o) == 2 * Shr(p, o + 1) + 1
    ensures Pages(p, o + 1) == Pages(p, o) + Pages(p + Pow2(o), o)
    ensures Pages(p, o) !! Pages(p + Pow2(o), o)
  {
    PageKey(p, o + 1);
    HalfKeys(p, o, Shr(p, o + 1));
    HalfPages(p, o);
  }

  lemma HalfKeys(p: nat, o: nat, q: nat)
    requires p == q * Pow2(o + 1)
    ensures Aligned(p, o) && Shr(p, o) == 2 * q
    ensures Aligned(p + Pow2(o), o) && Shr(p + Pow2(o), o) == 2 * q + 1
  {
    assert p == (2 * q) * Pow2(o) by { assert q * (2 * Pow2(o)) == (2 * q) * Pow2(o); }
    FirstPage(2 * q, o);
    assert p + Pow2(o) == (2 * q + 1) * Pow2(o);
    FirstPage(2 * q + 1, o);
  }

  /** The buddy of a block is the other half of its parent. */
  lemma BuddyFacts(p: nat, o: nat)
    requires Aligned(p, o)
    ensures var b := BuddyOf(p, o);
      && Aligned(b, o) && Shr(b, o) == Sibling(Shr(p, o))
      && Aligned(Min(p, b), o + 1) && Shr(Min(p, b), o + 1) == Shr(p, o) / 2
      && Pages(Min(p, b), o + 1) == Pages(p, o) + Pages(b, o)
      && Pages(p, o) !! Pages(b, o)
  {
    var q := Shr(p, o) / 2;
    FirstPage(q, o + 1);
    Halves(q * Pow2(o + 1), o);
    BuddyPlace(p, o, q * Pow2(o + 1));
  }

  /** A block and its buddy are the two halves of their parent. */
  lemma BuddyPlace(p: nat, o: nat, h: nat)
    requires Aligned(p, o) && h == Shr(p, o) / 2 * Pow2(o + 1)
    ensures if Shr(p, o) % 2 == 0 then p == h && BuddyOf(p, o) == h + Pow2(o)
      else p == h + Pow2(o) && BuddyOf(p, o) == h
  {
    XorBit(p, o);
    PageKey(p, o);
    Regroup(Shr(p, o), Pow2(o), 0);
  }

  lemma FullParts(F: set<nat>, q: nat, o: nat)
    ensures Full(F, q, o + 1) <==> Full(F, 2 * q, o) && Full(F, 2 * q + 1, o)
  {
    if Full(F, 2 * q, o) && Full(F, 2 * q + 1, o) {
      forall x: nat | Shr(x, o + 1) == q ensures x in F {
        assert Shr(x, o) == 2 * q || Shr(x, o) == 2 * q + 1;
      }
    }
    if Full(F, q, o + 1) {
      forall x: nat | Shr(x, o) == 2 * q || Shr(x, o) == 2 * q + 1 ensures x in F {
        assert Shr(x, o + 1) == q;
      }
    }
  }

  lemma FullInner(F: set<nat>, q: nat, o: nat, m: nat)
    requires o <= m && Full(F, Shr(q, m - o), m)
    ensures Full(F, q, o)
  {
    forall x: nat | Shr(x, o) == q ensures x in F {
      Nested(x, o, m);
    }
  }

  // ------------------------------------ adding and removing one maximal block

  /** `p`'s block is free of `G`, and adding it does not complete its parent. */
  ghost predicate Addable(G: set<nat>, p: nat, o: nat) {
    && o <= MAX_ORDER && Aligned(p, o) && G !! Pages(p, o)
    && (o < MAX_ORDER ==> !Full(G + Pages(p, o), Shr(p, o) / 2, o + 1))
  }

  /** Adding such a block adds exactly that block to the maximal blocks. */
  lemma AddMax(G: set<nat>, p: nat, o: nat, q': nat, o': nat)
    requires Addable(G, p, o) && o' <= MAX_ORDER
    ensures IsMax(G + Pages(p, o), q', o') <==>
            IsMax(G, q', o') || (q' == Shr(p, o) && o' == o)
  {
    var q := Shr(p, o);
    if o' <= o && Shr(q', o - o') == q {
      AddInside(G, p, o, q', o');
    } else if o' > o && Shr(q, o' - o) == q' {
      AddAround(G, p, o, q', o');
    } else {
      AddApart(G, p, o, q', o');
    }
  }

  lemma AddInside(G: set<nat>, p: nat, o: nat, q': nat, o': nat)
    requires Addable(G, p, o) && o' <= o && Shr(q', o - o') == Shr(p, o)
    ensures !IsMax(G, q', o')
    ensures IsMax(G + Pages(p, o), q', o') <==> q' == Shr(p, o) && o' == o
  {
    PageKey(p, o);
    FirstPage(q', o');
    Nested(q' * Pow2(o'), o', o);
    assert q' * Pow2(o') !in G;
    if o' < o {
      ShrHalf(q', o - o' - 1);
      FullInner(G + Pages(p, o), q' / 2, o' + 1, o);
    }
  }

  lemma AddAround(G: set<nat>, p: nat, o: nat, q': nat, o': nat)
    requires Addable(G, p, o) && o < o' <= MAX_ORDER && Shr(Shr(p, o), o' - o) == q'
    ensures !IsMax(G, q', o') && !IsMax(G + Pages(p, o), q', o')
  {
    PageKey(p, o);
    var F := G + Pages(p, o);
    ShrHalf(Shr(p, o), o' - o - 1);
    if Full(F, q', o') { FullInner(F, Shr(p, o) / 2, o + 1, o'); }
    Nested(p, o, o');
    assert p !in G;
  }

  lemma AddApart(G: set<nat>, p: nat, o: nat, q': nat, o': nat)
    requires Addable(G, p, o) && o' <= MAX_ORDER
    requires !(o' <= o && Shr(q', o - o') == Shr(p, o)) && !(o' > o && Shr(Shr(p, o), o' - o) == q')
    ensures IsMax(G + Pages(p, o), q', o') <==> IsMax(G, q', o')
  {
    PageKey(p, o);
    var q, F := Shr(p, o), G + Pages(p, o);
    Apart(q, o, q', o');
    if o' < MAX_ORDER {
      ParentGrows(G, p, o, q', o');
    }
  }

  /** If the parent of an unrelated block is full after the addition, it was before. */
  lemma ParentGrows(G: set<nat>, p: nat, o: nat, q': nat, o': nat)
    requires Addable(G, p, o) && o' < MAX_ORDER
    requires !(o' <= o && Shr(q', o - o') == Shr(p, o)) && !(o' > o && Shr(Shr(p, o), o' - o) == q')
    ensures Full(G + Pages(p, o), q' / 2, o' + 1) ==> Full(G, q' / 2, o' + 1)
  {
    PageKey(p, o);
    var q, F := Shr(p, o), G + Pages(p, o);
    if o' < o {
      ShrHalf(q', o - o' - 1);
    }
    if o' + 1 <= o && Shr(q' / 2, o - (o' + 1)) == q {
    } else if o' + 1 > o && Shr(q, o' + 1 - o) == q' / 2 {
      ShrHalf(q, o' - o);
      if Full(F, q' / 2, o' + 1) { FullInner(F, q / 2, o + 1, o' + 1); }
    } else {
      Apart(q, o, q' / 2, o' + 1);
    }
  }

  /** Blocks that are not nested share no page. */
  lemma Apart(q: nat, o: nat, q': nat, o': nat)
    requires !(o' <= o && Shr(q', o - o') == q) && !(o' > o && Shr(q, o' - o) == q')
    ensures forall x: nat :: Shr(x, o') == q' ==> Shr(x, o) != q
  {
    forall x: nat | Shr(x, o') == q' ensures Shr(x, o) != q {
      if o' <= o { Nested(x, o', o); } else { Nested(x, o, o'); }
    }
  }

  /** Pushing such a block keeps the lists canonical. */
  lemma CanonPush(ls: Lists, G: set<nat>, p: nat, o: nat)
    requires Canon(ls, G) && Addable(G, p, o)
    ensures Canon(Push(ls, o, p), G + Pages(p, o))
  {
    var F := G + Pages(p, o);
    PageKey(p, o);
    forall o': nat, p': nat | o' <= MAX_ORDER ensures Listed(Push(ls, o, p), F, o', p') {
      assert Listed(ls, G, o', p');
      AddMax(G, p, o, Shr(p', o'), o');
      if o' == o && Aligned(p', o) && Shr(p', o) == Shr(p, o) {
        SameBlock(p, p', o);
        assert !Full(G, Shr(p, o), o);
      }
    }
  }

  lemma ListedFull(ls: Lists, F: set<nat>, p: nat, o: nat)
    requires Canon(ls, F) && o <= MAX_ORDER && p in ls[o]
    ensures Aligned(p, o) && IsMax(F, Shr(p, o), o) && Pages(p, o) <= F
  {
    assert Listed(ls, F, o, p);
    assert p in multiset(ls[o]);
    PageKey(p, o);
  }

  /** Taking a listed block out keeps the lists canonical. */
  lemma CanonRemove(ls: Lists, F: set<nat>, p: nat, o: nat, l: seq<nat>)
    requires Canon(ls, F) && o <= MAX_ORDER && p in ls[o]
    requires multiset(l) == multiset(ls[o]) - multiset{p}
    ensures Aligned(p, o) && IsMax(F, Shr(p, o), o) && Pages(p, o) <= F
    ensures Canon(ls[o := l], F - Pages(p, o))
  {
    ListedFull(ls, F, p, o);
    PageKey(p, o);
    var G := F - Pages(p, o);
    assert G + Pages(p, o) == F;
    var ls' := ls[o := l];
    forall o': nat, p': nat | o' <= MAX_ORDER ensures Listed(ls', G, o', p') {
      assert Listed(ls, F, o', p');
      AddMax(G, p, o, Shr(p', o'), o');
      if o' == o && Aligned(p', o) && Shr(p', o) == Shr(p, o) {
        SameBlock(p, p', o);
        assert !Full(G, Shr(p, o), o);
      }
    }
  }

  lemma PopBag(l: seq<nat>)
    requires l != []
    ensures multiset(l[..|l| - 1]) == multiset(l) - multiset{l[|l| - 1]}
  {
    assert l == l[..|l| - 1] + [l[|l| - 1]];
  }

  lemma UpdateBag(l: seq<nat>, i: nat, v: nat)
    requires i < |l|
    ensures multiset(l[i := v]) == multiset(l) - multiset{l[i]} + multiset{v}
  {
  }

  lemma SwapRemoveBag(l: seq<nat>, i: nat)
    requires i < |l|
    ensures multiset(SwapRemove(l, i)) == multiset(l) - multiset{l[i]}
  {
    var last := l[|l| - 1];
    var m := l[i := last];
    UpdateBag(l, i, last);
    PopBag(m);
    assert m[|l| - 1] == last;
  }

  // ------------------------------------------------------------- operations

  lemma NotFull(F: set<nat>, x: nat, o: nat)
    requires x !in F
    ensures !Full(F, Shr(x, o), o)
  {
  }

  /** The upper half of a block being split does not complete the block. */
  lemma UpperHalf(G: set<nat>, b: nat, o: nat)
    requires o < MAX_ORDER && Aligned(b, o + 1) && G !! Pages(b, o + 1)
    ensures Aligned(b, o) && Addable(G, b + Pow2(o), o)
    ensures G + Pages(b + Pow2(o), o) !! Pages(b, o)
  {
    var r := b + Pow2(o);
    Halves(b, o);
    assert b in Pages(b, o) && b !in Pages(r, o);
    NotFull(G + Pages(r, o), b, o + 1);
  }

  lemma {:induction false} LowestPart(b: nat, o: nat, order: nat)
    requires order <= o && Aligned(b, o)
    ensures Aligned(b, order) && Pages(b, order) <= Pages(b, o)
    decreases o
  {
    if order < o {
      Halves(b, o - 1);
      LowestPart(b, o - 1, order);
    }
  }

  lemma Telescope(G: set<nat>, b: nat, o: nat, order: nat)
    requires order < o && Pages(b, order) <= Pages(b, o - 1)
    ensures Pages(b, o - 1) <= Pages(b, o)
    ensures G + (Pages(b, o) - Pages(b, order)) ==
            G + Pages(b + Pow2(o - 1), o - 1) + (Pages(b, o - 1) - Pages(b, order))
  {
    assert Pow2(o) == 2 * Pow2(o - 1);
    assert b in Pages(b, order);
    assert b + Pow2(order) - 1 in Pages(b, order);
  }

  /** One split: the upper half is listed, the lower half is still to be split. */
  lemma SplitOnce(ls: Lists, G: set<nat>, b: nat, o: nat, order: nat, H: set<nat>) returns (G1: set<nat>)
    requires order <= o < MAX_ORDER && Canon(ls, G) && Aligned(b, o + 1) && G !! Pages(b, o + 1)
    requires H == G + (Pages(b, o + 1) - Pages(b, order))
    ensures Canon(Push(ls, o, b + Pow2(o)), G1) && Aligned(b, o) && G1 !! Pages(b, o)
    ensures H == G1 + (Pages(b, o) - Pages(b, order))
  {
    UpperHalf(G, b, o);
    CanonPush(ls, G, b + Pow2(o), o);
    LowestPart(b, o, order);
    Telescope(G, b, o + 1, order);
    G1 := G + Pages(b + Pow2(o), o);
  }

  lemma {:induction false} SplitLists(ls: Lists, G: set<nat>, b: nat, o: nat, order: nat, H: set<nat>)
    requires order <= o <= MAX_ORDER && Canon(ls, G) && Aligned(b, o) && G !! Pages(b, o)
    requires H == G + (Pages(b, o) - Pages(b, order))
    ensures Canon(Split(ls, b, o, order), H)
    decreases o
  {
    if o > order {
      var G1 := SplitOnce(ls, G, b, o - 1, order, H);
      SplitLists(Push(ls, o - 1, b + Pow2(o - 1)), G1, b, o - 1, order, H);
      SplitStep(ls, b, o, order);
    } else {
      assert H == G;
    }
  }

  /** Splitting a block keeps the decomposition canonical, with the lowest part out. */
  lemma SplitCanon(ls: Lists, G: set<nat>, b: nat, o: nat, order: nat)
    requires order <= o <= MAX_ORDER && Canon(ls, G) && Aligned(b, o) && G !! Pages(b, o)
    ensures Aligned(b, order) && Pages(b, order) <= Pages(b, o)
    ensures Canon(Split(ls, b, o, order), G + (Pages(b, o) - Pages(b, order)))
  {
    LowestPart(b, o, order);
    SplitLists(ls, G, b, o, order, G + (Pages(b, o) - Pages(b, order)));
  }

  /** A block inside the free set lies in some listed block of at least its order. */
  lemma {:induction false} Enclosing(F: set<nat>, q: nat, o: nat) returns (m: nat)
    requires o <= MAX_ORDER && Full(F, q, o)
    ensures o <= m <= MAX_ORDER && IsMax(F, Shr(q, m - o), m)
    decreases MAX_ORDER - o
  {
    if IsMax(F, q, o) {
      m := o;
    } else {
      m := Enclosing(F, q / 2, o + 1);
      ShrHalf(q, m - o - 1);
    }
  }

  /** An empty scan means no free run; a listed block contains one. */
  lemma NothingListed(ls: Lists, F: set<nat>, q: nat, order: nat)
    requires Canon(ls, F) && order <= MAX_ORDER && Full(F, q, order)
    ensures FirstOrder(ls, order) <= MAX_ORDER
  {
    var m := Enclosing(F, q, order);
    var p := Shr(q, m - order) * Pow2(m);
    FirstPage(Shr(q, m - order), m);
    assert Listed(ls, F, m, p);
    assert p in multiset(ls[m]);
  }

  /** Completeness of `alloc`, and what it takes: it fails exactly when no
      aligned run of 2^order pages is free, and otherwise hands out such a run
      and leaves the canonical lists of the rest. */
  lemma AllocCanon(ls: Lists, F: set<nat>, order: nat)
    requires Canon(ls, F)
    ensures var (ls', r) := Allocated(ls, order);
      && (r.None? <==> order > MAX_ORDER || !exists q: nat :: Full(F, q, order))
      && (r.None? ==> ls' == ls)
      && (r.Some? ==>
          && order <= MAX_ORDER && Aligned(r.value, order) && Pages(r.value, order) <= F
          && Canon(ls', F - Pages(r.value, order)))
  {
    var o := FirstOrder(ls, order);
    if o > MAX_ORDER {
      forall q: nat | order <= MAX_ORDER && Full(F, q, order) ensures false {
        NothingListed(ls, F, q, order);
      }
    } else {
      TakeBlock(ls, F, o, order);
    }
  }

  lemma TakeBlock(ls: Lists, F: set<nat>, o: nat, order: nat)
    requires Canon(ls, F) && order <= o <= MAX_ORDER && ls[o] != []
    ensures var l := ls[o]; var b := l[|l| - 1];
      && Aligned(b, order) && Pages(b, order) <= F && Full(F, Shr(b, order), order)
      && Canon(Split(ls[o := l[..|l| - 1]], b, o, order), F - Pages(b, order))
  {
    var l := ls[o];
    var b := l[|l| - 1];
    ListedFull(ls, F, b, o);
    PopBag(l);
    CanonRemove(ls, F, b, o, l[..|l| - 1]);
    SplitCanon(ls[o := l[..|l| - 1]], F - Pages(b, o), b, o, order);
    assert F - Pages(b, o) + (Pages(b, o) - Pages(b, order)) == F - Pages(b, order);
    Nested(b, order, o);
    FullInner(F, Shr(b, order), order, o);
  }

  /** When the buddy is not free, the freed block does not complete its parent. */
  lemma BuddyMissing(G: set<nat>, p: nat, o: nat)
    requires o < MAX_ORDER && Aligned(p, o) && G !! Pages(p, o)
    requires !IsMax(G, Shr(BuddyOf(p, o), o), o)
    ensures Addable(G, p, o)
  {
    var b, h := BuddyOf(p, o), Shr(p, o) / 2;
    BuddyFacts(p, o);
    FullParts(G + Pages(p, o), h, o);
    FullBuddy(G, p, o);
    NotFull(G, p, o + 1);
  }

  lemma FullBuddy(G: set<nat>, p: nat, o: nat)
    requires Aligned(p, o)
    ensures Full(G + Pages(p, o), Sibling(Shr(p, o)), o) ==> Full(G, Sibling(Shr(p, o)), o)
  {
    PageKey(p, o);
  }

  lemma Unlisted(ls: Lists, F: set<nat>, p: nat, o: nat)
    requires Canon(ls, F) && o <= MAX_ORDER && p !in ls[o] && Aligned(p, o)
    ensures !IsMax(F, Shr(p, o), o)
  {
    assert Listed(ls, F, o, p);
    assert p !in multiset(ls[o]);
  }

  /** Coalescing on `free` gives the canonical lists of the larger free set. */
  lemma {:induction false} FreeCanon(ls: Lists, G: set<nat>, p: nat, o: nat)
    requires Canon(ls, G) && o <= MAX_ORDER && Aligned(p, o) && G !! Pages(p, o)
    ensures Canon(Freed(ls, p, o), G + Pages(p, o))
    decreases MAX_ORDER - o
  {
    var b := BuddyOf(p, o);
    if o == MAX_ORDER {
      CanonPush(ls, G, p, o);
    } else if b !in ls[o] {
      BuddyFacts(p, o);
      Unlisted(ls, G, b, o);
      BuddyMissing(G, p, o);
      CanonPush(ls, G, p, o);
    } else {
      var i := Position(ls[o], b, 0).value;
      var ls' := ls[o := SwapRemove(ls[o], i)];
      SwapRemoveBag(ls[o], i);
      CanonRemove(ls, G, b, o, ls'[o]);
      BuddyFacts(p, o);
      MergedApart(G, p, o);
      FreeCanon(ls', G - Pages(b, o), Min(p, b), o + 1);
    }
  }

  lemma MergedApart(G: set<nat>, p: nat, o: nat)
    requires Aligned(p, o) && G !! Pages(p, o) && Pages(BuddyOf(p, o), o) <= G
    ensures var b := BuddyOf(p, o);
      && G - Pages(b, o) !! Pages(Min(p, b), o + 1)
      && G - Pages(b, o) + Pages(Min(p, b), o + 1) == G + Pages(p, o)
  {
    BuddyFacts(p, o);
  }
}
