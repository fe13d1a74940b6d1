/** The free list as it lies in memory: each free region starts with its header,
    the size word and the address of the next header, 0 for none. */
module HeapList {
  import opened HeapMemory
  import opened Heap
  import opened HeapRuns

  /** The header chain from address `p` lists exactly the regions `bs`. */
  ghost predicate ListAt(mem: Memory, p: nat, bs: seq<Region>)
    decreases |bs|
  {
    if bs == [] then p == 0
    else p != 0 && p == bs[0].start && ReadWord(mem, p) == bs[0].size && ListAt(mem, ReadWord(mem, p + WORD), bs[1..])
  }

  /** The two memories hold the same header at `p`. */
  ghost predicate SameHeader(mem: Memory, mem': Memory, p: nat) {
    ReadWord(mem', p) == ReadWord(mem, p) && ReadWord(mem', p + WORD) == ReadWord(mem, p + WORD)
  }

  lemma HeaderFrame(mem: Memory, mem': Memory, p: nat)
    requires SameOn(mem, mem', p, p + MIN_BLOCK)
    ensures SameHeader(mem, mem', p)
  {
    GetFrame(mem, mem', p, p + WORD);
    GetFrame(mem, mem', p + WORD, p + WORD + WORD);
  }

  lemma {:induction false} ListFrame(mem: Memory, mem': Memory, p: nat, bs: seq<Region>)
    requires ListAt(mem, p, bs)
    requires forall r :: r in bs ==> SameHeader(mem, mem', r.start)
    ensures ListAt(mem', p, bs)
    decreases |bs|
  {
    if bs != [] {
      assert bs[0] in bs;
      ListFrame(mem, mem', ReadWord(mem, p + WORD), bs[1..]);
    }
  }

  /** The chain from the `i`-th header on. */
  lemma ListStep(mem: Memory, p: nat, bs: seq<Region>, i: nat)
    requires i < |bs| && ListAt(mem, p, bs[i..])
    ensures p == bs[i].start && p != 0 && ReadWord(mem, p) == bs[i].size
    ensures ListAt(mem, ReadWord(mem, p + WORD), bs[i + 1..])
  {
    assert bs[i..][1..] == bs[i + 1..];
  }

  lemma WithoutTail(bs: seq<Region>, i: nat)
    requires 0 < i < |bs|
    ensures Without(bs, i) != [] && Without(bs, i)[0] == bs[0]
    ensures Without(bs, i)[1..] == Without(bs[1..], i - 1)
    ensures bs[1..][i..] == bs[i + 1..]
  {
  }

  /** Pointing the header before `bs[i]` past it removes it from the chain. */
  lemma {:induction false} ListUnlink(mem: Memory, mem': Memory, p: nat, bs: seq<Region>, i: nat, next: nat)
    requires 0 < i < |bs| && ListAt(mem, p, bs) && ListAt(mem, next, bs[i + 1..])
    requires ReadWord(mem', bs[i - 1].start) == bs[i - 1].size && ReadWord(mem', bs[i - 1].start + WORD) == next
    requires forall j :: 0 <= j < |bs| && j != i - 1 && j != i ==> SameHeader(mem, mem', bs[j].start)
    ensures ListAt(mem', p, Without(bs, i))
    decreases |bs|
  {
    WithoutTail(bs, i);
    ListStep(mem, p, bs, 0);
    if i == 1 {
      assert bs[1..][1..] == bs[2..] && Without(bs[1..], 0) == bs[2..];
      ListFrame(mem, mem', next, bs[2..]);
    } else {
      assert SameHeader(mem, mem', bs[0].start);
      ListUnlink(mem, mem', ReadWord(mem, p + WORD), bs[1..], i - 1, next);
    }
  }

  /** Regions of a safe heap do not overlap. */
  lemma FreeApart(s: System, arena: set<nat>, top: nat, i: nat, j: nat)
    requires Safe(s, arena, top) && i < |s.free| && j < |s.free| && i != j
    ensures s.free[i].start + s.free[i].size <= s.free[j].start || s.free[j].start + s.free[j].size <= s.free[i].start
  {
    assert s.free[i] in s.free && s.free[j] in s.free;
    Disjoint(s, arena, top, Max(s.free[i].start, s.free[j].start));
  }

  /** No listed header lies in the `size` bytes from `addr`. */
  ghost predicate Clear(bs: seq<Region>, addr: nat, size: nat) {
    forall r :: r in bs ==> r.start + MIN_BLOCK <= addr || addr + size <= r.start
  }

  /** A header written for a region that is clear of the list goes in front of it. */
  lemma ListPush(mem: Memory, mem': Memory, p: nat, bs: seq<Region>, r: Region)
    requires ListAt(mem, p, bs) && Clear(bs, r.start, MIN_BLOCK) && r.start > 0
    requires SameOutside(mem, mem', r.start, r.start + MIN_BLOCK)
    requires ReadWord(mem', r.start) == r.size && ReadWord(mem', r.start + WORD) == p
    ensures ListAt(mem', r.start, [r] + bs)
  {
    forall q | q in bs ensures SameHeader(mem, mem', q.start) { HeaderFrame(mem, mem', q.start); }
    ListFrame(mem, mem', p, bs);
    assert ([r] + bs)[1..] == bs;
  }

  /** Writing both header words. */
  function WriteHeader(mem: Memory, p: nat, size: nat, next: nat): Memory {
    WriteWord(WriteWord(mem, p, size), p + WORD, next)
  }

  lemma HeaderWritten(mem: Memory, p: nat, size: nat, next: nat)
    requires size < WORD_LIMIT && next < WORD_LIMIT
    ensures ReadWord(WriteHeader(mem, p, size, next), p) == size
    ensures ReadWord(WriteHeader(mem, p, size, next), p + WORD) == next
    ensures SameOutside(mem, WriteHeader(mem, p, size, next), p, p + MIN_BLOCK)
  {
    var m := WriteWord(mem, p, size);
    WriteRead(mem, p, size);
    WriteRead(m, p + WORD, next);
    GetFrame(m, WriteWord(m, p + WORD, next), p, p + WORD);
  }
}
