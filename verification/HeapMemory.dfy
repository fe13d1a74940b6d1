/** Byte-addressed memory with little-endian 64-bit words. */
module HeapMemory {
  import opened Bits

  type Byte = b: nat | b < 256 witness 0

  /** Bytes by address; bytes never written read as 0. */
  type Memory = map<nat, Byte>

  const WORD: nat := 8
  const WORD_LIMIT: nat := 0x1_0000_0000_0000_0000

  function Get(mem: Memory, a: nat): Byte {
    if a in mem then mem[a] else 0
  }

  /** The little-endian number in the bytes `a..end`. */
  function GetBytes(mem: Memory, a: nat, end: nat): nat
    decreases end - a
  {
    if a >= end then 0 else Get(mem, a) + 256 * GetBytes(mem, a + 1, end)
  }

  function PutBytes(mem: Memory, a: nat, v: nat, end: nat): Memory
    decreases end - a
  {
    if a >= end then mem else PutBytes(mem[a := v % 256], a + 1, v / 256, end)
  }

  function ReadWord(mem: Memory, a: nat): nat {
    GetBytes(mem, a, a + WORD)
  }

  function WriteWord(mem: Memory, a: nat, v: nat): Memory {
    PutBytes(mem, a, v, a + WORD)
  }

  /** The two memories agree on the bytes `lo..hi`. */
  ghost predicate SameOn(mem: Memory, mem': Memory, lo: nat, hi: nat) {
    forall x: nat :: lo <= x < hi ==> Get(mem', x) == Get(mem, x)
  }

  /** The two memories agree outside the bytes `lo..hi`. */
  ghost predicate SameOutside(mem: Memory, mem': Memory, lo: nat, hi: nat) {
    forall x: nat :: !(lo <= x < hi) ==> Get(mem', x) == Get(mem, x)
  }

  lemma {:induction false} GetFrame(mem: Memory, mem': Memory, a: nat, end: nat)
    requires SameOn(mem, mem', a, end)
    ensures GetBytes(mem', a, end) == GetBytes(mem, a, end)
    decreases end - a
  {
    if a < end { GetFrame(mem, mem', a + 1, end); }
  }

  lemma {:induction false} PutFrame(mem: Memory, a: nat, v: nat, end: nat)
    ensures SameOutside(mem, PutBytes(mem, a, v, end), a, end)
    decreases end - a
  {
    if a < end { PutFrame(mem[a := v % 256], a + 1, v / 256, end); }
  }

  lemma {:induction false} PutGet(mem: Memory, a: nat, v: nat, end: nat)
    requires a <= end && v < Power256(end - a)
    ensures GetBytes(PutBytes(mem, a, v, end), a, end) == v
    decreases end - a
  {
    if a < end {
      PutFrame(mem[a := v % 256], a + 1, v / 256, end);
      PutGet(mem[a := v % 256], a + 1, v / 256, end);
    }
  }

  /** A written word reads back, and nothing else changes. */
  lemma WriteRead(mem: Memory, a: nat, v: nat)
    requires v < WORD_LIMIT
    ensures ReadWord(WriteWord(mem, a, v), a) == v
    ensures SameOutside(mem, WriteWord(mem, a, v), a, a + WORD)
  {
    WordSizes();
    PutGet(mem, a, v, a + WORD);
    PutFrame(mem, a, v, a + WORD);
  }
}
