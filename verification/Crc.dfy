/** CRC-32 as the file system computes it, bit by bit on a 32-bit register. */
module Crc {
  import opened Bits

  type Byte = b: nat | b < 0x100 witness 0

  /** A 32-bit word. */
  type Word = w: nat | w < 0x1_0000_0000 witness 0

  const POLY: Word := 0xEDB8_8320
  const ONES: Word := 0xFFFF_FFFF

  lemma WordPower()
    ensures Pow2(32) == 0x1_0000_0000 && Pow2(8) == 0x100
  {
    assert Pow2(8) == 0x100;
    Pow2Add(8, 8);
    Pow2Add(16, 16);
  }

  /** `a ^ b` on words. */
  function XorWord(a: Word, b: Word): Word {
    WordPower();
    XorBound(a, b, 32);
    Xor(a, b)
  }

  /** One turn of the inner loop. */
  function Shift(crc: Word): Word {
    ShrOne(crc);
    if And(crc, 1) != 0 then XorWord(Shr(crc, 1), POLY) else Shr(crc, 1)
  }

  function Shifts(crc: Word, n: nat): Word
    decreases n, crc
  {
    if n == 0 then crc else Shifts(Shift(crc), n - 1)
  }

  /** The register after all bytes. */
  function Fold(crc: Word, data: seq<Byte>): Word
    decreases |data|
  {
    if data == [] then crc else Fold(Shifts(XorWord(crc, data[0]), 8), data[1..])
  }

  /** `!crc` on 32 bits. */
  function Complement(crc: Word): Word {
    ONES - crc
  }

  function Crc32(data: seq<Byte>): Word {
    Complement(Fold(ONES, data))
  }

  /** The inner loop: `n` turns for one byte. */
  method ShiftBits(start: Word, n: nat) returns (crc: Word)
    ensures crc == Shifts(start, n)
  {
    crc := start;
    for j := 0 to n
      invariant Shifts(crc, n - j) == Shifts(start, n)
    {
      ShrOne(crc);
      if And(crc, 1) != 0 {
        crc := XorWord(Shr(crc, 1), 0xEDB8_8320);
      } else {
        crc := Shr(crc, 1);
      }
    }
  }

  /** The loop over the bytes. */
  method ComputeCrc32(data: seq<Byte>) returns (r: Word)
    ensures r == Crc32(data)
  {
    var crc: Word := 0xFFFF_FFFF;
    for k := 0 to |data|
      invariant Fold(crc, data[k..]) == Fold(ONES, data)
    {
      crc := ShiftBits(XorWord(crc, data[k]), 8);
      assert data[k..][1..] == data[k + 1..];
    }
    r := Complement(crc);
  }

  // ---------------------------------------------------------------- the step

  lemma ShiftValue(crc: Word)
    ensures Shift(crc) == if crc % 2 == 1 then Xor(crc / 2, POLY) else crc / 2
  {
    AndOne(crc);
    ShrOne(crc);
  }

  lemma XorIdentity(a: nat)
    ensures Xor(a, 0) == a && Xor(0, a) == a
  {
  }

  /** The step is linear over exclusive or. */
  lemma ShiftLinear(a: Word, b: Word)
    ensures Shift(XorWord(a, b)) == XorWord(Shift(a), Shift(b))
  {
    ShiftValue(a);
    ShiftValue(b);
    ShiftValue(XorWord(a, b));
    XorHalf(a, b);
    var p, q := a / 2, b / 2;
    if a % 2 == 1 && b % 2 == 1 {
      XorSwap(p, POLY, q, POLY);
      XorZero(POLY, POLY);
      XorIdentity(Xor(p, q));
    } else if a % 2 == 1 {
      XorAssoc(p, POLY, q);
      XorComm(POLY, q);
      XorAssoc(p, q, POLY);
    } else if b % 2 == 1 {
      XorAssoc(p, q, POLY);
    }
  }

  lemma {:induction false} ShiftsLinear(a: Word, b: Word, n: nat)
    ensures Shifts(XorWord(a, b), n) == XorWord(Shifts(a, n), Shifts(b, n))
    decreases n, a
  {
    if n > 0 {
      ShiftLinear(a, b);
      ShiftsLinear(Shift(a), Shift(b), n - 1);
    }
  }

  /** No two registers are shifted to the same one. */
  lemma ShiftInjective(a: Word, b: Word)
    requires Shift(a) == Shift(b)
    ensures a == b
  {
    ShiftLinear(a, b);
    XorZero(Shift(a), Shift(b));
    ShiftZero(XorWord(a, b));
    XorZero(a, b);
  }

  lemma ShiftZero(a: Word)
    ensures Shift(a) == 0 <==> a == 0
  {
    ShiftValue(a);
    XorZero(a / 2, POLY);
  }

  lemma {:induction false} ShiftsZero(a: Word, n: nat)
    ensures Shifts(a, n) == 0 <==> a == 0
    decreases n, a
  {
    if n > 0 {
      ShiftZero(a);
      ShiftsZero(Shift(a), n - 1);
    }
  }

  lemma {:induction false} ShiftsAdd(crc: Word, m: nat, n: nat)
    ensures Shifts(Shifts(crc, m), n) == Shifts(crc, m + n)
    decreases m, crc
  {
    if m > 0 { ShiftsAdd(Shift(crc), m - 1, n); }
  }

  // ------------------------------------------------------- linearity over data

  lemma {:induction false} FoldAppend(crc: Word, a: seq<Byte>, b: seq<Byte>)
    ensures Fold(crc, a + b) == Fold(Fold(crc, a), b)
    decreases |a|
  {
    if a == [] {
      assert a + b == b;
    } else {
      FoldAppend(Shifts(XorWord(crc, a[0]), 8), a[1..], b);
      assert (a + b)[1..] == a[1..] + b;
    }
  }

  function XorByte(a: Byte, b: Byte): Byte {
    WordPower();
    XorBound(a, b, 8);
    Xor(a, b)
  }

  /** Bytewise difference. */
  function Diff(a: seq<Byte>, b: seq<Byte>): (r: seq<Byte>)
    requires |a| == |b|
    ensures |r| == |a| && forall i :: 0 <= i < |a| ==> r[i] == XorByte(a[i], b[i])
  {
    if a == [] then [] else [XorByte(a[0], b[0])] + Diff(a[1..], b[1..])
  }

  /** The difference of two registers is the register of the difference. */
  lemma {:induction false} FoldLinear(a: Word, b: Word, x: seq<Byte>, y: seq<Byte>)
    requires |x| == |y|
    ensures Fold(XorWord(a, b), Diff(x, y)) == XorWord(Fold(a, x), Fold(b, y))
    decreases |x|
  {
    if x != [] {
      XorSwap(a, x[0], b, y[0]);
      ShiftsLinear(XorWord(a, x[0]), XorWord(b, y[0]), 8);
      FoldLinear(Shifts(XorWord(a, x[0]), 8), Shifts(XorWord(b, y[0]), 8), x[1..], y[1..]);
      assert Diff(x, y)[1..] == Diff(x[1..], y[1..]);
    }
  }

  predicate AllZero(data: seq<Byte>) {
    forall i :: 0 <= i < |data| ==> data[i] == 0
  }

  /** Zero bytes neither create nor destroy a difference. */
  lemma {:induction false} FoldZeros(c: Word, data: seq<Byte>)
    requires AllZero(data)
    ensures Fold(c, data) == 0 <==> c == 0
    decreases |data|
  {
    if data != [] {
      ShiftsZero(c, 8);
      FoldZeros(Shifts(c, 8), data[1..]);
    }
  }
}
