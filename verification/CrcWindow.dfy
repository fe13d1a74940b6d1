/** What the CRC detects: every change confined to four consecutive bytes. */
module CrcWindow {
  import opened Bits
  import opened Crc

  /** The bytes as one number, first byte lowest. */
  function Pack(data: seq<Byte>): nat
    decreases |data|
  {
    if data == [] then 0 else data[0] + 0x100 * Pack(data[1..])
  }

  /** An even register is only moved down. */
  lemma ShiftEven(v: Word)
    requires v % 2 == 0
    ensures Shift(v) == v / 2
  {
    ShiftValue(v);
  }

  /** `n` shifts only move down a register whose lowest `n` bits are clear. */
  lemma {:induction false} ShiftsHigh(v: nat, n: nat)
    requires v * Pow2(n) < 0x1_0000_0000
    ensures v < 0x1_0000_0000 && Shifts(v * Pow2(n), n) == v
  {
    MulMono(1, Pow2(n), v);
    if n > 0 {
      Doubled(v, n);
      ShiftEven(v * Pow2(n));
      ShiftsHigh(v, n - 1);
    }
  }

  lemma {:induction false} PackBound(data: seq<Byte>)
    ensures |data| <= 1 ==> Pack(data) < 0x100
    ensures |data| <= 2 ==> Pack(data) < 0x1_0000
    ensures |data| <= 3 ==> Pack(data) < 0x100_0000
    ensures |data| <= 4 ==> Pack(data) < 0x1_0000_0000
    decreases |data|
  {
    if data != [] { PackBound(data[1..]); }
  }

  lemma {:induction false} PackZero(data: seq<Byte>)
    ensures Pack(data) == 0 <==> AllZero(data)
    decreases |data|
  {
    if data != [] {
      PackZero(data[1..]);
      if AllZero(data) { assert AllZero(data[1..]); }
      if data[0] == 0 && AllZero(data[1..]) {
        assert forall i :: 0 < i < |data| ==> data[i] == data[1..][i - 1];
      }
    }
  }

  /** A low byte and higher bits: sum and exclusive or agree. */
  lemma XorBelow(p: nat, d: Byte)
    ensures Xor(d, 0x100 * p) == d + 0x100 * p
  {
    assert Pow2(8) == 0x100;
    XorDisjoint(p, d, 8);
  }

  lemma {:induction false} XorDisjoint(a: nat, b: nat, k: nat)
    requires b < Pow2(k)
    ensures Xor(b, a * Pow2(k)) == b + a * Pow2(k)
    decreases k
  {
    if k > 0 && a > 0 {
      Doubled(a, k);
      XorDisjoint(a, b / 2, k - 1);
      XorOverEven(b, a * Pow2(k), a * Pow2(k - 1));
    }
  }

  lemma XorOverEven(b: nat, m: nat, h: nat)
    requires m == 2 * h && Xor(b / 2, h) == b / 2 + h
    ensures Xor(b, m) == b + m
  {
    XorDigit(b, m);
  }

  /** Up to four bytes act like one number put into the register at once. */
  lemma {:induction false} FoldPack(c: Word, data: seq<Byte>)
    requires |data| <= 4
    ensures Pack(data) < 0x1_0000_0000
    ensures Fold(c, data) == Shifts(XorWord(c, Pack(data)), 8 * |data|)
    decreases |data|
  {
    PackBound(data);
    if data == [] {
      XorIdentity(c);
    } else {
      var d, p := data[0], Pack(data[1..]);
      PackBound(data[1..]);
      FoldPack(Shifts(XorWord(c, d), 8), data[1..]);
      PackStep(c, d, p);
      ShiftsAdd(XorWord(c, Pack(data)), 8, 8 * |data[1..]|);
    }
  }

  lemma HighShifts(p: nat)
    requires p < 0x100_0000
    ensures Shifts(0x100 * p, 8) == p
  {
    assert Pow2(8) == 0x100;
    ShiftsHigh(p, 8);
  }

  lemma ShiftsApart(c: Word, d: Word, h: Word, n: nat)
    requires d + h < 0x1_0000_0000 && Xor(d, h) == d + h
    ensures Shifts(XorWord(c, d + h), n) == XorWord(Shifts(XorWord(c, d), n), Shifts(h, n))
  {
    XorAssoc(c, d, h);
    ShiftsLinear(XorWord(c, d), h, n);
  }

  /** Eight turns consume one byte; the bytes behind it move into its place. */
  lemma PackStep(c: Word, d: Byte, p: nat)
    requires p < 0x100_0000
    ensures Shifts(XorWord(c, d + 0x100 * p), 8) == XorWord(Shifts(XorWord(c, d), 8), p)
  {
    XorBelow(p, d);
    HighShifts(p);
    ShiftsApart(c, d, 0x100 * p, 8);
  }

  // ------------------------------------------------------------------ windows

  /** Only bytes `lo..hi` may differ. */
  predicate SameOutside(x: seq<Byte>, y: seq<Byte>, lo: nat, hi: nat) {
    |x| == |y| && lo <= hi <= |x| && x[..lo] == y[..lo] && x[hi..] == y[hi..]
  }

  lemma {:induction false} DiffSame(x: seq<Byte>)
    ensures AllZero(Diff(x, x))
  {
    forall i | 0 <= i < |x| ensures Diff(x, x)[i] == 0 { XorZero(x[i], x[i]); }
  }

  lemma SplitInThree(x: seq<Byte>, lo: nat, hi: nat)
    requires lo <= hi <= |x|
    ensures x == x[..lo] + (x[lo..hi] + x[hi..])
  {
  }

  /** Different registers stay different through equal data. */
  lemma SameTail(a: Word, b: Word, z: seq<Byte>)
    ensures Fold(a, z) == Fold(b, z) <==> a == b
  {
    FoldLinear(a, b, z, z);
    DiffSame(z);
    FoldZeros(XorWord(a, b), Diff(z, z));
    XorZero(Fold(a, z), Fold(b, z));
    XorZero(a, b);
  }

  /** Whether two inputs have the same register depends only on their difference
      inside the window, whatever surrounds it. */
  lemma WindowRegister(c: Word, x: seq<Byte>, y: seq<Byte>, lo: nat, hi: nat)
    requires SameOutside(x, y, lo, hi)
    ensures Fold(c, x) == Fold(c, y) <==> Fold(0, Diff(x[lo..hi], y[lo..hi])) == 0
  {
    var c1, z := Fold(c, x[..lo]), x[hi..];
    SplitInThree(x, lo, hi);
    SplitInThree(y, lo, hi);
    FoldAppend(c, x[..lo], x[lo..hi] + z);
    FoldAppend(c, y[..lo], y[lo..hi] + z);
    FoldAppend(c1, x[lo..hi], z);
    FoldAppend(c1, y[lo..hi], z);
    SameTail(Fold(c1, x[lo..hi]), Fold(c1, y[lo..hi]), z);
    XorZero(c1, c1);
    FoldLinear(c1, c1, x[lo..hi], y[lo..hi]);
    XorZero(Fold(c1, x[lo..hi]), Fold(c1, y[lo..hi]));
  }

  lemma {:induction false} DiffZero(x: seq<Byte>, y: seq<Byte>)
    requires |x| == |y|
    ensures AllZero(Diff(x, y)) <==> x == y
  {
    forall i | 0 <= i < |x| ensures Diff(x, y)[i] == 0 <==> x[i] == y[i] { XorZero(x[i], y[i]); }
  }

  lemma ShortWindow(w: seq<Byte>)
    requires |w| <= 4
    ensures Fold(0, w) == 0 <==> AllZero(w)
  {
    FoldPack(0, w);
    XorIdentity(Pack(w));
    ShiftsZero(Pack(w), 8 * |w|);
    PackZero(w);
  }

  /** Inputs of any equal length that differ at most in four consecutive bytes have
      the same checksum exactly when they are equal. */
  lemma WindowDetected(x: seq<Byte>, y: seq<Byte>, lo: nat, hi: nat)
    requires SameOutside(x, y, lo, hi) && hi - lo <= 4
    ensures Crc32(x) == Crc32(y) <==> x == y
  {
    WindowRegister(ONES, x, y, lo, hi);
    ShortWindow(Diff(x[lo..hi], y[lo..hi]));
    DiffZero(x[lo..hi], y[lo..hi]);
    SplitInThree(x, lo, hi);
    SplitInThree(y, lo, hi);
  }

  /** The generator polynomial laid out over five bytes. */
  const GENERATOR_BYTES: seq<Byte> := [0x41, 0x06, 0x71, 0xDB, 0x01]

  /** Four is the best possible: five bytes that differ by the generator polynomial
      are never told apart, at any position of any input. */
  lemma FiveMissed(x: seq<Byte>, y: seq<Byte>, lo: nat)
    requires SameOutside(x, y, lo, lo + 5) && Diff(x[lo..lo + 5], y[lo..lo + 5]) == GENERATOR_BYTES
    ensures x != y && Crc32(x) == Crc32(y)
  {
    WindowRegister(ONES, x, y, lo, lo + 5);
    GeneratorVanishes();
    DiffZero(x[lo..lo + 5], y[lo..lo + 5]);
    assert GENERATOR_BYTES[0] != 0;
  }

  /** The first 32 turns on the generator leave a single one in the lowest place. */
  lemma FirstFour()
    ensures Shifts(0xDB71_0641, 32) == 1
  {
    ShiftValue(0xDB71_0641);
    HalfPoly();
    WordPower();
    assert Pow2(32) == 2 * Pow2(31);
    ShiftsHigh(1, 31);
  }

  lemma HalfPoly()
    ensures Xor(0x6DB8_8320, POLY) == 0x8000_0000
  {
    XorBit(0x6DB8_8320, 31);
    WordPower();
    assert Pow2(32) == 2 * Pow2(31);
    ShrBlock(0x6DB8_8320, 0, 31);
    XorAssoc(0x6DB8_8320, 0x6DB8_8320, 0x8000_0000);
    XorZero(0x6DB8_8320, 0x6DB8_8320);
  }

  lemma GeneratorPacked()
    ensures Pack([0x41, 0x06, 0x71, 0xDB]) == 0xDB71_0641
  {
    var a: seq<Byte>, b: seq<Byte>, c: seq<Byte> := [0x06, 0x71, 0xDB], [0x71, 0xDB], [0xDB];
    assert ([0x41] + a)[1..] == a && a[1..] == b && b[1..] == c && c[1..] == [];
    assert Pack(c) == 0xDB;
    assert Pack(b) == 0xDB71;
    assert Pack(a) == 0xDB_7106;
  }

  lemma GeneratorVanishes()
    ensures Fold(0, GENERATOR_BYTES) == 0
  {
    var g: seq<Byte>, last: seq<Byte> := [0x41, 0x06, 0x71, 0xDB], [0x01];
    assert GENERATOR_BYTES == g + last;
    FoldAppend(0, g, last);
    FoldPack(0, g);
    GeneratorPacked();
    XorIdentity(0xDB71_0641);
    FirstFour();
    XorZero(1, 1);
    ShiftsZero(0, 8);
    assert last[1..] == [];
  }
}
