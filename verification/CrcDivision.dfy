/** The CRC loop as polynomial division over GF(2), section 3.2.9 of IEEE 802.3.
    A polynomial is the sequence of its coefficients, highest power first. */
module CrcDivision {
  import opened Bits
  import opened Crc

  type Poly = seq<bool>

  function Zeros(n: nat): (p: Poly)
    ensures |p| == n && forall i :: 0 <= i < n ==> !p[i]
  {
    seq(n, i => false)
  }

  function Ones(n: nat): (p: Poly)
    ensures |p| == n && forall i :: 0 <= i < n ==> p[i]
  {
    seq(n, i => true)
  }

  /** Addition of two polynomials written with equally many coefficients. */
  function Add(a: Poly, b: Poly): (p: Poly)
    requires |a| == |b|
    ensures |p| == |a| && forall i :: 0 <= i < |a| ==> p[i] == (a[i] != b[i])
  {
    seq(|a|, i requires 0 <= i < |a| => a[i] != b[i])
  }

  /** The lowest `n` bits of a number, lowest first.  For the register the lowest bit
      is the coefficient of x^31, so this is the bit-reflected reading. */
  function BitsOf(v: nat, n: nat): (p: Poly)
    ensures |p| == n
    decreases n, v
  {
    if n == 0 then [] else [v % 2 == 1] + BitsOf(v / 2, n - 1)
  }

  /** The message: every byte is sent lowest bit first. */
  function Message(data: seq<Byte>): (p: Poly)
    ensures |p| == 8 * |data|
    decreases |data|
  {
    if data == [] then [] else BitsOf(data[0], 8) + Message(data[1..])
  }

  /** x^32 + x^26 + x^23 + x^22 + x^16 + x^12 + x^11 + x^10 + x^8 + x^7 + x^5 + x^4 + x^2 + x + 1:
      x^32, then one line for each byte of lower powers. */
  const GENERATOR: Poly :=
    [true] +
    (([false, false, false, false] + [false, true, false, false]) +
     (([true, true, false, false] + [false, false, false, true]) +
      (([false, false, false, true] + [true, true, false, true]) +
       ([true, false, true, true] + [false, true, true, true]))))

  /** What is divided: the message times x^32, its first 32 bits complemented.  For a
      message shorter than that the ones reach into the appended zeros. */
  function Dividend(bits: Poly): (p: Poly)
    ensures |p| == |bits| + 32
  {
    Add(bits + Zeros(32), Ones(32) + Zeros(|bits|))
  }

  /** A divisor of degree 32 with leading coefficient one. */
  type Divisor = g: Poly | |g| == 33 && g[0] witness [true] + Zeros(32)

  /** One row of schoolbook multiplication. */
  function Row(n: nat, b: bool, g: Divisor): (p: Poly)
    ensures |p| == n + 33
  {
    Zeros(n) + if b then g else Zeros(33)
  }

  /** The quotient `q` times `g`, by schoolbook multiplication. */
  function Times(q: Poly, g: Divisor): (p: Poly)
    ensures |p| == |q| + 32
    decreases |q|
  {
    if q == [] then Zeros(32) else
    var n := |q| - 1;
    Add(Times(q[..n], g) + [false], Row(n, q[n], g))
  }

  /** `q` and `r` are quotient and remainder of `a` by `g`. */
  ghost predicate Divides(a: Poly, q: Poly, r: Poly, g: Divisor) {
    |a| == |q| + 32 && |r| == 32 && a == Add(Times(q, g), Zeros(|q|) + r)
  }

  ghost predicate IsRemainder(a: Poly, r: Poly, g: Divisor) {
    exists q: Poly :: Divides(a, q, r, g)
  }

  // ------------------------------------------------------- one bit at a time

  /** The register with one message bit entering at the x^31 end. */
  function Enter(c: Word, b: bool): Word {
    Shift(XorWord(c, if b then 1 else 0))
  }

  function Register(c: Word, bits: Poly): Word
    decreases |bits|
  {
    if bits == [] then c else Register(Enter(c, bits[0]), bits[1..])
  }

  lemma {:induction false} RegisterAppend(c: Word, a: Poly, b: Poly)
    ensures Register(c, a + b) == Register(Register(c, a), b)
    decreases |a|
  {
    if a == [] {
      assert a + b == b;
    } else {
      RegisterAppend(Enter(c, a[0]), a[1..], b);
      assert (a + b)[1..] == a[1..] + b;
    }
  }

  /** Entering the lowest bit first moves the other bits one place up to the end. */
  lemma EnterRest(c: Word, v: Word)
    ensures Shift(XorWord(c, v)) == XorWord(Enter(c, v % 2 == 1), v / 2)
  {
    var b := v % 2;
    XorLowBit(v);
    XorAssoc(c, b, 2 * (v / 2));
    ShiftLinear(XorWord(c, b), 2 * (v / 2));
    ShiftValue(2 * (v / 2));
  }

  lemma XorLowBit(v: nat)
    ensures Xor(v % 2, 2 * (v / 2)) == v
  {
    XorDigit(v % 2, 2 * (v / 2));
  }

  /** A whole byte put in at once is its bits put in one by one. */
  lemma {:induction false} ByteBits(c: Word, v: Word, n: nat)
    requires v < Pow2(n)
    ensures Shifts(XorWord(c, v), n) == Register(c, BitsOf(v, n))
    decreases n
  {
    if n == 0 {
      XorIdentity(c);
    } else {
      EnterRest(c, v);
      ByteBits(Enter(c, v % 2 == 1), v / 2, n - 1);
      assert BitsOf(v, n)[1..] == BitsOf(v / 2, n - 1);
    }
  }

  lemma {:induction false} FoldBits(c: Word, data: seq<Byte>)
    ensures Fold(c, data) == Register(c, Message(data))
    decreases |data|
  {
    if data != [] {
      WordPower();
      ByteBits(c, data[0], 8);
      FoldBits(Shifts(XorWord(c, data[0]), 8), data[1..]);
      RegisterAppend(c, BitsOf(data[0], 8), Message(data[1..]));
    }
  }

  // ------------------------------------------------------ one division step

  lemma {:induction false} BitsXor(a: nat, b: nat, n: nat)
    ensures BitsOf(Xor(a, b), n) == Add(BitsOf(a, n), BitsOf(b, n))
    decreases n
  {
    if n > 0 {
      XorHalf(a, b);
      BitsXor(a / 2, b / 2, n - 1);
    }
  }

  lemma {:induction false} BitsTop(v: nat, n: nat)
    requires v < Pow2(n)
    ensures BitsOf(v, n + 1) == BitsOf(v, n) + [false]
    decreases n
  {
    if n > 0 { BitsTop(v / 2, n - 1); }
  }

  lemma FourBits(v: nat)
    ensures BitsOf(v, 4) == [v % 2 == 1, v / 2 % 2 == 1, v / 4 % 2 == 1, v / 8 % 2 == 1]
  {
    assert BitsOf(v / 4, 2) == [v / 4 % 2 == 1, v / 8 % 2 == 1];
  }

  lemma {:induction false} DropBits(v: nat, m: nat, n: nat)
    ensures BitsOf(v, m + n) == BitsOf(v, m) + BitsOf(Shr(v, m), n)
    decreases m, v
  {
    if m > 0 {
      DropBits(v / 2, m - 1, n);
      ShrNext(v, m);
    }
  }

  lemma Nibbles(v: nat)
    ensures BitsOf(v, 8) == BitsOf(v, 4) + BitsOf(v / 16, 4)
  {
    DropBits(v, 4, 4);
    ShrSplit(v, 4);
    assert Pow2(4) == 16;
  }

  lemma DropByte(v: nat, n: nat)
    ensures BitsOf(v, 8 + n) == BitsOf(v, 8) + BitsOf(v / 0x100, n)
  {
    DropBits(v, 8, n);
    ShrSplit(v, 8);
    assert Pow2(8) == 0x100;
  }

  /** The lowest eight bits of a number, written out from two hexadecimal digits. */
  lemma ByteDigits(v: nat, lo: nat, hi: nat)
    requires v % 16 == lo && v / 16 % 16 == hi
    ensures BitsOf(v, 8) == [lo % 2 == 1, lo / 2 % 2 == 1, lo / 4 % 2 == 1, lo / 8 % 2 == 1] +
                            [hi % 2 == 1, hi / 2 % 2 == 1, hi / 4 % 2 == 1, hi / 8 % 2 == 1]
  {
    Nibbles(v);
    NibbleDigits(v, lo);
    NibbleDigits(v / 16, hi);
  }

  lemma NibbleDiv(v: nat, q: nat, lo: nat)
    requires v == 16 * q + lo
    ensures v % 2 == lo % 2 && v / 2 % 2 == lo / 2 % 2 && v / 4 % 2 == lo / 4 % 2 && v / 8 % 2 == lo / 8 % 2
  {
    DigitBelow(v, q, lo, 1, 8);
    DigitBelow(v, q, lo, 2, 4);
    DigitBelow(v, q, lo, 4, 2);
    DigitBelow(v, q, lo, 8, 1);
  }

  lemma NibbleDigits(v: nat, lo: nat)
    requires v % 16 == lo
    ensures BitsOf(v, 4) == [lo % 2 == 1, lo / 2 % 2 == 1, lo / 4 % 2 == 1, lo / 8 % 2 == 1]
  {
    FourBits(v);
    NibbleDiv(v, v / 16, lo);
  }

  /** The four bytes of a word, lowest first. */
  lemma WordBytes(v: nat, a: nat, b: nat, c: nat)
    requires a == v / 0x100 && b == a / 0x100 && c == b / 0x100
    ensures BitsOf(v, 32) == BitsOf(v, 8) + (BitsOf(a, 8) + (BitsOf(b, 8) + BitsOf(c, 8)))
  {
    DropByte(v, 24);
    DropByte(a, 16);
    DropByte(b, 8);
  }

  lemma Byte20(v: nat)
    requires v % 16 == 0 && v / 16 % 16 == 2
    ensures BitsOf(v, 8) == [false, false, false, false] + [false, true, false, false]
  {
    ByteDigits(v, 0, 2);
  }

  lemma Byte83(v: nat)
    requires v % 16 == 3 && v / 16 % 16 == 8
    ensures BitsOf(v, 8) == [true, true, false, false] + [false, false, false, true]
  {
    ByteDigits(v, 3, 8);
  }

  lemma ByteB8(v: nat)
    requires v % 16 == 8 && v / 16 % 16 == 11
    ensures BitsOf(v, 8) == [false, false, false, true] + [true, true, false, true]
  {
    ByteDigits(v, 8, 11);
  }

  lemma ByteED(v: nat)
    requires v % 16 == 13 && v / 16 % 16 == 14
    ensures BitsOf(v, 8) == [true, false, true, true] + [false, true, true, true]
  {
    ByteDigits(v, 13, 14);
  }

  lemma GeneratorBytes(v: nat, a: nat, b: nat, c: nat)
    requires a == v / 0x100 && b == a / 0x100 && c == b / 0x100
    requires v % 16 == 0 && v / 16 % 16 == 2 && a % 16 == 3 && a / 16 % 16 == 8
    requires b % 16 == 8 && b / 16 % 16 == 11 && c % 16 == 13 && c / 16 % 16 == 14
    ensures GENERATOR == [true] + BitsOf(v, 32)
  {
    WordBytes(v, a, b, c);
    Byte20(v);
    Byte83(a);
    ByteB8(b);
    ByteED(c);
  }

  /** The constant of the source is the generator, bit-reflected, without x^32. */
  lemma GeneratorBits(p: nat)
    requires p == POLY
    ensures GENERATOR == [true] + BitsOf(p, 32)
  {
    GeneratorBytes(p, 0xED_B883, 0xEDB8, 0xED);
  }

  lemma EnterValue(c: Word, b: bool)
    ensures var d := XorWord(c, if b then 1 else 0);
      && (d % 2 == 1 <==> (c % 2 == 1) != b) && d / 2 == c / 2
      && Enter(c, b) == if d % 2 == 1 then Xor(c / 2, POLY) else c / 2
  {
    XorHalf(c, if b then 1 else 0);
    XorIdentity(c / 2);
    ShiftValue(XorWord(c, if b then 1 else 0));
  }

  /** What one division step does to the remainder, coefficient by coefficient:
      multiply by x, add the message bit at x^32, take `g` away when x^32 is there. */
  predicate Reduces(r: Poly, b: bool, g: Divisor, r': Poly) {
    |r| == |r'| == 32
    && (forall i :: 0 <= i < 31 ==> r'[i] == (r[i + 1] != (r[0] != b && g[i + 1])))
    && r'[31] == (r[0] != b && g[32])
  }

  lemma ShiftedReduces(r: Poly, half: Poly, b: bool, g: Divisor, r': Poly)
    requires |r| == 32 && |half| == 31 && r == [r[0]] + half
    requires r' == if r[0] != b then Add(half + [false], g[1..]) else half + [false]
    ensures Reduces(r, b, g, r')
  {
  }

  /** The register step is one step of long division. */
  lemma EnterReduces(c: Word, b: bool, p: nat)
    requires p == POLY
    ensures Reduces(BitsOf(c, 32), b, [true] + BitsOf(p, 32), BitsOf(Enter(c, b), 32))
  {
    EnterBits(c, b, p);
    var g: Divisor := [true] + BitsOf(p, 32);
    assert g[1..] == BitsOf(p, 32);
    ShiftedReduces(BitsOf(c, 32), BitsOf(c / 2, 31), b, g, BitsOf(Enter(c, b), 32));
  }

  lemma EnterBits(c: Word, b: bool, p: nat)
    requires p == POLY
    ensures BitsOf(c, 32) == [c % 2 == 1] + BitsOf(c / 2, 31)
    ensures BitsOf(Enter(c, b), 32) ==
      if (c % 2 == 1) != b then Add(BitsOf(c / 2, 31) + [false], BitsOf(p, 32)) else BitsOf(c / 2, 31) + [false]
  {
    EnterValue(c, b);
    WordPower();
    assert Pow2(32) == 2 * Pow2(31);
    BitsTop(c / 2, 31);
    BitsXor(c / 2, p, 32);
  }

  lemma {:induction false} ZeroBits(n: nat)
    ensures BitsOf(0, n) == Zeros(n)
    decreases n
  {
    if n > 0 { ZeroBits(n - 1); }
  }

  lemma DividendSnoc(bits: Poly, b: bool)
    ensures Dividend(bits + [b]) == Add(Dividend(bits) + [false], Zeros(|bits|) + ([b] + Zeros(32)))
  {
  }

  /** Long division: both sides of one step agree. */
  lemma StepSum(n: nat, m: Poly, r: Poly, b: bool, r': Poly, g: Divisor)
    requires |m| == n + 32 && Reduces(r, b, g, r')
    ensures Add(Add(m, Zeros(n) + r) + [false], Zeros(n) + ([b] + Zeros(32)))
      == Add(Add(m + [false], Row(n, r[0] != b, g)), Zeros(n + 1) + r')
  {
    var row := Row(n, r[0] != b, g);
    var left := Add(Add(m, Zeros(n) + r) + [false], Zeros(n) + ([b] + Zeros(32)));
    var right := Add(Add(m + [false], row), Zeros(n + 1) + r');
    forall i | 0 <= i < n + 33 ensures left[i] == right[i] {
      if i < n {
      } else if i == n {
      } else if i < n + 32 {
        assert r'[i - n - 1] == (r[i - n - 1 + 1] != (r[0] != b && g[i - n - 1 + 1]));
        assert row[i] == (r[0] != b && g[i - n]);
      } else {
        assert i == n + 32;
      }
    }
  }

  lemma TimesSnoc(q: Poly, b: bool, g: Divisor)
    ensures Times(q + [b], g) == Add(Times(q, g) + [false], Row(|q|, b, g))
  {
    assert (q + [b])[..|q|] == q;
  }

  lemma RegisterSnoc(c: Word, bits: Poly, b: bool)
    ensures Register(c, bits + [b]) == Enter(Register(c, bits), b)
  {
    RegisterAppend(c, bits, [b]);
    assert [b][1..] == [];
  }

  /** One more message bit extends the quotient by one coefficient. */
  lemma DivideOne(init: Poly, b: bool, q0: Poly, g: Divisor, r: Poly, r': Poly) returns (q: Poly)
    requires |q0| == |init| && Divides(Dividend(init), q0, r, g) && Reduces(r, b, g, r')
    ensures |q| == |init| + 1 && Divides(Dividend(init + [b]), q, r', g)
  {
    DividendSnoc(init, b);
    TimesSnoc(q0, r[0] != b, g);
    StepSum(|init|, Times(q0, g), r, b, r', g);
    q := q0 + [r[0] != b];
  }

  ghost predicate StepsAt(c: Word, b: bool, g: Divisor) {
    Reduces(BitsOf(c, 32), b, g, BitsOf(Enter(c, b), 32))
  }

  /** Entering a bit is a division step by `g`, for every register. */
  ghost predicate StepsBy(g: Divisor) {
    forall c: Word, b: bool :: StepsAt(c, b, g)
  }

  lemma GeneratorSteps(p: nat)
    requires p == POLY
    ensures StepsBy(GENERATOR)
  {
    GeneratorBits(p);
    forall c: Word, b: bool ensures StepsAt(c, b, GENERATOR) { EnterReduces(c, b, p); }
  }

  lemma DivideNext(init: Poly, b: bool, q0: Poly, g: Divisor) returns (q: Poly)
    requires StepsBy(g) && |q0| == |init| && Divides(Dividend(init), q0, BitsOf(Register(ONES, init), 32), g)
    ensures |q| == |init| + 1 && Divides(Dividend(init + [b]), q, BitsOf(Register(ONES, init + [b]), 32), g)
  {
    var c := Register(ONES, init);
    RegisterSnoc(ONES, init, b);
    assert StepsAt(c, b, g);
    q := DivideOne(init, b, q0, g, BitsOf(c, 32), BitsOf(Enter(c, b), 32));
  }

  lemma NoBits(g: Divisor)
    ensures Divides(Dividend([]), [], BitsOf(ONES, 32), g)
  {
    OnesBits(32);
    WordPower();
    assert Dividend([]) == Ones(32);
    assert Zeros(0) + Ones(32) == Ones(32);
  }

  lemma SplitLast(bits: Poly) returns (init: Poly, b: bool)
    requires bits != []
    ensures bits == init + [b] && |init| < |bits|
  {
    init, b := bits[..|bits| - 1], bits[|bits| - 1];
  }

  /** The register is the remainder of the division, whatever the message. */
  lemma {:induction false} RegisterDivides(bits: Poly, g: Divisor) returns (q: Poly)
    requires StepsBy(g)
    ensures |q| == |bits| && Divides(Dividend(bits), q, BitsOf(Register(ONES, bits), 32), g)
    decreases |bits|
  {
    if bits == [] {
      q := [];
      NoBits(g);
    } else {
      var init, b := SplitLast(bits);
      var q0 := RegisterDivides(init, g);
      q := DivideNext(init, b, q0, g);
    }
  }

  lemma {:induction false} OnesBits(n: nat)
    ensures BitsOf(Pow2(n) - 1, n) == Ones(n)
    decreases n
  {
    if n > 0 {
      OnesMask(n);
      OnesBits(n - 1);
    }
  }

  // ------------------------------------------------- the remainder is unique

  /** A nonzero quotient shows in the part of the product above the remainder. */
  lemma {:induction false} TimesLeading(q: Poly, k: nat, g: Divisor)
    requires k < |q| && q[k] && forall i :: 0 <= i < k ==> !q[i]
    ensures Times(q, g)[k]
    decreases |q|
  {
    var n := |q| - 1;
    if k < n {
      TimesLeading(q[..n], k, g);
    } else {
      TimesZero(q[..n], k, g);
    }
  }

  lemma {:induction false} TimesZero(q: Poly, k: nat, g: Divisor)
    requires (forall i :: 0 <= i < |q| ==> !q[i]) && k < |q| + 32
    ensures !Times(q, g)[k]
    decreases |q|
  {
    if q != [] && k < |q| + 31 { TimesZero(q[..|q| - 1], k, g); }
  }

  lemma RowsAdd(n: nat, m: Poly, m': Poly, b: bool, b': bool, g: Divisor)
    requires |m| == |m'| == n + 32
    ensures Add(Add(m, m') + [false], Row(n, b != b', g)) ==
      Add(Add(m + [false], Row(n, b, g)), Add(m' + [false], Row(n, b', g)))
  {
  }

  lemma {:induction false} TimesAdd(p: Poly, q: Poly, g: Divisor)
    requires |p| == |q|
    ensures Times(Add(p, q), g) == Add(Times(p, g), Times(q, g))
    decreases |p|
  {
    if p != [] {
      var n := |p| - 1;
      TimesAdd(p[..n], q[..n], g);
      assert Add(p, q)[..n] == Add(p[..n], q[..n]);
      RowsAdd(n, Times(p[..n], g), Times(q[..n], g), p[n], q[n], g);
    }
  }

  lemma {:induction false} NoLeading(d: Poly, k: nat, g: Divisor)
    requires k < |d| && forall i :: 0 <= i < |d| ==> !Times(d, g)[i]
    ensures forall i :: 0 <= i <= k ==> !d[i]
    decreases k
  {
    if k > 0 { NoLeading(d, k - 1, g); }
    if d[k] { TimesLeading(d, k, g); }
  }

  /** Quotient and remainder are determined by the dividend. */
  lemma DivisionUnique(a: Poly, q: Poly, r: Poly, q': Poly, r': Poly, g: Divisor)
    requires Divides(a, q, r, g) && Divides(a, q', r', g)
    ensures q == q' && r == r'
  {
    var n, d := |q|, Add(q, q');
    var m, m' := Times(q, g), Times(q', g);
    TimesAdd(q, q', g);
    forall i | 0 <= i < n ensures !Times(d, g)[i] {
      assert a[i] == (m[i] != (Zeros(n) + r)[i]) == (m'[i] != (Zeros(n) + r')[i]);
    }
    forall k: nat | k < n ensures !d[k] { NoLeading(d, k, g); }
    assert q == q';
    forall i | 0 <= i < 32 ensures r[i] == r'[i] {
      assert a[n + i] == (m[n + i] != (Zeros(n) + r)[n + i]);
      assert a[n + i] == (m'[n + i] != (Zeros(n) + r')[n + i]);
    }
  }

  lemma RemainderUnique(a: Poly, q: Poly, r: Poly, r': Poly, g: Divisor)
    requires Divides(a, q, r, g) && IsRemainder(a, r', g)
    ensures r == r'
  {
    var q' :| Divides(a, q', r', g);
    DivisionUnique(a, q, r, q', r', g);
  }

  lemma {:induction false} BitsInjective(a: nat, b: nat, n: nat)
    requires a < Pow2(n) && b < Pow2(n) && BitsOf(a, n) == BitsOf(b, n)
    ensures a == b
    decreases n
  {
    if n > 0 {
      assert BitsOf(a, n)[0] == BitsOf(b, n)[0];
      assert BitsOf(a, n)[1..] == BitsOf(b, n)[1..];
      BitsInjective(a / 2, b / 2, n - 1);
    }
  }

  /** `crc32` is the complement of the bit-reflected remainder: a word is the CRC of
      the data exactly when its complement `c` reads as the remainder of the dividend. */
  lemma CrcIsRemainder(data: seq<Byte>, w: Word, c: Word)
    requires w + c == 0xFFFF_FFFF
    ensures w == Crc32(data) <==> IsRemainder(Dividend(Message(data)), BitsOf(c, 32), GENERATOR)
  {
    RegisterIsRemainder(data, c);
  }

  lemma RegisterIsRemainder(data: seq<Byte>, c: Word)
    ensures c == Fold(ONES, data) <==> IsRemainder(Dividend(Message(data)), BitsOf(c, 32), GENERATOR)
  {
    var a, f := Dividend(Message(data)), Fold(ONES, data);
    GeneratorSteps(POLY);
    var q := RegisterDivides(Message(data), GENERATOR);
    FoldBits(ONES, data);
    assert IsRemainder(a, BitsOf(f, 32), GENERATOR);
    if IsRemainder(a, BitsOf(c, 32), GENERATOR) {
      RemainderUnique(a, q, BitsOf(f, 32), BitsOf(c, 32), GENERATOR);
      WordPower();
      BitsInjective(f, c, 32);
    }
  }
}
