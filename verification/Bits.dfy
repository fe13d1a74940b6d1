/** Unsigned machine words as natural numbers, with the bit operators of the
    kernel sources defined digit by digit.  The lemmas turn every mask used by
    the kernel into division, remainder and addition, for any width. */
module Bits {

  function Pow2(k: nat): (r: nat)
    ensures r >= 1
  {
    if k == 0 then 1 else 2 * Pow2(k - 1)
  }

  /** The number of values of `n` bytes. */
  function Power256(n: nat): (r: nat)
    ensures r >= 1
  {
    if n == 0 then 1 else 0x100 * Power256(n - 1)
  }

  lemma WordSizes()
    ensures Power256(4) == 0x1_0000_0000 && Power256(8) == 0x1_0000_0000_0000_0000
  {
    assert Power256(4) == 0x1_0000_0000;
  }

  function Shr(x: nat, k: nat): nat {
    if k == 0 then x else Shr(x, k - 1) / 2
  }

  function And(x: nat, y: nat): nat {
    if x == 0 || y == 0 then 0
    else 2 * And(x / 2, y / 2) + (if x % 2 == 1 && y % 2 == 1 then 1 else 0)
  }

  function Or(x: nat, y: nat): nat {
    if x == 0 then y else if y == 0 then x
    else 2 * Or(x / 2, y / 2) + (if x % 2 == 1 || y % 2 == 1 then 1 else 0)
  }

  function Xor(x: nat, y: nat): nat {
    if x == 0 then y else if y == 0 then x
    else 2 * Xor(x / 2, y / 2) + (if x % 2 != y % 2 then 1 else 0)
  }

  /** The part of `x` below bit `k`. */
  function Low(x: nat, k: nat): nat {
    x % Pow2(k)
  }

  lemma ShrOne(x: nat)
    ensures Shr(x, 1) == x / 2
  {
    assert Shr(x, 0) == x;
  }

  lemma {:induction false} ShrHalf(x: nat, k: nat)
    ensures Shr(x / 2, k) == Shr(x, k) / 2
  {
    if k > 0 { ShrHalf(x, k - 1); }
  }

  lemma {:induction false} ShrShr(x: nat, a: nat, b: nat)
    ensures Shr(Shr(x, a), b) == Shr(x, a + b)
  {
    if b > 0 { ShrShr(x, a, b - 1); }
  }

  lemma {:induction false} Pow2Add(a: nat, b: nat)
    ensures Pow2(a + b) == Pow2(a) * Pow2(b)
  {
    if b > 0 {
      Pow2Add(a, b - 1);
      assert Pow2(a + b) == 2 * Pow2(a + b - 1);
    }
  }

  lemma {:induction false} Pow2Mono(a: nat, b: nat)
    requires a <= b
    ensures Pow2(a) <= Pow2(b)
    decreases b
  {
    if a < b { Pow2Mono(a, b - 1); }
  }

  lemma DivUnique(x: nat, d: nat, q: nat, r: nat)
    requires r < d && x == q * d + r
    ensures x / d == q && x % d == r
  {
    var c := x / d - q;
    assert c * d == r - x % d;
    assert c >= 1 ==> c * d >= d;
    assert c <= -1 ==> c * d + d <= 0;
  }

  /** A digit of `h` moved down to what lies below `h`. */
  lemma Regroup(h: nat, p: nat, l: nat)
    requires l < p
    ensures h * p + l == (h / 2) * (2 * p) + ((h % 2) * p + l)
    ensures (h % 2) * p + l < 2 * p
  {
    assert h == 2 * (h / 2) + h % 2;
    assert (2 * (h / 2) + h % 2) * p == (h / 2) * (2 * p) + (h % 2) * p;
  }

  /** `x >> k` is division, `x` splits at any bit, and blocks of `2^k` numbers
      are exactly the numbers sharing one shifted value. */
  lemma {:induction false} ShrSplit(x: nat, k: nat)
    ensures Shr(x, k) == x / Pow2(k)
    ensures x == Shr(x, k) * Pow2(k) + Low(x, k)
    ensures Low(x, k) < Pow2(k)
  {
    if k > 0 {
      ShrSplit(x, k - 1);
      var h, p, l := Shr(x, k - 1), Pow2(k - 1), Low(x, k - 1);
      Regroup(h, p, l);
      DivUnique(x, 2 * p, h / 2, (h % 2) * p + l);
    }
  }

  /** The digit of weight `b` is the same above and below a multiple of `2 * b`. */
  lemma DigitBelow(x: nat, h: nat, l: nat, b: nat, c: nat)
    requires b > 0 && x == h * (2 * b * c) + l
    ensures x / b % 2 == l / b % 2
  {
    var q, r := l / b, l % b;
    assert l == q * b + r;
    assert h * (2 * b * c) == (2 * (h * c)) * b;
    assert x == (2 * (h * c) + q) * b + r;
    DivUnique(x, b, 2 * (h * c) + q, r);
  }

  lemma ShrBlock(x: nat, q: nat, k: nat)
    ensures Shr(x, k) == q <==> q * Pow2(k) <= x < q * Pow2(k) + Pow2(k)
  {
    ShrSplit(x, k);
    var p := Pow2(k);
    if q * p <= x < q * p + p {
      DivUnique(x, p, q, x - q * p);
    }
  }

  lemma ShrMul(q: nat, k: nat, r: nat)
    requires r < Pow2(k)
    ensures Shr(q * Pow2(k) + r, k) == q
    ensures Low(q * Pow2(k) + r, k) == r
  {
    ShrSplit(q * Pow2(k) + r, k);
    DivUnique(q * Pow2(k) + r, Pow2(k), q, r);
  }

  lemma {:induction false} LowStep(x: nat, k: nat)
    requires k > 0
    ensures Low(x, k) == 2 * Low(x / 2, k - 1) + x % 2
  {
    ShrSplit(x / 2, k - 1);
    var p := Pow2(k - 1);
    var q, r := Shr(x / 2, k - 1), Low(x / 2, k - 1);
    assert x == 2 * (q * p + r) + x % 2;
    assert x == q * (2 * p) + (2 * r + x % 2);
    DivUnique(x, 2 * p, q, 2 * r + x % 2);
  }

  /** One digit of `And`, without the test for zero. */
  lemma AndDigit(x: nat, y: nat)
    ensures And(x, y) == 2 * And(x / 2, y / 2) + (if x % 2 == 1 && y % 2 == 1 then 1 else 0)
  {
  }

  function Shl(x: nat, k: nat): nat {
    if k == 0 then x else 2 * Shl(x, k - 1)
  }

  lemma {:induction false} ShlMul(x: nat, k: nat)
    ensures Shl(x, k) == x * Pow2(k)
  {
    if k > 0 {
      ShlMul(x, k - 1);
      Doubled(x, k);
    }
  }

  lemma AndOne(x: nat)
    ensures And(x, 1) == x % 2
  {
    AndDigit(x, 1);
  }

  lemma AndOnes(x: nat, mask: nat, half: nat, l: nat)
    requires mask == 2 * half + 1 && And(x / 2, half) == l
    ensures And(x, mask) == 2 * l + x % 2
  {
    AndDigit(x, mask);
  }

  lemma OnesMask(k: nat)
    requires k > 0
    ensures (Pow2(k) - 1) % 2 == 1 && (Pow2(k) - 1) / 2 == Pow2(k - 1) - 1
  {
  }

  /** Masking with `2^hi - 1` keeps the part below bit `hi`. */
  lemma {:induction false} AndLowField(x: nat, hi: nat)
    ensures And(x, Pow2(hi) - 1) == Low(x, hi)
  {
    if hi > 0 {
      AndLowField(x / 2, hi - 1);
      AndOnes(x, Pow2(hi) - 1, Pow2(hi - 1) - 1, Low(x / 2, hi - 1));
      LowStep(x, hi);
    }
  }

  lemma AndEven(x: nat, mask: nat)
    requires mask % 2 == 0
    ensures And(x, mask) == 2 * And(x / 2, mask / 2)
  {
    AndDigit(x, mask);
  }

  lemma ShrNext(x: nat, k: nat)
    requires k > 0
    ensures Shr(x / 2, k - 1) == Shr(x, k)
  {
    ShrHalf(x, k - 1);
  }

  /** A mask with lowest bit clear: its half has the same run of ones one bit lower. */
  lemma HalfMask(lo: nat, hi: nat)
    requires 0 < lo <= hi
    ensures Pow2(lo - 1) <= Pow2(hi - 1) && Pow2(lo) <= Pow2(hi)
    ensures (Pow2(hi) - Pow2(lo)) / 2 == Pow2(hi - 1) - Pow2(lo - 1) && (Pow2(hi) - Pow2(lo)) % 2 == 0
  {
    Pow2Mono(lo - 1, hi - 1);
  }

  lemma AndEvenMask(x: nat, lo: nat, hi: nat)
    requires 0 < lo <= hi
    ensures Pow2(lo - 1) <= Pow2(hi - 1) && Pow2(lo) <= Pow2(hi)
    ensures And(x, Pow2(hi) - Pow2(lo)) == 2 * And(x / 2, Pow2(hi - 1) - Pow2(lo - 1))
  {
    HalfMask(lo, hi);
    AndEven(x, Pow2(hi) - Pow2(lo));
  }

  lemma {:induction false} AndFieldShl(x: nat, lo: nat, hi: nat)
    requires lo <= hi
    ensures Pow2(lo) <= Pow2(hi)
    ensures And(x, Pow2(hi) - Pow2(lo)) == Shl(And(Shr(x, lo), Pow2(hi - lo) - 1), lo)
    decreases hi
  {
    if lo == 0 {
      Pow2Mono(0, hi);
    } else {
      AndFieldShl(x / 2, lo - 1, hi - 1);
      AndEvenMask(x, lo, hi);
      ShrNext(x, lo);
      ShlNext(And(Shr(x, lo), Pow2(hi - lo) - 1), lo);
    }
  }

  lemma ShlNext(f: nat, k: nat)
    requires k > 0
    ensures Shl(f, k) == 2 * Shl(f, k - 1)
  {
  }

  /** Masking with a run of ones at bits `lo..hi` selects exactly that field. */
  lemma AndField(x: nat, lo: nat, hi: nat)
    requires lo <= hi
    ensures Pow2(lo) <= Pow2(hi)
    ensures And(x, Pow2(hi) - Pow2(lo)) == Low(Shr(x, lo), hi - lo) * Pow2(lo)
  {
    AndLowField(Shr(x, lo), hi - lo);
    FieldInPlace(x, lo, hi, Low(Shr(x, lo), hi - lo));
  }

  lemma FieldInPlace(x: nat, lo: nat, hi: nat, f: nat)
    requires lo <= hi && f == And(Shr(x, lo), Pow2(hi - lo) - 1)
    ensures Pow2(lo) <= Pow2(hi) && And(x, Pow2(hi) - Pow2(lo)) == f * Pow2(lo)
  {
    AndFieldShl(x, lo, hi);
    ShlMul(f, lo);
  }

  lemma Doubled(f: nat, k: nat)
    requires k > 0
    ensures f * Pow2(k) == 2 * (f * Pow2(k - 1))
  {
    assert f * (2 * Pow2(k - 1)) == 2 * (f * Pow2(k - 1));
  }

  /** `x & (2^k - 1)` is the remainder modulo `2^k`. */
  lemma AndLowMask(x: nat, k: nat)
    ensures And(x, Pow2(k) - 1) == Low(x, k)
  {
    AndField(x, 0, k);
  }

  /** `x & !(2^k - 1)` at word width `w` rounds down to a multiple of `2^k`. */
  lemma AndHighMask(x: nat, k: nat, w: nat)
    requires k <= w && x < Pow2(w)
    ensures Pow2(k) <= Pow2(w)
    ensures And(x, Pow2(w) - 1 - (Pow2(k) - 1)) == Shr(x, k) * Pow2(k)
  {
    AndField(x, k, w);
    ShrBound(x, k, w);
    DivUnique(Shr(x, k), Pow2(w - k), 0, Shr(x, k));
  }

  /** Shifting a `w`-bit word right by `k` leaves `w - k` bits. */
  lemma ShrBound(x: nat, k: nat, w: nat)
    requires k <= w && x < Pow2(w)
    ensures Shr(x, k) < Pow2(w - k)
  {
    Pow2Add(k, w - k);
    ShrSplit(x, k);
    MulMono(Pow2(w - k), Shr(x, k), Pow2(k));
  }

  lemma MulMono(a: nat, b: nat, m: nat)
    ensures a <= b ==> a * m <= b * m
  {
    assert a <= b ==> 0 <= (b - a) * m;
  }

  /** `x ^ (1 << k)` moves to the other half of the enclosing block of `2^(k+1)`. */
  lemma {:induction false} XorBit(x: nat, k: nat)
    ensures Shr(x, k) % 2 == 1 ==> x >= Pow2(k)
    ensures Xor(x, Pow2(k)) == if Shr(x, k) % 2 == 0 then x + Pow2(k) else x - Pow2(k)
  {
    if k > 0 {
      XorBit(x / 2, k - 1);
      ShrHalf(x, k - 1);
      assert Pow2(k) / 2 == Pow2(k - 1);
    } else if x > 0 {
      assert Xor(x / 2, 0) == x / 2;
    }
  }

  /** `a | b` is `a + b` when `a` is a multiple of `2^k` and `b` is below it. */
  lemma {:induction false} OrDisjoint(a: nat, b: nat, k: nat)
    requires b < Pow2(k)
    ensures Or(a * Pow2(k), b) == a * Pow2(k) + b
  {
    if k > 0 && a > 0 {
      var p := Pow2(k - 1);
      assert a * Pow2(k) == 2 * (a * p) by { assert a * (2 * p) == 2 * (a * p); }
      OrDisjoint(a, b / 2, k - 1);
      assert (a * Pow2(k)) / 2 == a * p;
      assert a * p > 0;
    } else if k == 0 {
      assert b == 0;
    }
  }

  // ------------------------------------------------------------ exclusive or

  lemma XorDigit(x: nat, y: nat)
    ensures Xor(x, y) == 2 * Xor(x / 2, y / 2) + (if x % 2 != y % 2 then 1 else 0)
  {
  }

  lemma XorHalf(x: nat, y: nat)
    ensures Xor(x, y) / 2 == Xor(x / 2, y / 2)
    ensures Xor(x, y) % 2 == if x % 2 != y % 2 then 1 else 0
  {
    XorDigit(x, y);
  }

  lemma {:induction false} XorComm(x: nat, y: nat)
    ensures Xor(x, y) == Xor(y, x)
  {
    if x > 0 && y > 0 { XorComm(x / 2, y / 2); }
  }

  lemma {:induction false} XorAssoc(x: nat, y: nat, z: nat)
    ensures Xor(Xor(x, y), z) == Xor(x, Xor(y, z))
    decreases x + y + z
  {
    if x > 0 && y > 0 && z > 0 {
      XorAssoc(x / 2, y / 2, z / 2);
      XorHalf(x, y);
      XorHalf(y, z);
      XorDigit(Xor(x, y), z);
      XorDigit(x, Xor(y, z));
    }
  }

  lemma {:induction false} XorZero(x: nat, y: nat)
    ensures Xor(x, y) == 0 <==> x == y
    decreases x + y
  {
    if x > 0 || y > 0 {
      XorZero(x / 2, y / 2);
      XorDigit(x, y);
    }
  }

  lemma {:induction false} XorBound(x: nat, y: nat, k: nat)
    requires x < Pow2(k) && y < Pow2(k)
    ensures Xor(x, y) < Pow2(k)
  {
    if k > 0 {
      XorBound(x / 2, y / 2, k - 1);
      XorDigit(x, y);
    }
  }

  /** Regrouping: `(a ^ x) ^ (b ^ y)` is `(a ^ b) ^ (x ^ y)`. */
  lemma XorSwap(a: nat, x: nat, b: nat, y: nat)
    ensures Xor(Xor(a, x), Xor(b, y)) == Xor(Xor(a, b), Xor(x, y))
  {
    XorAssoc(a, x, Xor(b, y));
    XorAssoc(x, b, y);
    XorComm(x, b);
    XorAssoc(b, x, y);
    XorAssoc(a, b, Xor(x, y));
  }
}
