/** The double precision operators of ITU-T G.729: a 32 bit number as a high and a low
    half, products of such numbers, and the division Div_32 with its error bound. */
module Bv16Oper32 {
  import opened FixedPoint
  import opened Bv16Basop

  /** L_Extract */
  function LExtract(x: int32): (r: (int16, int16)) {
    var hi := ExtractH(x);
    (hi, ExtractL(LMsu(LShr(x, 1), hi, 16384)))
  }

  /** L_Comp */
  function LComp(hi: int16, lo: int16): int32 { LMac(DepositH(hi), lo, 1) }

  /** Mpy_32 */
  function Mpy32(hi1: int16, lo1: int16, hi2: int16, lo2: int16): int32 {
    LMac(LMac(LMult(hi1, hi2), Mult(hi1, lo2), 1), Mult(lo1, hi2), 1)
  }

  /** Mpy_32_16 */
  function Mpy3216(hi: int16, lo: int16, n: int16): int32 {
    LMac(LMult(hi, n), Mult(lo, n), 1)
  }

  /** The number a pair of halves stands for. */
  function Whole(hi: int, lo: int): int { 0x1_0000 * hi + 2 * lo }

  lemma ShrOne(x: int32)
    ensures LShr(x, 1) == x / 2
  {
    assert Asr(x, 1) == Asr(x / 2, 0);
  }

  lemma MulOne(a: int)
    ensures Mul(a, 1) == a
  {
    MulIsProduct(a, 1);
  }

  /** Splitting loses the lowest bit and nothing else; the low half is not negative. */
  lemma ExtractValue(x: int32)
    ensures var (hi, lo) := LExtract(x);
            && 0 <= lo && Whole(hi, lo) == x - x % 2
            && LComp(hi, lo) == x - x % 2
  {
    hide Mul;
    ShrOne(x);
    var hi: int := ExtractH(x);
    MulIsProduct(hi, 16384);
    assert x == 0x1_0000 * hi + x % 0x1_0000;
    var lo := x / 2 - 0x8000 * hi;
    assert 0 <= lo <= 0x7fff;
    MulOne(lo);
  }

  // ---------------------------------------------------------------- products

  /** The remainder a truncated Q15 product drops. */
  function Rest(a: int, b: int): (r: int)
    ensures 0 <= r < 0x8000
  {
    Mul(a, b) % 0x8000
  }

  lemma MultValue(a: int16, b: int16)
    requires a != MIN16 || b != MIN16
    ensures Mul(a, b) == 0x8000 * Mult(a, b) as int + Rest(a, b)
  {
    hide Mul;
    Q15Bound(a, b);
  }

  /** Mpy_32_16 is the exact product in Q31, rounded down by less than two units. */
  lemma Mpy3216Value(hi: int16, lo: int16, n: int16)
    requires 0 <= lo && 0 <= n
    requires -0x7fff_0000 <= 2 * Mul(hi, n) <= 0x7ffe_0000
    ensures 0x8000 * Mpy3216(hi, lo, n) as int == Mul(Whole(hi, lo), n) - 2 * Rest(lo, n)
  {
    hide Mul, Mult, Rest;
    MultValue(lo, n);
    MulOne(Mult(lo, n));
    WholeTimes(hi, lo, n);
    ProductRange(lo, n);
  }

  lemma WholeTimes(hi: int, lo: int, n: int)
    ensures Mul(Whole(hi, lo), n) == 0x1_0000 * Mul(hi, n) + 2 * Mul(lo, n)
  {
    hide Mul;
    MulIsProduct(hi, n);
    MulIsProduct(lo, n);
    MulIsProduct(Whole(hi, lo), n);
    assert (0x1_0000 * hi + 2 * lo) * n == 0x1_0000 * (hi * n) + 2 * (lo * n);
  }

  /** Mpy_32 is the exact product in Q31, rounded down by less than six units. */
  lemma Mpy32Value(hi1: int16, lo1: int16, hi2: int16, lo2: int16)
    requires 0 <= hi1 && 0 <= lo1 && 0 <= hi2 && 0 <= lo2
    requires Mul(hi1, hi2) <= 0x3ffe_0000
    ensures var d := Mul(Whole(hi1, lo1), Whole(hi2, lo2)) - 0x8000_0000 * Mpy32(hi1, lo1, hi2, lo2) as int;
            0 <= d < 6 * 0x8000_0000
  {
    hide Mul, Mult;
    MultValue(hi1, lo2);
    MultValue(lo1, hi2);
    MulOne(Mult(hi1, lo2));
    MulOne(Mult(lo1, hi2));
    CrossProduct(hi1, lo1, hi2, lo2);
    ProductRange(hi1, hi2);
    ProductRange(hi1, lo2);
    ProductRange(lo1, hi2);
    ProductRange(lo1, lo2);
  }

  lemma ProductRange(a: int16, b: int16)
    requires 0 <= a && 0 <= b
    ensures 0 <= Mul(a, b) <= 0x3fff_0001
  {
    MulIsProduct(a, b);
    MulBound(a, b, 0x7fff, 0x7fff);
    MulMono(0, a, b);
  }

  lemma CrossProduct(hi1: int, lo1: int, hi2: int, lo2: int)
    ensures Mul(Whole(hi1, lo1), Whole(hi2, lo2))
            == 0x1_0000_0000 * Mul(hi1, hi2) + 0x2_0000 * (Mul(hi1, lo2) + Mul(lo1, hi2)) + 4 * Mul(lo1, lo2)
  {
    hide Mul;
    MulIsProduct(Whole(hi1, lo1), Whole(hi2, lo2));
    MulIsProduct(hi1, hi2);
    MulIsProduct(hi1, lo2);
    MulIsProduct(lo1, hi2);
    MulIsProduct(lo1, lo2);
    var x, y := Whole(hi2, lo2), Whole(hi1, lo1);
    assert y * x == 0x1_0000 * (hi1 * x) + 2 * (lo1 * x);
    assert hi1 * x == 0x1_0000 * (hi1 * hi2) + 2 * (hi1 * lo2);
    assert lo1 * x == 0x1_0000 * (lo1 * hi2) + 2 * (lo1 * lo2);
  }

  // ---------------------------------------------------------------- division

  /** The reciprocal Div_32 works with: a Newton step on that of the high half. */
  function Reciprocal(denomHi: int16, denomLo: int16): int32
    requires denomHi >= 0x4000
  {
    var approx := DivS(0x3fff, denomHi);
    var (hi, lo) := LExtract(LSub(MAX32, Mpy3216(denomHi, denomLo, approx)));
    Mpy3216(hi, lo, approx)
  }

  /** Div_32 */
  function Div32(num: int32, denomHi: int16, denomLo: int16): int32
    requires denomHi >= 0x4000
  {
    var (hi2, lo2) := LExtract(Reciprocal(denomHi, denomLo));
    var (nHi, nLo) := LExtract(num);
    LShl(Mpy32(nHi, nLo, hi2, lo2), 2)
  }

  /** The first approximation: the reciprocal of the high half, rounded down. */
  lemma Approximation(hi: int16)
    requires hi >= 0x4000
    ensures var a: int := DivS(0x3fff, hi);
            && 16383 <= a <= 32766
            && 0 <= 0x1fff_8000 - Mul(a, hi) < hi
  {
    hide Mul;
    var a: int := DivS(0x3fff, hi);
    MulIsProduct(a, hi);
    assert 0x1fff_8000 == hi * a + 0x1fff_8000 % hi;
    if a < 16383 { MulMono(a, 16382, hi); }
    if a > 32766 { MulMono(32767, a, hi); MulMono(0x4000, hi, 32767); }
  }

  /** The denominator times the approximation is just below 2^45. */
  lemma DenominatorScaled(hi: int16, lo: int16)
    requires hi >= 0x4000 && 0 <= lo
    ensures var a, d: int := DivS(0x3fff, hi), Whole(hi, lo);
            0x1fff_0000_0000 <= Mul(d, a) <= 0x2000_0000_0000
  {
    hide Mul, DivS;
    var a: int, d := DivS(0x3fff, hi), Whole(hi, lo);
    Approximation(hi);
    MulIsProduct(a, hi);
    MulIsProduct(d, a);
    assert d * a == 0x1_0000 * (a * hi) + 2 * (lo * a);
    MulBound(lo, a, 0x7fff, 0x7fff);
    MulMono(0, lo, a);
  }

  /** One Newton step, for any values that satisfy the defining equations: d * l3 is 2^60
      up to twenty denominators below and one above. */
  lemma NewtonStep(d: int, a: int, z: int, l1: int, e1: int, b: int, l3: int, e3: int)
    requires 0x4000_0000 <= d && 0 <= a < 0x8000 && z == d * a
    requires 0x1fff_0000_0000 <= z <= 0x2000_0000_0000
    requires 0x8000 * l1 == z - e1 && 0 <= e1 < 0x1_0000 && 0 <= b <= 1
    requires 0x8000 * l3 == (0x7fff_ffff - l1 - b) * a - e3 && 0 <= e3 < 0x1_0000
    ensures 0x1000_0000_0000_0000 - 20 * d <= d * l3 <= 0x1000_0000_0000_0000 + d
  {
    var t := (e1 - 0x8000 * (1 + b)) * a - 0x8000 * e3;
    assert -0x1_0000_0000 <= t <= 0x4000_0000 by {
      MulBound(e1 - 0x8000 * (1 + b), a, 0x1_0000, 0x7fff);
      if e1 - 0x8000 * (1 + b) >= 0 { MulBound(e1 - 0x8000 * (1 + b), a, 0x8000, 0x7fff); }
      else { MulMono(e1 - 0x8000 * (1 + b), 0, a); }
    }
    NewtonExpanded(d, a, z, l1, e1, b, l3, e3, t);
    var w := 0x2000_0000_0000 - z;
    SquareOf(z, w);
    MulBound(w, w, 0x1_0000_0000, 0x1_0000_0000);
    assert 0 <= w * w;
    MulMono(-0x1_0000_0000, t, d);
    MulMono(t, 0x4000_0000, d);
  }

  lemma SquareOf(z: int, w: int)
    requires w == 0x2000_0000_0000 - z
    ensures 0x4000_0000_0000 * z - z * z == 0x400_0000_0000_0000_0000_0000 - w * w
  {
    assert w * w == 0x2000_0000_0000 * w - z * w;
    assert z * w == 0x2000_0000_0000 * z - z * z;
  }

  lemma NewtonExpanded(d: int, a: int, z: int, l1: int, e1: int, b: int, l3: int, e3: int, t: int)
    requires z == d * a
    requires 0x8000 * l1 == z - e1
    requires 0x8000 * l3 == (0x7fff_ffff - l1 - b) * a - e3
    requires t == (e1 - 0x8000 * (1 + b)) * a - 0x8000 * e3
    ensures 0x4000_0000 * (d * l3) == 0x4000_0000_0000 * z - z * z + d * t
  {
    var k := 0x4000_0000_0000 - z;
    calc {
      0x4000_0000 * l3;
      0x8000 * (0x7fff_ffff - l1 - b) * a - 0x8000 * e3;
      { assert 0x8000 * (0x7fff_ffff - l1 - b) == k + (e1 - 0x8000 * (1 + b)); }
      (k + (e1 - 0x8000 * (1 + b))) * a - 0x8000 * e3;
      k * a + t;
    }
    assert 0x4000_0000 * (d * l3) == d * (k * a + t) == d * (k * a) + d * t;
    assert d * (k * a) == k * z;
  }

  lemma DeviationBounds(m: int, y: int, d: int)
    requires 0 <= m <= 0x8000_0000 && 0 <= d && -21 * d <= y <= d
    ensures -21 * 0x8000_0000 * d <= m * y <= 0x8000_0000 * d
  {
    MulMono(y, d, m);
    MulMono(-21 * d, y, m);
    MulMono(m, 0x8000_0000, d);
    MulMono(m, 0x8000_0000, 21 * d);
  }

  /** The numerator times the scaled reciprocal x = d * r, once its low bits are gone. */
  lemma NumeratorBounds(d: int, num: int, bn: int, x: int)
    requires 0x4000_0000 <= d < 0x8000_0000 && 0 < num < d && 0 <= bn <= 1
    requires 0x1000_0000_0000_0000 - 21 * d <= x <= 0x1000_0000_0000_0000 + d
    ensures (num - bn) * x <= 0x1000_0000_0000_0000 * num + 0x8000_0000 * d
    ensures (num - bn) * x >= 0x1000_0000_0000_0000 * num - 22 * 0x8000_0000 * d
  {
    var m, y := num - bn, x - 0x1000_0000_0000_0000;
    DeviationBounds(m, y, d);
    Distributed(m, y, x);
  }

  lemma Distributed(m: int, y: int, x: int)
    requires x == 0x1000_0000_0000_0000 + y
    ensures m * x == 0x1000_0000_0000_0000 * m + m * y
  {
  }

  /** The product with the numerator. */
  lemma QuotientBounds(d: int, num: int, bn: int, l3: int, b3: int, l4: int, e4: int)
    requires 0x4000_0000 <= d < 0x8000_0000 && 0 < num < d && 0 <= bn <= 1 && 0 <= b3 <= 1
    requires 0x1000_0000_0000_0000 - 20 * d <= d * l3 <= 0x1000_0000_0000_0000 + d
    requires 0x8000_0000 * l4 == (num - bn) * (l3 - b3) - e4 && 0 <= e4 < 6 * 0x8000_0000
    ensures -4 * d <= num * 0x8000_0000 - 4 * (d * l4) <= 112 * d
  {
    var x := d * (l3 - b3);
    assert x == d * l3 - d * b3;
    assert 0 <= d * b3 <= d;
    NumeratorBounds(d, num, bn, x);
    var p := (num - bn) * (l3 - b3);
    assert d * p == (num - bn) * x;
    assert d * (p - e4) == d * p - d * e4;
    MulMono(0, e4, d);
    MulMono(e4, 6 * 0x8000_0000, d);
    assert d * (0x8000_0000 * l4) == 0x8000_0000 * (d * l4);
  }

  lemma ReciprocalBounds(hi: int16, lo: int16)
    requires hi >= 0x4000 && 0 <= lo
    ensures var d, r: int := Whole(hi, lo), Reciprocal(hi, lo);
            0x1000_0000_0000_0000 - 20 * d <= d * r <= 0x1000_0000_0000_0000 + d
  {
    hide Mul, DivS, Mpy3216, LExtract, Rest;
    var a: int16, d := DivS(0x3fff, hi), Whole(hi, lo);
    Approximation(hi);
    DenominatorScaled(hi, lo);
    MulIsProduct(a, hi);
    MulIsProduct(hi, a);
    Mpy3216Value(hi, lo, a);
    var l1: int := Mpy3216(hi, lo, a);
    var v: int := 0x7fff_ffff - l1;
    assert LSub(MAX32, l1) == v;
    ExtractValue(v);
    var (h, l) := LExtract(v);
    MulIsProduct(h, a);
    MulBound(h, a, 0x4100, 0x7ffe);
    Mpy3216Value(h, l, a);
    MulIsProduct(d, a);
    MulIsProduct(v - v % 2, a);
    NewtonStep(d, a, Mul(d, a), l1, 2 * Rest(lo, a), v % 2, Reciprocal(hi, lo), 2 * Rest(l, a));
  }

  /** The file's claim of 24 bits, and more: for a normalised denominator and a smaller
      positive numerator the result is at most 112 units of 2^-31 below the exact quotient
      and at most four above it. */
  lemma Div32Accuracy(num: int32, hi: int16, lo: int16)
    requires hi >= 0x4000 && 0 <= lo && 0 < num < Whole(hi, lo)
    ensures var d, r: int := Whole(hi, lo), Div32(num, hi, lo);
            -4 * d <= num * 0x8000_0000 - r * d <= 112 * d
  {
    hide Mul, DivS, Mpy3216, Mpy32, LExtract;
    var d, l3: int := Whole(hi, lo), Reciprocal(hi, lo);
    ReciprocalBounds(hi, lo);
    ReciprocalRange(d, l3);
    ExtractValue(l3);
    ExtractValue(num);
    var (h2, l2) := LExtract(l3);
    var (nh, nl) := LExtract(num);
    MulIsProduct(nh, h2);
    MulBound(nh, h2, 0x7fff, 0x4001);
    Mpy32Value(nh, nl, h2, l2);
    MulIsProduct(num - num % 2, l3 - l3 % 2);
    var l4: int := Mpy32(nh, nl, h2, l2);
    var e4 := Mul(num - num % 2, l3 - l3 % 2) - 0x8000_0000 * l4;
    QuotientBounds(d, num, num % 2, l3, l3 % 2, l4, e4);
    DoubledIsShift(l4, 2);
    QuotientSaturates(d, num, l4);
  }

  lemma ReciprocalRange(d: int, l3: int)
    requires 0x4000_0000 <= d < 0x8000_0000
    requires 0x1000_0000_0000_0000 - 20 * d <= d * l3 <= 0x1000_0000_0000_0000 + d
    ensures 0 < l3 <= 0x4000_0001
  {
    if l3 <= 0 { MulMono(l3, 0, d); }
    if l3 > 0x4000_0001 { MulMono(0x4000_0002, l3, d); }
  }

  /** The final shift by two, which saturates only where the exact quotient is that large. */
  lemma QuotientSaturates(d: int, num: int, l4: int32)
    requires 0x4000_0000 <= d < 0x8000_0000 && 0 < num < d
    requires -4 * d <= num * 0x8000_0000 - 4 * (d * l4) <= 112 * d
    ensures -4 * d <= num * 0x8000_0000 - Saturate32(4 * l4) * d <= 112 * d
  {
    var r: int := Saturate32(4 * l4);
    assert r * d == d * r;
    if 4 * l4 > 0x7fff_ffff {
      MulMono(r, 4 * l4, d);
      assert d * (4 * l4) == 4 * (d * l4);
      assert num * 0x8000_0000 <= d * 0x8000_0000;
    } else if 4 * l4 < -0x8000_0000 {
      assert d * (4 * l4) == 4 * (d * l4);
      MulMono(4 * l4, -0x8000_0000, d);
      assert false;
    } else {
      assert d * (4 * l4) == 4 * (d * l4);
    }
  }
}
