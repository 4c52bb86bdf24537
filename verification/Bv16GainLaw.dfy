/** What the two table-driven conversions of BroadVoice16 gain coding amount to: the linear
    gain of the log-gain of a residual energy is the square root of that energy, to within
    five per cent of the energy. */
module Bv16GainLaw {
  import opened FixedPoint
  import opened Bv16Basop
  import opened Bv16Oper32
  import Bv16Gain

  function Tablog(i: nat): int requires i < 65 { Bv16Gain.Tablog(i) }

  function Tabpow(i: nat): int requires i < 65 { Bv16Gain.Tabpow(i) }

  lemma TablesRise(i: nat)
    requires i < 64
    ensures Tablog(i) <= Tablog(i + 1) && Tabpow(i) <= Tabpow(i + 1)
  {
    TablogRises(i);
    TabpowRises(i);
  }

  lemma TablogRises(i: nat)
    requires i < 64
    ensures Tablog(i) <= Tablog(i + 1)
  {
  }

  lemma TabpowRises(i: nat)
    requires i < 64
    ensures Tabpow(i) <= Tabpow(i + 1)
  {
  }

  /** Linear interpolation stays between the table entries. */
  lemma Interpolation(t: int16, next: int16, sub: int16)
    requires 0 <= t <= next && 0 <= sub
    ensures var a := LMac(DepositH(t), sub, SatSub16(next, t));
            0x1_0000 * Int(t) <= a <= 0x1_0000 * Int(next)
  {
    hide Mul;
    var d: int := Int(next) - t;
    MulIsProduct(sub, d);
    MulMono(Int(sub), 0x8000, d);
    MulMono(0, Int(sub), d);
  }

  /** Log2: the normalised argument lies in an interval of the table, and the fraction between
      the entries at its ends. */
  lemma LogInterval(x: int32)
    requires x > 0
    ensures var (e, f) := Bv16Gain.Log2(x);
            var n := NormL(x);
            var man := x * Pow2(n);
            var i := (man - 0x4000_0000) / 0x100_0000;
            && n <= 30 && e == 30 - n && 0x4000_0000 <= man <= 0x7fff_ffff && 0 <= i < 64
            && Tablog(i) <= f <= Tablog(i + 1)
  {
    hide NormL, Pow2, Bv16Gain.Tablog, LMac, LShl;
    NormLNormalises(x);
    var man: int32 := LShl(x, NormL(x));
    MantissaParts(man);
    var i := (man - 0x4000_0000) / 0x100_0000;
    TablogRises(i);
    var sub := ExtractL(LShr(LShr(LSub(man, 0x4000_0000), 8) % 0x1_0000, 1));
    Interpolation(Bv16Gain.Tablog(i), Bv16Gain.Tablog(i + 1), sub);
    RoundBetween(LMac(DepositH(Bv16Gain.Tablog(i)), sub, SatSub16(Bv16Gain.Tablog(i + 1), Bv16Gain.Tablog(i))),
                 Bv16Gain.Tablog(i), Bv16Gain.Tablog(i + 1));
  }

  lemma MantissaParts(man: int32)
    requires 0x4000_0000 <= man
    ensures var a := LShr(LSub(man, 0x4000_0000), 8);
            && ExtractH(a) == (man - 0x4000_0000) / 0x100_0000 && 0 <= ExtractH(a) < 64
            && 0 <= ExtractL(LShr(a % 0x1_0000, 1))
  {
    Pow2Table();
    AsrIsQuotient(LSub(man, 0x4000_0000), 8);
    ShrOne(LShr(LSub(man, 0x4000_0000), 8) % 0x1_0000);
  }

  lemma RoundBetween(a: int32, t: int16, next: int16)
    requires 0x1_0000 * Int(t) <= a <= 0x1_0000 * Int(next)
    ensures t <= Round(a) <= next
  {
  }

  /** Pow2: the result before the last shift lies between the entries at the ends of the
      table interval of the fraction. */
  lemma PowerInterval(exp: int16, frac: int16)
    requires 0 <= frac && 18 <= exp <= 30
    ensures var j := Int(frac) / 512;
            var p := Pow2(30 - exp);
            var g := p * Bv16Gain.TwoTo(exp, frac);
            && j < 64
            && 0x1_0000 * Tabpow(j) - p <= g <= 0x1_0000 * Tabpow(j + 1) + p && p <= 4096
  {
    hide Pow2, Bv16Gain.Tabpow, LMac, LShrR, Asr;
    Pow2Table();
    AsrIsQuotient(frac, 9);
    var j: nat := Int(frac) / 512;
    var sub := Shl16(frac % 512, 6);
    SubInterval(frac % 512);
    Bv16Gain.FractionIndex(frac);
    TabpowRises(j);
    Interpolation(Bv16Gain.Tabpow(j), Bv16Gain.Tabpow(j + 1), sub);
    var a := LMac(DepositH(Bv16Gain.Tabpow(j)), sub, SatSub16(Bv16Gain.Tabpow(j + 1), Bv16Gain.Tabpow(j)));
    Pow2Mono(30 - exp, 12);
    RoundedShift(a, 30 - exp);
  }

  lemma SubInterval(x: int16)
    requires 0 <= x < 512
    ensures Shl16(x, 6) == 64 * x
  {
    Pow2Table();
    MulIsProduct(x, 64);
  }

  lemma RoundedShift(a: int32, n: nat)
    requires 0 <= a <= 0x7fff_0000 && n <= 12
    ensures Abs(Pow2(n) * LShrR(a, n) - a) <= Pow2(n)
  {
    hide Pow2, LShrR;
    RoundedUpOrDown(a, n);
    NextMultiple(a, Pow2(n), LShrR(a, n));
  }

  lemma RoundedUpOrDown(a: int32, n: nat)
    requires 0 <= a <= 0x7fff_0000 && n <= 12
    ensures LShrR(a, n) == a / Pow2(n) || LShrR(a, n) == a / Pow2(n) + 1
  {
    hide Pow2, Asr;
    AsrIsQuotient(a, n);
    QuotientWithin(a, Pow2(n));
  }

  lemma QuotientWithin(a: int, p: nat)
    requires 0 <= a && p >= 1
    ensures 0 <= a / p <= a
  {
    var q := a / p;
    assert a == p * q + a % p;
    if q > a { MulMono(1, p, q); }
    if q < 0 { MulMono(q, -1, p); }
  }

  lemma NextMultiple(a: int, p: nat, q: int)
    requires p >= 1 && (q == a / p || q == a / p + 1)
    ensures Abs(p * q - a) <= p
  {
    assert a == p * (a / p) + a % p;
    assert p * (a / p + 1) == p * (a / p) + p;
  }

  // ---------------------------------------------------------------- the root

  /** The two tables against each other, at both ends of an interval: a fraction f of the
      logarithm halves to one of the power, whose square is the mantissa again. */
  lemma EvenLow(i: nat)
    requires i < 64
    ensures var j := Tablog(i) / 1024;
            0 <= j < 64 && 96 * 0x100_0000 * (65 + i) <= 400 * (Tabpow(j) * Tabpow(j))
  {
    hide Tablog, Tabpow;
    if i < 32 { EvenLowFirst(i); } else { EvenLowSecond(i); }
  }

  lemma EvenLowFirst(i: nat)
    requires i < 32
    ensures var j := Tablog(i) / 1024;
            0 <= j < 64 && 96 * 0x100_0000 * (65 + i) <= 400 * (Tabpow(j) * Tabpow(j))
  {
  }

  lemma EvenLowSecond(i: nat)
    requires 32 <= i < 64
    ensures var j := Tablog(i) / 1024;
            0 <= j < 64 && 96 * 0x100_0000 * (65 + i) <= 400 * (Tabpow(j) * Tabpow(j))
  {
  }

  lemma EvenHigh(i: nat)
    requires i < 64
    ensures var k := Tablog(i + 1) / 1024;
            0 <= k < 64 && 400 * (Tabpow(k + 1) * Tabpow(k + 1)) <= 104 * 0x100_0000 * (64 + i)
  {
  }

  lemma OddLow(i: nat)
    requires i < 64
    ensures var j := (0x8000 + Tablog(i)) / 1024;
            0 <= j < 64 && 96 * 0x200_0000 * (65 + i) <= 400 * (Tabpow(j) * Tabpow(j))
  {
    hide Tablog, Tabpow;
    if i < 32 { OddLowFirst(i); } else { OddLowSecond(i); }
  }

  lemma OddLowFirst(i: nat)
    requires i < 32
    ensures var j := (0x8000 + Tablog(i)) / 1024;
            0 <= j < 64 && 96 * 0x200_0000 * (65 + i) <= 400 * (Tabpow(j) * Tabpow(j))
  {
  }

  lemma OddLowSecond(i: nat)
    requires 32 <= i < 64
    ensures var j := (0x8000 + Tablog(i)) / 1024;
            0 <= j < 64 && 96 * 0x200_0000 * (65 + i) <= 400 * (Tabpow(j) * Tabpow(j))
  {
  }

  lemma OddHigh(i: nat)
    requires i < 64
    ensures var k := (0x8000 + Tablog(i + 1)) / 1024;
            0 <= k < 64 && 400 * (Tabpow(k + 1) * Tabpow(k + 1)) <= 104 * 0x200_0000 * (64 + i)
  {
  }

  /** The residual energy less the factor five of a frame of 40 samples in Q3. */
  function Fifth(ee: int32): int32 {
    var (hi, lo) := LExtract(ee);
    Mpy3216(hi, lo, 6554)
  }

  lemma FifthIs(ee: int32)
    requires ee >= 80
    ensures 16 <= Fifth(ee) <= 0x1fff_ffff
    ensures ee - 15 <= 5 * Int32(Fifth(ee)) <= ee + ee / 16000
  {
    hide Mul, LExtract, Mpy3216;
    ExtractValue(ee);
    var (hi, lo) := LExtract(ee);
    MulIsProduct(hi, 6554);
    MulIsProduct(lo, 6554);
    Mpy3216Value(hi, lo, 6554);
    MulIsProduct(Whole(hi, lo), 6554);
    if hi == 0 { SmallEnergy(lo); }
  }

  lemma SmallEnergy(lo: int16)
    requires 40 <= lo
    ensures Mpy3216(0, lo, 6554) >= 16
  {
    hide Mul;
    MulIsProduct(0, 6554);
    MulIsProduct(lo, 6554);
    MulOne(Mult(lo, 6554));
  }

  function Int32(x: int32): int { x }

  lemma ExponentRange(x: int32)
    requires 16 <= x <= 0x1fff_ffff
    ensures 2 <= NormL(x) <= 26
  {
    hide Pow2, NormL;
    LogInterval(x);
    Pow2Table();
    Pow2Word();
    Pow2Add(4, 26);
    Pow2Add(1, 26);
    var n := NormL(x);
    if n < 2 { Pow2Mono(n, 1); MulMono(x, 0x1fff_ffff, Pow2(n)); }
    if n > 26 { Pow2Mono(27, n); MulMono(16, x, Pow2(n)); }
  }

  lemma LogGainIs(ee: int32)
    requires ee >= 80
    ensures var (e, f) := Bv16Gain.Log2(Fifth(ee));
            && 4 <= e <= 28 && 0 <= f
            && Int32(Bv16Gain.LogGain(ee)) == 0x200_0000 * (Int(e) - 4) + 1024 * Int(f)
  {
    hide Bv16Gain.Log2, Mpy3216, LExtract, Pow2, NormL;
    var x := Fifth(ee);
    FifthIs(ee);
    LogInterval(x);
    ExponentRange(x);
    var (e, f) := Bv16Gain.Log2(x);
    LogParts(e, f);
  }

  lemma LogParts(e: int16, f: int16)
    requires 4 <= e <= 28 && 0 <= f
    ensures LShl(DepositH(SatSub16(e, 4)), 9) == 0x200_0000 * (Int(e) - 4) && LShr(DepositH(f), 6) == 1024 * Int(f)
  {
    Pow2Table();
    DoubledIsShift(DepositH(SatSub16(e, 4)), 9);
    AsrIsQuotient(DepositH(f), 6);
  }

  lemma LinearGainIs(k: int, f: int)
    requires 0 <= k <= 24 && 0 <= f <= 0x7fff
    ensures Bv16Gain.LinearGain(0x200_0000 * k + 1024 * f) == Bv16Gain.TwoTo(18 + k / 2, (k % 2 * 0x8000 + f) / 2)
  {
    hide LExtract, Bv16Gain.TwoTo, Asr;
    var lg: int32 := 0x200_0000 * k + 1024 * f;
    Pow2Table();
    AsrIsQuotient(lg, 10);
    var x := LShr(lg, 10);
    assert x == 0x8000 * k + f;
    ExtractValue(x);
    HighHalf(x);
    assert x / 0x1_0000 == k / 2;
  }

  lemma HighHalf(x: int32)
    ensures LExtract(x).0 == x / 0x1_0000
  {
  }

  /** The square of a value between table entries, against the mantissa. */
  lemma CellSquare(g: int, t: int, p: nat, bound: int, above: bool)
    requires 0x4000 <= t <= 0x7fff && p <= 4096
    requires if above then 0 <= g <= 0x1_0000 * t + p && 400 * (t * t) <= 104 * bound
             else g >= 0x1_0000 * t - p && 96 * bound <= 400 * (t * t)
    ensures if above then 100 * Square(g) <= 105 * (0x4000_0000 * bound) else 95 * (0x4000_0000 * bound) <= 100 * Square(g)
  {
    assert (0xffff * t) * (0xffff * t) == 0xfffe_0001 * (t * t);
    assert (0x1_0001 * t) * (0x1_0001 * t) == 0x1_0002_0001 * (t * t);
    if above {
      SquareMono(g, 0x1_0001 * t);
    } else {
      SquareMono(0xffff * t, g);
    }
  }

  lemma SquareMono(a: int, b: int)
    requires 0 <= a <= b
    ensures a * a <= b * b
  {
    MulMono(a, b, a);
    MulMono(a, b, b);
  }

  /** An interval of the logarithm and what half of it gives: g is the gain before the last
      shift, man the mantissa in Q30, odd the parity of its exponent. */
  lemma CellRoot(i: nat, odd: int, f: int, man: int, g: int, p: nat)
    requires i < 64 && 0 <= odd <= 1 && Tablog(i) <= f <= Tablog(i + 1) && p <= 4096
    requires 0x100_0000 * (64 + i) <= man < 0x100_0000 * (65 + i)
    requires var j := (odd * 0x8000 + f) / 1024;
             j < 64 && 0x1_0000 * Tabpow(j) - p <= g <= 0x1_0000 * Tabpow(j + 1) + p
    ensures var m := if odd == 0 then man else 2 * man;
            95 * (0x4000_0000 * m) <= 100 * Square(g) <= 105 * (0x4000_0000 * m)
  {
    hide Tablog, Tabpow;
    var lo, hi := (odd * 0x8000 + Tablog(i)) / 1024, (odd * 0x8000 + Tablog(i + 1)) / 1024;
    var j := (odd * 0x8000 + f) / 1024;
    if odd == 0 {
      EvenLow(i);
      EvenHigh(i);
    } else {
      OddLow(i);
      OddHigh(i);
    }
    TabpowMono(lo, j);
    TabpowMono(j + 1, hi + 1);
    TabpowRange(lo);
    TabpowRange(hi + 1);
    var unit := if odd == 0 then 0x100_0000 else 0x200_0000;
    CellSquare(g, Tabpow(lo), p, unit * (65 + i), false);
    CellSquare(g, Tabpow(hi + 1), p, unit * (64 + i), true);
  }

  lemma TabpowRange(i: nat)
    requires i < 65
    ensures 0x4000 <= Tabpow(i) <= 0x7fff
  {
  }

  lemma {:induction false} TabpowMono(i: nat, j: nat)
    requires i <= j < 65
    ensures Tabpow(i) <= Tabpow(j)
    decreases j - i
  {
    hide Tabpow;
    if i == j {
    } else {
      TabpowMono(i, j - 1);
      TabpowRises(j - 1);
    }
  }

  /** The gain g before its last shift by n, against the argument x of mantissa m. */
  lemma Unshifted(x: int, g: int, k: int, n: nat, norm: nat, m: int)
    requires 0 <= k && n == 12 - k / 2 && k <= 24 && norm == 26 - k
    requires m == if k % 2 == 0 then x * Pow2(norm) else 2 * (x * Pow2(norm))
    requires 95 * (0x4000_0000 * m) <= 100 * Square(Pow2(n) * g) <= 105 * (0x4000_0000 * m)
    ensures 95 * (0x1_0000_0000 * x) <= 100 * Square(g) <= 105 * (0x1_0000_0000 * x)
  {
    hide Pow2, Square;
    var p, odd := Pow2(2 * n), k % 2;
    Pow2Add(n, n);
    Pow2Add(norm, odd);
    Pow2Add(2, 2 * n);
    Pow2Table();
    ScaledArgument(x, Pow2(norm), Pow2(odd), p);
    SquareOfProduct(Pow2(n), g, p);
    Cancelled(p, Square(g), x);
  }

  function Square(x: int): int { x * x }

  lemma SquareOfProduct(q: int, g: int, p: int)
    requires q * q == p
    ensures Square(q * g) == p * Square(g)
  {
    assert (q * g) * (q * g) == (q * q) * (g * g);
  }

  lemma ScaledArgument(x: int, a: int, b: int, p: int)
    requires a * b == 4 * p && (b == 1 || b == 2)
    ensures b * (x * a) == 4 * (x * p)
  {
    assert b * (x * a) == x * (a * b);
    assert x * (4 * p) == 4 * (x * p);
  }

  lemma Cancelled(p: nat, y: int, x: int)
    requires p >= 1 && 95 * (0x1_0000_0000 * (x * p)) <= 100 * (p * y) <= 105 * (0x1_0000_0000 * (x * p))
    ensures 95 * (0x1_0000_0000 * x) <= 100 * y <= 105 * (0x1_0000_0000 * x)
  {
    var lo, hi := 100 * y - 95 * (0x1_0000_0000 * x), 105 * (0x1_0000_0000 * x) - 100 * y;
    assert p * lo == 100 * (p * y) - 95 * (0x1_0000_0000 * (x * p));
    assert p * hi == 105 * (0x1_0000_0000 * (x * p)) - 100 * (p * y);
    if lo < 0 { MulMono(lo, -1, p); }
    if hi < 0 { MulMono(hi, -1, p); }
  }

  /** The linear gain of the log-gain of an energy: its square is the energy, in the units of
      both, to within five per cent; at the least energies the gain is that of their floor. */
  lemma GainIsRoot(ee: int32)
    ensures ee < 80 ==> Bv16Gain.LinearGain(Bv16Gain.LogGain(ee)) == 0x4_0000
    ensures ee >= 80 ==>
              var g, x := Int32(Bv16Gain.LinearGain(Bv16Gain.LogGain(ee))), Int32(Fifth(ee));
              95 * (0x1_0000_0000 * x) <= 100 * Square(g) <= 105 * (0x1_0000_0000 * x)
  {
    if ee < 80 { FloorGain(); } else { RootOf(ee); }
  }

  lemma FloorGain()
    ensures Bv16Gain.LinearGain(0) == 0x4_0000
  {
    hide Bv16Gain.LinearGain, Bv16Gain.TwoTo;
    LinearGainIs(0, 0);
    FloorPower();
  }

  lemma FloorPower()
    ensures Bv16Gain.TwoTo(18, 0) == 0x4_0000
  {
    hide Pow2, Asr, LMac, Bv16Gain.Tabpow;
    Pow2Table();
    AsrIsQuotient(0, 9);
    SubInterval(0);
    Interpolated0();
    AsrIsQuotient(0x4000_0000, 12);
    AsrIsQuotient(0x4000_0000, 11);
  }

  lemma Interpolated0()
    ensures LMac(DepositH(Bv16Gain.Tabpow(0)), 0, SatSub16(Bv16Gain.Tabpow(1), Bv16Gain.Tabpow(0))) == 0x4000_0000
  {
    MulIsProduct(0, 178);
  }

  lemma RootOf(ee: int32)
    requires ee >= 80
    ensures var g, x := Int32(Bv16Gain.LinearGain(Bv16Gain.LogGain(ee))), Int32(Fifth(ee));
            95 * (0x1_0000_0000 * x) <= 100 * Square(g) <= 105 * (0x1_0000_0000 * x)
  {
    hide Bv16Gain.LinearGain, Bv16Gain.LogGain, Bv16Gain.Log2, Bv16Gain.TwoTo, Fifth, Square, Pow2, NormL, Tablog, Tabpow;
    var x := Fifth(ee);
    var (e, f) := Bv16Gain.Log2(x);
    FifthIs(ee);
    LogGainIs(ee);
    LogInterval(x);
    var k: int := Int(e) - 4;
    var norm := NormL(x);
    var man := x * Pow2(norm);
    var i: nat := (man - 0x4000_0000) / 0x100_0000;
    LinearGainIs(k, f);
    var frac: int16 := (k % 2 * 0x8000 + Int(f)) / 2;
    PowerInterval(18 + k / 2, frac);
    var n: nat := 12 - k / 2;
    var g := Int32(Bv16Gain.TwoTo(18 + k / 2, frac));
    assert frac / 512 == (k % 2 * 0x8000 + Int(f)) / 1024;
    CellRoot(i, k % 2, f, man, Pow2(n) * g, Pow2(n));
    Unshifted(x, g, k, n, norm, if k % 2 == 0 then man else 2 * man);
  }

  // ---------------------------------------------------------------- quantisation of the log-gain

  /** The prediction error of a log-gain lg, rounded to the scale of the codebook. */
  function PredictionError(lg: int32, elg: int32): int16 { Round(LShl(LSub(lg, elg), 2)) }

  lemma PredictionErrorNear(lg: int32, elg: int32)
    requires Abs(Int32(lg) - elg) <= 0x1fff_0000
    ensures Abs(0x4000 * Int(PredictionError(lg, elg)) - (Int32(lg) - elg)) <= 0x2000
  {
    Pow2Table();
    DoubledIsShift(LSub(lg, elg), 2);
  }

  lemma DecodedIs(elg: int32, k: nat)
    requires k < 16 && Abs(Int32(elg)) <= 0x4000_0000
    ensures Int32(Bv16Gain.Decoded(elg, k)) == Int32(elg) + 0x4000 * Int(Bv16Gain.Lgpecb(k))
  {
    hide Bv16Gain.Lgpecb, Asr;
    Pow2Table();
    AsrIsQuotient(DepositH(Bv16Gain.Lgpecb(k)), 2);
  }

  /** The least distance is never a saturated one, and no distance exceeds the true one. */
  lemma NearestDistance(lgpe: int16, k: nat)
    requires k < 16
    ensures var m := Bv16Gain.Nearest(lgpe, 16);
            Abs(Int(lgpe) - Bv16Gain.Lgpecb(Bv16Gain.Idxord(m))) <= Abs(Int(lgpe) - Bv16Gain.Lgpecb(Bv16Gain.Idxord(k)))
  {
    var m := Bv16Gain.Nearest(lgpe, 16);
    assert Bv16Gain.Distance(lgpe, m) <= Bv16Gain.Distance(lgpe, 0) && Bv16Gain.Distance(lgpe, m) <= Bv16Gain.Distance(lgpe, 15);
    assert Bv16Gain.Distance(lgpe, m) <= Bv16Gain.Distance(lgpe, k);
    EndEntries();
    TrueDistance(lgpe, Bv16Gain.Lgpecb(Bv16Gain.Idxord(m)));
    TrueDistance(lgpe, Bv16Gain.Lgpecb(Bv16Gain.Idxord(k)));
  }

  lemma EndEntries()
    ensures Bv16Gain.Lgpecb(Bv16Gain.Idxord(0)) == -11028 && Bv16Gain.Lgpecb(Bv16Gain.Idxord(15)) == 24272
  {
  }

  lemma TrueDistance(x: int16, y: int16)
    ensures SatAbs16(SatSub16(x, y)) <= Abs(Int(x) - y)
    ensures SatAbs16(SatSub16(x, y)) < 0x7fff ==> Int(SatAbs16(SatSub16(x, y))) == Abs(Int(x) - y)
  {
  }

  /** The entry the gain search finds decodes to a log-gain as near to the wanted one as any
      other entry's, up to the rounding of the prediction error. */
  lemma NearestIsClosest(lg: int32, elg: int32, k: nat)
    requires k < 16 && Abs(Int32(elg)) <= 0x4000_0000 && Abs(Int32(lg) - elg) <= 0x1fff_0000
    ensures var m := Bv16Gain.Idxord(Bv16Gain.Nearest(PredictionError(lg, elg), 16));
            Abs(Int32(Bv16Gain.Decoded(elg, m)) - lg) <= Abs(Int32(Bv16Gain.Decoded(elg, Bv16Gain.Idxord(k))) - lg) + 0x4000
  {
    hide Bv16Gain.Lgpecb, Bv16Gain.Idxord, Bv16Gain.Nearest, PredictionError, Bv16Gain.Decoded;
    var lgpe := PredictionError(lg, elg);
    var m := Bv16Gain.Nearest(lgpe, 16);
    PredictionErrorNear(lg, elg);
    NearestDistance(lgpe, k);
    DecodedIs(elg, Bv16Gain.Idxord(m));
    DecodedIs(elg, Bv16Gain.Idxord(k));
  }

  /** Where no entry exceeds the limit, that entry is the one sent. */
  lemma ClosestIsChosen(g: Bv16Gain.Gain, lg: int32, level: int32)
    ensures var elg := Bv16Gain.Predicted(g.lgpm);
            var m := Bv16Gain.Nearest(PredictionError(lg, elg), 16);
            var limit := LAdd(g.prev0, DepositH(Bv16Gain.Limit(g, level)));
            Bv16Gain.Decoded(elg, Bv16Gain.Idxord(m)) <= limit ==> Bv16Gain.Chosen(g, lg, level) == Bv16Gain.Idxord(m)
  {
    hide Bv16Gain.Lgpecb, Bv16Gain.Idxord, Bv16Gain.Nearest, Bv16Gain.Decoded, Bv16Gain.Predicted, Bv16Gain.Limit;
  }

  /** A bin holds the differences of two octaves from its lower end on; the first and the last
      also hold those beyond. */
  lemma BinHolds(a: int32, b: int32, low: int16, bins: nat)
    requires 1 <= bins <= 18 && -64 <= low <= 64 && Moderate(a) && Moderate(b)
    ensures var i, d := Bv16Gain.Bin(a, b, low, bins), Int32(a) - b;
            && (i > 0 ==> 0x200_0000 * (2 * i + Int(low)) <= d)
            && (i < bins - 1 ==> d < 0x200_0000 * (2 * i + 2 + Int(low)))
  {
    var x := ExtractH(LSub(a, b));
    Pow2Table();
    ShiftedDownBy(x, 9, 512);
    ShiftedDownBy(SatSub16(Shr16(x, 9), low), 1, 2);
  }

  lemma ShiftedDownBy(x: int16, n: nat, p: nat)
    requires n < 15 && p == Pow2(n)
    ensures Shr16(x, n) == x / p
  {
    AsrIsQuotient(x, n);
  }

  // ---------------------------------------------------------------- level estimation

  /** The value is was moved towards target by w parts of 32768, rounded down by at most 6. */
  ghost predicate Leaks(value: int, was: int, target: int, w: int) {
    (0x8000 - w) * was + w * target - 6 * 0x8000 <= 0x8000 * value <= (0x8000 - w) * was + w * target
  }

  lemma ScaledIs(x: int32, alpha: int16)
    requires 0 <= alpha <= 32760
    ensures alpha * Int32(x) - 0x1_8000 <= 0x8000 * Int32(Bv16Gain.Scaled(x, alpha)) <= alpha * Int32(x)
  {
    hide Mul, LExtract, Mpy3216, Rest;
    ExtractValue(x);
    var (hi, lo) := LExtract(x);
    HalfProduct(hi, alpha);
    Mpy3216Value(hi, lo, alpha);
    MulIsProduct(Whole(hi, lo), alpha);
    LowBitDropped(x, Whole(hi, lo), alpha);
  }

  lemma HalfProduct(hi: int16, alpha: int16)
    requires 0 <= alpha <= 32760
    ensures -0x7fff_0000 <= 2 * Mul(hi, alpha) <= 0x7ffe_0000
  {
    hide Mul;
    MulIsProduct(hi, alpha);
    MulBound(hi, alpha, 0x8000, 32760);
  }

  lemma LowBitDropped(x: int, whole: int, alpha: int)
    requires whole == x - x % 2
    requires 0 <= alpha
    ensures alpha * x - alpha <= whole * alpha <= alpha * x
  {
    assert whole * alpha == alpha * x - alpha * (x % 2);
    assert x % 2 == 0 || x % 2 == 1;
  }

  ghost predicate Moderate(x: int) { -0x4000_0000 < x < 0x4000_0000 }

  /** Forgetting an extreme towards the mean. */
  lemma TowardsLeaks(x: int32, mean: int32, alpha: int16)
    requires Moderate(x) && Moderate(mean) && 0 <= alpha <= 32760
    ensures Leaks(Bv16Gain.Towards(x, mean, alpha), x, mean, 0x8000 - alpha)
  {
    hide Bv16Gain.Scaled;
    var d: int32 := Int32(x) - mean;
    ScaledIs(d, alpha);
    ScaledWithin(d, alpha, Int32(Bv16Gain.Scaled(d, alpha)));
    assert alpha * Int32(d) == alpha * Int32(x) - alpha * Int32(mean);
  }

  lemma ScaledWithin(x: int, alpha: int, y: int)
    requires 0 <= alpha <= 32760 && alpha * x - 0x1_8000 <= 0x8000 * y <= alpha * x
    ensures (x >= 0 ==> -3 <= y <= x) && (x <= 0 ==> x - 3 <= y <= 0)
  {
    if x >= 0 { MulMono(alpha, 0x8000, x); MulMono(0, alpha, x); } else { MulMono(alpha, 0x8000, -x); MulMono(0, alpha, -x); }
  }

  /** A mean of two values with weights 32768 - w and w. */
  lemma MeanLeaks(was: int32, target: int32, w: int16)
    requires Moderate(was) && Moderate(target) && 8 <= w <= 0x4000
    ensures Leaks(LAdd(Bv16Gain.Scaled(was, 0x8000 - Int(w)), Bv16Gain.Scaled(target, w)), was, target, w)
    ensures LAdd(Bv16Gain.Scaled(target, w), Bv16Gain.Scaled(was, 0x8000 - Int(w)))
            == LAdd(Bv16Gain.Scaled(was, 0x8000 - Int(w)), Bv16Gain.Scaled(target, w))
  {
    hide Bv16Gain.Scaled;
    var a: int16 := 0x8000 - Int(w);
    ScaledIs(was, a);
    ScaledIs(target, w);
    ScaledWithin(was, a, Bv16Gain.Scaled(was, a));
    ScaledWithin(target, w, Bv16Gain.Scaled(target, w));
  }

  /** A value between two others, up to the rounding. */
  lemma LeaksBetween(value: int, was: int, target: int, w: int, bound: int)
    requires Leaks(value, was, target, w) && 0 <= w <= 0x8000 && Abs(was) <= bound && Abs(target) <= bound
    ensures Abs(value) <= bound + 6
  {
    MulBound(0x8000 - w, was, 0x8000 - w, bound);
    MulBound(w, target, w, bound);
    assert (0x8000 - w) * bound + w * bound == 0x8000 * bound;
  }

  /** Levels of at most 32 octaves in Q25, with a little room. */
  ghost predicate LevelsFit(lv: Bv16Gain.Levels) {
    && Abs(lv.level) <= 0x3fff_0000 && Abs(lv.lmax) <= 0x3fff_0000 && Abs(lv.lmin) <= 0x3fff_0000
    && Abs(lv.lmean) <= 0x3fff_0000 && Abs(lv.x1) <= 0x3fff_0000
  }

  /** What an estimation step does to the levels: the extremes follow the log-gain at once and
      forget it slowly towards the mean, the mean follows their midpoint, and above the
      threshold, a fifth of the way from mean to maximum, the level follows the log-gain
      through two equal stages. */
  ghost predicate LevelsFollow(lv: Bv16Gain.Levels, lg: int, newMinimum: bool, alpha: int,
                               after: Bv16Gain.Levels, lth: int) {
    && (if lg > lv.lmax then after.lmax == lg else Leaks(after.lmax, lv.lmax, lv.lmean, 8))
    && (if newMinimum then after.lmin == lg else Leaks(after.lmin, lv.lmin, lv.lmean, 0x8000 - alpha))
    && Leaks(after.lmean, lv.lmean, (Int32(after.lmax) + after.lmin) / 2, 64)
    && Leaks(lth, after.lmean, after.lmax, 6554)
    && (if lg > lth then Leaks(after.x1, lv.x1, lg, 128) && Leaks(after.level, lv.level, after.x1, 128)
        else after.x1 == lv.x1 && after.level == lv.level)
  }

  lemma LevelsAreLeaky(lv: Bv16Gain.Levels, lg: int32, ngfae: int16, nggalgc: int16, alphaMin: int16)
    requires LevelsFit(lv) && Abs(lg) <= 0x3fff_0000 && 0 <= alphaMin <= 32760
    ensures var (after, next, lth) := Bv16Gain.EstLevel(lv, lg, ngfae, nggalgc, alphaMin);
            LevelsFollow(lv, lg, Bv16Gain.NewMinimum(lv, lg, ngfae, nggalgc), Bv16Gain.Forgetting(nggalgc, alphaMin), after, lth)
  {
    hide Bv16Gain.Scaled, Bv16Gain.Towards, Bv16Gain.NewMinimum, LAdd, LShr, LSub, Leaks;
    var (after, next, lth) := Bv16Gain.EstLevel(lv, lg, ngfae, nggalgc, alphaMin);
    var alpha := Bv16Gain.Forgetting(nggalgc, alphaMin);
    var b := 0x3fff_0000;
    TowardsLeaks(lv.lmax, lv.lmean, 32760);
    TowardsLeaks(lv.lmin, lv.lmean, alpha);
    LeaksBetween(Bv16Gain.Towards(lv.lmax, lv.lmean, 32760), lv.lmax, lv.lmean, 8, b);
    LeaksBetween(Bv16Gain.Towards(lv.lmin, lv.lmean, alpha), lv.lmin, lv.lmean, 0x8000 - Int(alpha), b);
    var mid := Midpoint(after.lmax, after.lmin);
    MeanLeaks(lv.lmean, mid, 64);
    LeaksBetween(after.lmean, lv.lmean, mid, 64, b + 6);
    ThresholdLeaks(after.lmax, after.lmean);
    MeanLeaks(lv.x1, lg, 128);
    if lg > lth {
      LeaksBetween(after.x1, lv.x1, lg, 128, b);
      MeanLeaks(lv.level, after.x1, 128);
    }
  }

  function Midpoint(x: int32, y: int32): (m: int32)
    ensures Moderate(x) && Moderate(y) ==> m == (Int32(x) + y) / 2
  {
    ShrOne(LAdd(x, y));
    LShr(LAdd(x, y), 1)
  }

  lemma ThresholdLeaks(lmax: int32, lmean: int32)
    requires Moderate(lmax) && Moderate(lmean)
    ensures Leaks(Bv16Gain.Threshold(lmax, lmean), lmean, lmax, 6554)
  {
    hide Bv16Gain.Scaled;
    var d: int32 := Int32(lmax) - lmean;
    ScaledIs(d, 6554);
    ScaledWithin(d, 6554, Bv16Gain.Scaled(d, 6554));
  }
}
