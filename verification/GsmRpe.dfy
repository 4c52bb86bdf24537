/** GSM 06.10 regular pulse excitation: weighting filter, grid selection, adaptive PCM and
    its inverse, grid positioning (sections 4.2.13 to 4.2.17 of GSM 06.10). */
module GsmRpe {
  import opened FixedPoint
  import opened GsmArith
  import opened GsmLongTerm

  type Pulses = s: seq<int16> | |s| == 13 witness seq(13, _ => 0)

  // ---------------------------------------------------------------- weighting filter

  /** The STEP macro of the weighting filter. */
  function Weigh(e: int, h: int): int { e * h }

  /** One output sample before the final shift; e has five guard samples on either side. */
  function WeightedSum(e: seq<int16>, k: nat): int
    requires |e| == 50 && k < 40
  {
    4096 + Weigh(e[k], -134) + Weigh(e[k + 1], -374) + Weigh(e[k + 3], 2054) + Weigh(e[k + 4], 5741) + Weigh(e[k + 5], 8192)
    + Weigh(e[k + 6], 5741) + Weigh(e[k + 7], 2054) + Weigh(e[k + 9], -374) + Weigh(e[k + 10], -134)
  }

  function Weighted(e: seq<int16>): Seg
    requires |e| == 50
  {
    seq(40, k requires 0 <= k < 40 => Saturate(WeightedSum(e, k) / 8192))
  }

  /** The weighting filter has no phase: run over the reversed signal it gives the reversed
      output. */
  lemma WeightingIsEven(e: seq<int16>, r: seq<int16>, k: nat)
    requires |e| == |r| == 50 && k < 40 && forall i :: 0 <= i < 50 ==> r[i] == e[49 - i]
    ensures Weighted(r)[k] == Weighted(e)[39 - k]
  {
    assert WeightedSum(r, k) == WeightedSum(e, 39 - k);
  }

  /** It amplifies a constant by 22766 / 8192, rounded to nearest. */
  lemma WeightingOfConstant(e: seq<int16>, c: int16, k: nat)
    requires |e| == 50 && k < 40 && (forall i :: 0 <= i < 50 ==> e[i] == c) && -11790 <= c <= 11790
    ensures 2 * Abs(8192 * Int(Weighted(e)[k]) - 22766 * Int(c)) <= 8192
  {
    assert WeightedSum(e, k) == 4096 + 22766 * Int(c);
  }

  method WeightingFilter(e: array<int16>, x: array<int16>)
    requires e.Length == 50 && x.Length == 40 && e != x
    modifies x
    ensures x[..] == Weighted(e[..])
  {
    for k := 0 to 40
      invariant forall j :: 0 <= j < k ==> x[j] == Saturate(WeightedSum(e[..], j) / 8192)
    {
      var result: int32 := 8192 / 2;
      result := result + Weigh(e[k], -134);
      result := result + Weigh(e[k + 1], -374);
      result := result + Weigh(e[k + 3], 2054);
      result := result + Weigh(e[k + 4], 5741);
      result := result + Weigh(e[k + 5], 8192);
      result := result + Weigh(e[k + 6], 5741);
      result := result + Weigh(e[k + 7], 2054);
      result := result + Weigh(e[k + 9], -374);
      result := result + Weigh(e[k + 10], -134);
      result := result / 8192;
      x[k] := Saturate(result);
    }
  }

  // ---------------------------------------------------------------- grid selection

  /** Energy of the first n pulses of grid m, two bits down. */
  function Energy(x: Seg, m: nat, n: nat): int
    requires m < 4 && n <= 13
  {
    if n == 0 then 0 else Energy(x, m, n - 1) + Mul(x[m + 3 * (n - 1)] / 4, x[m + 3 * (n - 1)] / 4)
  }

  lemma {:induction false} EnergyBound(x: Seg, m: nat, n: nat)
    requires m < 4 && n <= 13
    ensures 0 <= Energy(x, m, n) <= n * 0x400_0000
  {
    hide Mul;
    if n == 0 {
    } else {
      EnergyBound(x, m, n - 1);
      SquareBound(x[m + 3 * (n - 1)]);
    }
  }

  lemma SquareBound(a: int16)
    ensures 0 <= Mul(a / 4, a / 4) <= 0x400_0000
  {
    hide Mul;
    var t: int := a / 4;
    MulIsProduct(t, t);
    MulBound(t, t, 8192, 8192);
    assert t * t >= 0;
  }

  /** mc is the first of the four grids with the greatest energy. */
  ghost predicate BestGrid(x: Seg, mc: nat) {
    && mc < 4
    && (forall m :: 0 <= m < 4 ==> Energy(x, m, 13) <= Energy(x, mc, 13))
    && (forall m :: 0 <= m < mc ==> Energy(x, m, 13) < Energy(x, mc, 13))
  }

  function BetterGrid(x: Seg, a: nat, b: nat): nat
    requires a < 4 && b < 4
    ensures BetterGrid(x, a, b) < 4
  {
    if Energy(x, b, 13) > Energy(x, a, 13) then b else a
  }

  function GridOf(x: Seg): (mc: nat)
    ensures mc < 4
  {
    BetterGrid(x, BetterGrid(x, BetterGrid(x, 0, 1), 2), 3)
  }

  lemma GridOfIsBest(x: Seg)
    ensures BestGrid(x, GridOf(x))
  {
    hide Energy;
  }

  function Decimated(x: Seg, mc: nat): Pulses
    requires mc < 4
  {
    seq(13, i requires 0 <= i < 13 => x[mc + 3 * i])
  }

  /** The STEP macros of one grid: adds the pulses lo to hi - 1 to result. */
  method AddPulses(x: Seg, m: nat, lo: nat, hi: nat, result: int32) returns (sum: int32)
    requires m < 4 && lo <= hi <= 13 && 0 <= result <= (13 - (hi - lo)) * 0x400_0000
    ensures sum == result + Energy(x, m, hi) - Energy(x, m, lo)
  {
    hide Mul;
    sum := result;
    for i := lo to hi
      invariant sum == result + Energy(x, m, i) - Energy(x, m, lo)
      invariant 0 <= sum <= result + (i - lo) * 0x400_0000
    {
      SquareBound(x[m + 3 * i]);
      var temp := x[m + 3 * i] / 4;
      sum := sum + Mul(temp, temp);
    }
  }

  /** Grids 0 and 3 share twelve pulses: grid 0 without its first is grid 3 without its last. */
  lemma {:induction false} SharedPulses(x: Seg, n: nat)
    requires n <= 12
    ensures Energy(x, 0, n + 1) - Energy(x, 0, 1) == Energy(x, 3, n)
  {
    hide Mul;
    if n == 0 {
    } else {
      SharedPulses(x, n - 1);
      assert x[3 * n] == x[3 + 3 * (n - 1)];
    }
  }

  method RpeGridSelection(x: Seg, xM: array<int16>) returns (mc: nat)
    requires xM.Length == 13
    modifies xM
    ensures mc == GridOf(x) && xM[..] == Decimated(x, mc)
  {
    hide Mul, Energy;
    EnergyBound(x, 0, 1);
    EnergyBound(x, 0, 13);
    EnergyBound(x, 1, 13);
    EnergyBound(x, 2, 13);
    EnergyBound(x, 3, 12);
    EnergyBound(x, 3, 13);
    SharedPulses(x, 12);
    assert Energy(x, 0, 0) == Energy(x, 1, 0) == Energy(x, 2, 0) == 0 by { EnergyZero(x); }
    mc := 0;
    var common := AddPulses(x, 0, 1, 13, 0);
    var result := AddPulses(x, 0, 0, 1, common);
    result := result * 2;
    var em := result;
    result := AddPulses(x, 1, 0, 13, 0);
    result := result * 2;
    if result > em {
      mc := 1;
      em := result;
    }
    result := AddPulses(x, 2, 0, 13, 0);
    result := result * 2;
    if result > em {
      mc := 2;
      em := result;
    }
    result := AddPulses(x, 3, 12, 13, common);
    result := result * 2;
    if result > em {
      mc := 3;
      em := result;
    }
    for i := 0 to 13
      invariant forall j :: 0 <= j < i ==> xM[j] == x[mc + 3 * j]
    {
      xM[i] := x[mc + 3 * i];
    }
  }

  lemma EnergyZero(x: Seg)
    ensures forall m :: 0 <= m < 4 ==> Energy(x, m, 0) == 0
  {
  }

  // ---------------------------------------------------------------- block maximum

  /** Exponent of the logarithmic code of the block maximum. */
  function PeakExponent(xmax: int16): (exp: nat)
    requires 0 <= xmax
    ensures exp <= 6
  {
    if xmax < 512 then 0
    else if xmax < 1024 then 1
    else if xmax < 2048 then 2
    else if xmax < 4096 then 3
    else if xmax < 8192 then 4
    else if xmax < 16384 then 5
    else 6
  }

  function PeakCode(xmax: int16): (xmaxc: int16)
    requires 0 <= xmax
  {
    SatAdd16(ShiftRight(xmax, PeakExponent(xmax) + 5), PeakExponent(xmax) * 8)
  }

  /** The six-step exponent loop with its sticky test. */
  method FindPeakExponent(xmax: int16) returns (exp: nat)
    requires 0 <= xmax
    ensures exp == PeakExponent(xmax)
  {
    exp := 0;
    var temp: int := xmax / 512;
    var itest := false;
    var p := 512;
    for i := 0 to 6
      invariant 0 <= temp && p == [512, 1024, 2048, 4096, 8192, 16384, 32768][i]
      invariant temp == xmax / p
      invariant itest <==> i > 0 && 2 * xmax < p
      invariant exp == (if itest then PeakExponent(xmax) else i)
    {
      itest := itest || temp <= 0;
      temp := temp / 2;
      p := p * 2;
      if !itest {
        exp := exp + 1;
      }
    }
  }

  /** mant and exp after the normalising loop. */
  function Normalised(mant: int, exp: int): (r: (int, int))
    requires 1 <= mant <= 15
    ensures 8 <= r.0 <= 15
    decreases 15 - mant
  {
    if mant <= 7 then Normalised(2 * mant + 1, exp - 1) else (mant, exp)
  }

  /** Exponent and mantissa of the decoded block maximum. */
  function ExpMant(xmaxc: int16): (r: (int, int))
    requires 0 <= xmaxc <= 63
    ensures -4 <= r.0 <= 6 && 0 <= r.1 <= 7
  {
    var exp := if xmaxc > 15 then xmaxc / 8 - 1 else 0;
    var mant := xmaxc - exp * 8;
    if mant == 0 then (-4, 7)
    else
      NormalisedRange(mant, exp);
      var (m, e) := Normalised(mant, exp);
      (e, m - 8)
  }

  lemma NormalisedRange(mant: int, exp: int)
    requires 1 <= mant <= 15
    ensures exp - 3 <= Normalised(mant, exp).1 <= exp
    ensures mant >= 8 ==> Normalised(mant, exp) == (mant, exp)
    ensures 4 <= mant <= 7 ==> Normalised(mant, exp) == (2 * mant + 1, exp - 1)
    ensures 2 <= mant <= 3 ==> Normalised(mant, exp) == (4 * mant + 3, exp - 2)
    ensures mant == 1 ==> Normalised(mant, exp) == (15, exp - 3)
  {
    if mant == 1 {
      assert Normalised(3, exp - 1) == Normalised(7, exp - 2) == Normalised(15, exp - 3);
    }
    if 2 <= mant <= 3 {
      assert Normalised(2 * mant + 1, exp - 1) == Normalised(4 * mant + 3, exp - 2);
    }
  }

  method XmaxcToExpMant(xmaxc: int16) returns (exp: int16, mant: int16)
    requires 0 <= xmaxc <= 63
    ensures (exp as int, mant as int) == ExpMant(xmaxc)
  {
    var e := 0;
    if xmaxc > 15 {
      e := xmaxc / 8 - 1;
    }
    var m := xmaxc - e * 8;
    if m == 0 {
      e := -4;
      m := 7;
    } else {
      NormalisedRange(m, e);
      ghost var goal := Normalised(m, e);
      while m <= 7
        invariant 1 <= m <= 15 && Normalised(m, e) == goal
        decreases 15 - m
      {
        m := m * 2 + 1;
        e := e - 1;
      }
      m := m - 8;
    }
    exp, mant := e, m;
  }

  /** a is below the next step of the logarithmic code, (9 + mant) * 2^(exp + 5). */
  predicate BelowNextStep(a: int, exp: int, mant: int)
    requires -4 <= exp
  {
    a < Asl(9 + mant, exp + 5)
  }

  lemma LowPeak(xmax: int16)
    requires 0 <= xmax < 512
    ensures PeakCode(xmax) == xmax / 32
    ensures var (e, m) := ExpMant(xmax / 32);
            BelowNextStep(xmax, e, m)
  {
    hide Pow2, Normalised;
    Pow2Table();
    AsrIsQuotient(xmax, 5);
    AslIsProduct(9 + ExpMant(xmax / 32).1, ExpMant(xmax / 32).0 + 5);
    if xmax >= 32 { NormalisedRange(xmax / 32, 0); }
  }

  /** q is the block maximum down to its four leading bits. */
  lemma HighPeak(xmax: int16, q: int)
    requires 512 <= xmax && q == xmax / Pow2(PeakExponent(xmax) + 5)
    ensures 8 <= q <= 15 && xmax < (q + 1) * Pow2(PeakExponent(xmax) + 5)
    ensures PeakCode(xmax) == q + 8 * PeakExponent(xmax)
    ensures ExpMant(PeakCode(xmax)) == (PeakExponent(xmax), q - 8)
  {
    hide Pow2, Normalised;
    Pow2Table();
    var e := PeakExponent(xmax);
    AsrIsQuotient(xmax, e + 5);
    LeadingBits(xmax, e);
    NormalisedRange(q, e);
  }

  /** The exponent leaves four leading bits. */
  lemma LeadingBits(xmax: int16, e: nat)
    requires 512 <= xmax && e == PeakExponent(xmax)
    ensures 8 <= xmax / Pow2(e + 5) <= 15 && xmax < (xmax / Pow2(e + 5) + 1) * Pow2(e + 5)
  {
    hide Pow2;
    Pow2Table();
  }

  /** The block maximum lies below the next step of its own decoded code. */
  lemma PeakCodeBounds(xmax: int16)
    requires 0 <= xmax
    ensures 0 <= PeakCode(xmax) <= 63
    ensures var (e, m) := ExpMant(PeakCode(xmax));
            BelowNextStep(xmax, e, m)
  {
    hide Pow2, ExpMant, PeakCode;
    if xmax < 512 {
      LowPeak(xmax);
    } else {
      HighPeak(xmax, xmax / Pow2(PeakExponent(xmax) + 5));
      AslIsProduct(xmax / Pow2(PeakExponent(xmax) + 5) + 1, PeakExponent(xmax) + 5);
    }
  }

  // ---------------------------------------------------------------- sample quantiser

  function Nrfac(mant: int): (f: int16)
    requires 0 <= mant <= 7
  {
    match mant
    case 0 => 29128 case 1 => 26215 case 2 => 23832 case 3 => 21846
    case 4 => 20165 case 5 => 18725 case 6 => 17476 case _ => 16384
  }

  function Fac(mant: int): (f: int16)
    requires 0 <= mant <= 7
  {
    match mant
    case 0 => 18431 case 1 => 20479 case 2 => 22527 case 3 => 24575
    case 4 => 26623 case 5 => 28671 case 6 => 30719 case _ => 32767
  }

  /** The coded sample from the sample shifted up by 6 - exp. */
  function CodeShifted(y: int16, mant: int): int
    requires 0 <= mant <= 7
  {
    SatMul16(y, Nrfac(mant)) / 4096 + 4
  }

  /** temp = xM[i] << temp1 in 16 bits, then the inverse mantissa. */
  function CodeSample(x: int16, exp: int, mant: int): int
    requires -4 <= exp <= 6 && 0 <= mant <= 7
  {
    CodeShifted(Wrap16(Asl(x, 6 - exp)), mant)
  }

  /** The decoded sample before it is shifted down. */
  function DecodeShifted(c: int, mant: int): int16
    requires 0 <= c <= 7 && 0 <= mant <= 7
  {
    MultR(Fac(mant), (2 * c - 7) * 4096)
  }

  /** Half a unit of the final shift: gsm_asl(1, temp2 - 1). */
  function HalfStep(shift: nat): int16
    requires shift <= 10
  {
    Asl16(1, shift - 1)
  }

  function DecodeSample(c: int, exp: int, mant: int): int16
    requires 0 <= c <= 7 && -4 <= exp <= 6 && 0 <= mant <= 7
  {
    Asr16(SatAdd16(DecodeShifted(c, mant), HalfStep(6 - exp)), 6 - exp)
  }

  /** A shifted sample below the next mantissa; -32768 comes only with the top mantissa. */
  predicate InBlock(y: int, mant: int) {
    -2048 * (9 + mant) < y < 2048 * (9 + mant) || (mant == 7 && y == -0x8000)
  }

  /** One cell of the uniform quantiser: codes and reconstruction points of all samples
      below the next mantissa, for each of the eight mantissas. */
  ghost predicate CellHolds(y: int16, mant: int)
    requires 0 <= mant <= 7
  {
    InBlock(y, mant) ==>
      && 0 <= CodeShifted(y, mant) <= 7
      && -256 * (9 + mant) - 1 <= DecodeShifted(CodeShifted(y, mant), mant) - y <= 256 * (9 + mant) + 1
      && -0x7000 <= DecodeShifted(CodeShifted(y, mant), mant) <= 0x7000
  }

  lemma CodeShiftedValue(y: int16, mant: int)
    requires 0 <= mant <= 7
    ensures CodeShifted(y, mant) == y * Nrfac(mant) / 0x8000 / 4096 + 4
  {
    hide Mul;
    Q15Bound(y, Nrfac(mant));
    MulIsProduct(y, Nrfac(mant));
  }

  lemma DecodeShiftedValue(c: int, mant: int)
    requires 0 <= c <= 7 && 0 <= mant <= 7
    ensures DecodeShifted(c, mant) == (Fac(mant) * ((2 * c - 7) * 4096) + 0x4000) / 0x8000
  {
    hide Mul;
    MulIsProduct(Fac(mant), (2 * c - 7) * 4096);
    MultRIsRound15(Fac(mant), (2 * c - 7) * 4096);
  }

  lemma Cell0(y: int16)
    ensures CellHolds(y, 0)
  {
    hide CodeShifted, DecodeShifted;
    CodeShiftedValue(y, 0);
    var c := CodeShifted(y, 0);
    if InBlock(y, 0) {
      assert 0 <= c <= 7;
      DecodeShiftedValue(c, 0);
    }
  }

  lemma Cell1(y: int16)
    ensures CellHolds(y, 1)
  {
    hide CodeShifted, DecodeShifted;
    CodeShiftedValue(y, 1);
    var c := CodeShifted(y, 1);
    if InBlock(y, 1) {
      assert 0 <= c <= 7;
      DecodeShiftedValue(c, 1);
    }
  }

  lemma Cell2(y: int16)
    ensures CellHolds(y, 2)
  {
    hide CodeShifted, DecodeShifted;
    CodeShiftedValue(y, 2);
    var c := CodeShifted(y, 2);
    if InBlock(y, 2) {
      assert 0 <= c <= 7;
      DecodeShiftedValue(c, 2);
    }
  }

  lemma Cell3(y: int16)
    ensures CellHolds(y, 3)
  {
    hide CodeShifted, DecodeShifted;
    CodeShiftedValue(y, 3);
    var c := CodeShifted(y, 3);
    if InBlock(y, 3) {
      assert 0 <= c <= 7;
      DecodeShiftedValue(c, 3);
    }
  }

  lemma Cell4(y: int16)
    ensures CellHolds(y, 4)
  {
    hide CodeShifted, DecodeShifted;
    CodeShiftedValue(y, 4);
    var c := CodeShifted(y, 4);
    if InBlock(y, 4) {
      assert 0 <= c <= 7;
      DecodeShiftedValue(c, 4);
    }
  }

  lemma Cell5(y: int16)
    ensures CellHolds(y, 5)
  {
    hide CodeShifted, DecodeShifted;
    CodeShiftedValue(y, 5);
    var c := CodeShifted(y, 5);
    if InBlock(y, 5) {
      assert 0 <= c <= 7;
      DecodeShiftedValue(c, 5);
    }
  }

  lemma Cell6(y: int16)
    ensures CellHolds(y, 6)
  {
    hide CodeShifted, DecodeShifted;
    CodeShiftedValue(y, 6);
    var c := CodeShifted(y, 6);
    if InBlock(y, 6) {
      assert 0 <= c <= 7;
      DecodeShiftedValue(c, 6);
    }
  }

  lemma Cell7(y: int16)
    ensures CellHolds(y, 7)
  {
    hide CodeShifted, DecodeShifted;
    CodeShiftedValue(y, 7);
    var c := CodeShifted(y, 7);
    if InBlock(y, 7) {
      assert 0 <= c <= 7;
      DecodeShiftedValue(c, 7);
    }
  }

  lemma CellAt(y: int16, mant: int)
    requires 0 <= mant <= 7
    ensures CellHolds(y, mant)
  {
    hide CellHolds;
    match mant {
      case 0 => Cell0(y);
      case 1 => Cell1(y);
      case 2 => Cell2(y);
      case 3 => Cell3(y);
      case 4 => Cell4(y);
      case 5 => Cell5(y);
      case 6 => Cell6(y);
      case 7 => Cell7(y);
    }
  }

  /** Shifting a sample of the block up to the quantiser loses no bits. */
  lemma ShiftExact(x: int16, exp: int, mant: int)
    requires -4 <= exp <= 6 && 0 <= mant <= 7
    requires BelowNextStep(SatAbs16(x), exp, mant)
    ensures ShiftsExactly(x, exp)
    ensures InBlock(Asl(x, 6 - exp), mant)
  {
    hide Pow2, Asl;
    AslIsProduct(x, 6 - exp);
    AslIsProduct(9 + mant, exp + 5);
    var p, q := Pow2(6 - exp), Pow2(exp + 5);
    assert p * q == 2048 by {
      Pow2Add(6 - exp, exp + 5);
      Pow2Table();
    }
    if x == MIN16 {
      assert exp == 6 && mant == 7 by {
        if exp < 6 {
          Pow2Mono(exp + 5, 10);
          Pow2Table();
        }
        Pow2Table();
      }
      Pow2Table();
    } else {
      InBlockScaled(x, mant, p, q);
    }
  }

  lemma InBlockScaled(x: int, mant: int, p: int, q: int)
    requires 0 <= mant <= 7 && p >= 1 && p * q == 2048 && Abs(x) < (9 + mant) * q
    ensures -2048 * (9 + mant) < x * p < 2048 * (9 + mant)
  {
    var b := (9 + mant) * q;
    assert b * p == 2048 * (9 + mant);
    MulMono(x, b - 1, p);
    MulMono(1 - b, x, p);
    assert (b - 1) * p == b * p - p && (1 - b) * p == p - b * p;
  }

  lemma FloorBounds(x: int, p: int)
    requires p >= 1
    ensures x - p < p * (x / p) <= x
  {
    assert x == p * (x / p) + x % p;
  }

  /** The final shift of the decoder rounds to the nearest. */
  lemma FinalShift(r: int16, shift: nat)
    requires shift <= 10 && -0x7000 <= r <= 0x7000
    ensures var rec: int := Asr16(SatAdd16(r, HalfStep(shift)), shift);
            && -1 * Pow2(shift) <= 2 * (Pow2(shift) * rec - r) <= Pow2(shift)
            && (shift == 0 ==> rec == r)
  {
    hide Pow2, HalfStep;
    HalfStepValue(shift);
    var h := HalfStep(shift);
    assert 0 <= h <= 512 by {
      Pow2Table();
      if shift > 0 { Pow2Mono(shift - 1, 9); }
    }
    AsrIsQuotient(r + h, shift);
    assert Asr16(SatAdd16(r, h), shift) == (r + h) / Pow2(shift);
    FloorBounds(r + h, Pow2(shift));
    if shift == 0 { Pow2Table(); } else { Pow2Double(shift); }
  }

  lemma Pow2Double(n: nat)
    requires n > 0
    ensures Pow2(n) == 2 * Pow2(n - 1)
  {
  }

  lemma HalfStepValue(shift: nat)
    requires shift <= 10
    ensures HalfStep(shift) == if shift == 0 then 0 else Pow2(shift - 1)
  {
    hide Pow2;
    Pow2Table();
    if shift > 0 { Pow2Mono(shift - 1, 9); }
  }

  /** |rec - x| <= (9 + mant) * 2^(exp + 2) + 1, scaled by 2^(6 - exp) to stay in integers. */
  ghost predicate RebuiltWithin(rec: int, x: int, exp: int, mant: int)
    requires exp <= 6
  {
    Asl(Abs(rec - x), 6 - exp) <= 256 * (9 + mant) + Pow2(6 - exp)
  }

  /** x << (6 - exp) fits 16 bits. */
  ghost predicate ShiftsExactly(x: int16, exp: int)
    requires exp <= 6
  {
    Wrap16(Asl(x, 6 - exp)) == Asl(x, 6 - exp)
  }

  /** Quantiser accuracy: the code has three bits and the rebuilt sample is within half a
      quantiser step, (9 + mant) * 2^(exp + 2), and one unit of the original. */
  lemma SampleError(x: int16, exp: int, mant: int)
    requires -4 <= exp <= 6 && 0 <= mant <= 7
    requires BelowNextStep(SatAbs16(x), exp, mant)
    ensures 0 <= CodeSample(x, exp, mant) <= 7
    ensures RebuiltWithin(DecodeSample(CodeSample(x, exp, mant), exp, mant), x, exp, mant)
  {
    hide CodeShifted, DecodeShifted, Pow2, HalfStep, Asr16, InBlock, Asl, BelowNextStep, Wrap16, Abs;
    ShiftExact(x, exp, mant);
    var y := Wrap16(Asl(x, 6 - exp));
    CellAt(y, mant);
    RebuiltError(x, exp, mant, y, CodeShifted(y, mant));
  }

  /** From the cell of the shifted sample to the error of the rebuilt one. */
  lemma RebuiltError(x: int, exp: int, mant: int, y: int16, c: int)
    requires -4 <= exp <= 6 && 0 <= mant <= 7 && 0 <= c <= 7 && y == Asl(x, 6 - exp)
    requires -256 * (9 + mant) - 1 <= DecodeShifted(c, mant) - y <= 256 * (9 + mant) + 1
    requires -0x7000 <= DecodeShifted(c, mant) <= 0x7000
    ensures RebuiltWithin(DecodeSample(c, exp, mant), x, exp, mant)
  {
    hide DecodeShifted, Pow2, HalfStep, Asr16, Asl, SatAdd16;
    var p, r: int := Pow2(6 - exp), DecodeShifted(c, mant);
    AslIsProduct(x, 6 - exp);
    FinalShift(r, 6 - exp);
    var rec: int := DecodeSample(c, exp, mant);
    if exp == 6 { Pow2Table(); }
    ScaledError(rec, x, p, r, 256 * (9 + mant));
    AslIsProduct(Abs(rec - x), 6 - exp);
    assert p * Abs(rec - x) == Abs(rec - x) * p;
  }

  lemma ScaledError(rec: int, x: int, p: int, r: int, b: int)
    requires p >= 1 && -p <= 2 * (p * rec - r) <= p && (p == 1 ==> rec == r)
    requires -b - 1 <= r - x * p <= b + 1
    ensures p * Abs(rec - x) <= b + p
  {
    assert p * (rec - x) == p * rec - x * p;
    assert p * (x - rec) == x * p - p * rec;
  }

  /** xmaxc and the thirteen codes of a pulse sequence. */
  function Quantised(xM: Pulses): (r: (int16, Pulses))
    ensures 0 <= r.0 <= 63
    ensures forall i :: 0 <= i < 13 ==> 0 <= r.1[i] <= 7
  {
    var xmax := PeakAbs(xM);
    PeakCodeBounds(xmax);
    var (exp, mant) := ExpMant(PeakCode(xmax));
    CodesFit(xM);
    (PeakCode(xmax), seq(13, i requires 0 <= i < 13 => CodeSample(xM[i], exp, mant)))
  }

  lemma CodesFit(xM: Pulses)
    ensures 0 <= PeakCode(PeakAbs(xM)) <= 63
    ensures var (exp, mant) := ExpMant(PeakCode(PeakAbs(xM)));
            forall i :: 0 <= i < 13 ==> 0 <= CodeSample(xM[i], exp, mant) <= 7
  {
    hide CodeSample, PeakCode, Pow2, ExpMant;
    PeakCodeBounds(PeakAbs(xM));
    var (exp, mant) := ExpMant(PeakCode(PeakAbs(xM)));
    forall i | 0 <= i < 13 ensures 0 <= CodeSample(xM[i], exp, mant) <= 7 {
      SampleError(xM[i], exp, mant);
    }
  }

  ghost predicate ThreeBits(c: Pulses) {
    forall i :: 0 <= i < 13 ==> 0 <= c[i] <= 7
  }

  function Dequantised(c: Pulses, exp: int, mant: int): Pulses
    requires ThreeBits(c) && -4 <= exp <= 6 && 0 <= mant <= 7
  {
    seq(13, i requires 0 <= i < 13 => DecodeSample(c[i], exp, mant))
  }

  lemma QuantisedAt(xM: Pulses, i: nat)
    requires i < 13
    ensures Quantised(xM).0 == PeakCode(PeakAbs(xM))
    ensures var (exp, mant) := ExpMant(Quantised(xM).0);
            && Quantised(xM).1[i] == CodeSample(xM[i], exp, mant)
            && BelowNextStep(SatAbs16(xM[i]), exp, mant)
  {
    hide CodeSample, PeakCode, Pow2, ExpMant, SatAbs16;
    PeakCodeBounds(PeakAbs(xM));
    assert SatAbs16(xM[i]) <= PeakAbs(xM);
  }

  /** Quantising a block and rebuilding it changes no sample by more than half a step of
      the block's own scale and one unit. */
  lemma BlockError(xM: Pulses, i: nat)
    requires i < 13
    ensures var (xmaxc, c) := Quantised(xM);
            var (exp, mant) := ExpMant(xmaxc);
            && ShiftsExactly(xM[i], exp)
            && RebuiltWithin(Dequantised(c, exp, mant)[i], xM[i], exp, mant)
  {
    hide CodeSample, DecodeSample, Quantised, Pow2, ExpMant, RebuiltWithin, BelowNextStep, ShiftsExactly, InBlock, SatAbs16;
    QuantisedAt(xM, i);
    var (exp, mant) := ExpMant(Quantised(xM).0);
    ShiftExact(xM[i], exp, mant);
    SampleError(xM[i], exp, mant);
  }

  method CodePulses(xM: Pulses, exp: int16, mant: int16, xMc: array<int16>)
    requires xMc.Length == 13 && -4 <= exp <= 6 && 0 <= mant <= 7
    modifies xMc
    ensures forall i :: 0 <= i < 13 ==> xMc[i] == CodeSample(xM[i], exp, mant)
  {
    hide Pow2, SatMul16, Nrfac, Wrap16;
    var temp1 := 6 - exp;
    var temp2 := Nrfac(mant);
    for i := 0 to 13
      invariant forall j :: 0 <= j < i ==> xMc[j] == CodeSample(xM[j], exp, mant)
    {
      var temp := Wrap16(Asl(xM[i], temp1));
      temp := SatMul16(temp, temp2);
      temp := temp / 4096;
      xMc[i] := temp + 4;
    }
  }

  method ApcmQuantization(xM: Pulses, xMc: array<int16>) returns (mant: int16, exp: int16, xmaxc: int16)
    requires xMc.Length == 13
    modifies xMc
    ensures (xmaxc, xMc[..]) == Quantised(xM)
    ensures 0 <= xmaxc <= 63 && (exp as int, mant as int) == ExpMant(xmaxc)
  {
    hide PeakExponent, ExpMant, CodeSample, ShiftRight;
    var xmax := FindPeak(xM);
    CodesFit(xM);
    var e := FindPeakExponent(xmax);
    var temp := e + 5;
    xmaxc := SatAdd16(ShiftRight(xmax, temp), e * 8);
    exp, mant := XmaxcToExpMant(xmaxc);
    CodePulses(xM, exp, mant, xMc);
    assert xMc[..] == Quantised(xM).1;
  }

  method ApcmInverseQuantization(xMc: Pulses, mant: int16, exp: int16, xMp: array<int16>)
    requires ThreeBits(xMc) && -4 <= exp <= 6 && 0 <= mant <= 7 && xMp.Length == 13
    modifies xMp
    ensures xMp[..] == Dequantised(xMc, exp, mant)
  {
    hide MultR, Fac, Asr16, Asl16, SatAdd16;
    var temp1 := Fac(mant);
    var temp2 := SatSub16(6, exp);
    var temp3 := Asl16(1, SatSub16(temp2, 1));
    for i := 0 to 13
      invariant forall j :: 0 <= j < i ==> xMp[j] == DecodeSample(xMc[j], exp, mant)
    {
      var temp := xMc[i] * 2 - 7;
      temp := temp * 4096;
      temp := MultR(temp1, temp);
      temp := SatAdd16(temp, temp3);
      xMp[i] := Asr16(temp, temp2);
    }
  }

  // ---------------------------------------------------------------- grid positioning

  /** The residual with the pulses on grid mc and zeros between. */
  function Positioned(mc: nat, xMp: Pulses): Seg
    requires mc < 4
  {
    seq(40, k requires 0 <= k < 40 =>
      if k >= mc && (k - mc) % 3 == 0 && (k - mc) / 3 < 13 then xMp[(k - mc) / 3] else 0)
  }

  /** Of the 40 samples g, the first p have been written to s0 at off. */
  ghost predicate Written(s: seq<int16>, s0: seq<int16>, off: nat, p: nat, g: Seg) {
    && p <= 40 && off + 40 <= |s| == |s0|
    && s[..off] == s0[..off] && s[off..off + p] == g[..p] && s[off + p..] == s0[off + p..]
  }

  lemma WrittenNext(s: seq<int16>, s0: seq<int16>, off: nat, p: nat, g: Seg, x: int16)
    requires Written(s, s0, off, p, g) && p < 40 && g[p] == x
    ensures Written(s[off + p := x], s0, off, p + 1, g)
  {
    var t := s[off + p := x];
    assert t[off..off + p + 1] == s[off..off + p] + [x];
    assert t[off + p + 1..] == s[off + p..][1..] && s0[off + p + 1..] == s0[off + p..][1..];
  }

  /** *ep++ = x */
  method WriteNext(ep: array<int16>, off: nat, p: nat, x: int16, ghost s0: seq<int16>, ghost g: Seg) returns (next: nat)
    requires Written(ep[..], s0, off, p, g) && p < 40 && g[p] == x
    modifies ep
    ensures Written(ep[..], s0, off, next, g) && next == p + 1
  {
    WrittenNext(ep[..], s0, off, p, g, x);
    ghost var s := ep[..];
    ep[off + p] := x;
    assert ep[..] == s[off + p := x];
    next := p + 1;
  }

  /** The zeros before pulse 13 - i, and the pulse. */
  ghost predicate GroupAt(mc: nat, xMp: Pulses, i: nat, p: nat, zeros: nat)
    requires mc < 4 && 1 <= i <= 13
  {
    && p + zeros < 40 && (forall j :: p <= j < p + zeros ==> Positioned(mc, xMp)[j] == 0)
    && Positioned(mc, xMp)[p + zeros] == xMp[13 - i]
  }

  /** The first group has 2, 1 or 0 zeros left to write, all others two. */
  lemma FirstGroup(mc: nat, xMp: Pulses)
    requires mc < 4
    ensures mc == 3 ==> Positioned(mc, xMp)[0] == 0
    ensures GroupAt(mc, xMp, 13, if mc == 3 then 1 else 0, if mc >= 2 then 2 else mc)
  {
  }

  lemma NextGroup(mc: nat, xMp: Pulses, i: nat)
    requires mc < 4 && 1 <= i < 13
    ensures GroupAt(mc, xMp, i, mc + 3 * (12 - i) + 1, 2)
  {
  }

  lemma LastZeros(mc: nat, xMp: Pulses, k: nat)
    requires mc < 4 && mc + 37 <= k < 40
    ensures Positioned(mc, xMp)[k] == 0
  {
  }

  /** One pass of the do-while loop, entered with so many zeros to write. */
  method WriteGroup(ep: array<int16>, off: nat, p: nat, zeros: nat, i: nat, mc: nat, xMp: Pulses, ghost s0: seq<int16>)
    returns (next: nat)
    requires mc < 4 && 1 <= i <= 13 && zeros <= 2 && GroupAt(mc, xMp, i, p, zeros)
    requires Written(ep[..], s0, off, p, Positioned(mc, xMp))
    modifies ep
    ensures Written(ep[..], s0, off, next, Positioned(mc, xMp)) && next == p + zeros + 1
  {
    hide Positioned, Written;
    ghost var g := Positioned(mc, xMp);
    next := p;
    if zeros >= 2 {
      next := WriteNext(ep, off, next, 0, s0, g);
    }
    if zeros >= 1 {
      next := WriteNext(ep, off, next, 0, s0, g);
    }
    next := WriteNext(ep, off, next, xMp[13 - i], s0, g);
  }

  /** rpe_grid_positioning at e + off: the switch into the do-while loop writes its first
      group from the middle. */
  method RpeGridPositioning(mc: nat, xMp: Pulses, ep: array<int16>, off: nat)
    requires mc < 4 && off + 40 <= ep.Length
    modifies ep
    ensures ep[off..off + 40] == Positioned(mc, xMp)
    ensures ep[..off] == old(ep[..off]) && ep[off + 40..] == old(ep[off + 40..])
  {
    ghost var s0, g := ep[..], Positioned(mc, xMp);
    var p := 0;
    assert Written(ep[..], s0, off, p, g);
    hide Positioned, Written, GroupAt;
    FirstGroup(mc, xMp);
    if mc == 3 {
      p := WriteNext(ep, off, p, 0, s0, g);
    }
    p := WriteGroup(ep, off, p, if mc >= 2 then 2 else mc, 13, mc, xMp, s0);
    var i := 12;
    while i > 0
      invariant 0 <= i <= 12 && p == mc + 3 * (12 - i) + 1
      invariant Written(ep[..], s0, off, p, g)
    {
      NextGroup(mc, xMp, i);
      p := WriteGroup(ep, off, p, 2, i, mc, xMp, s0);
      i := i - 1;
    }
    var m := mc + 1;
    while m < 4
      invariant mc + 1 <= m <= 4 && p == mc + 37 + (m - mc - 1)
      invariant Written(ep[..], s0, off, p, g)
    {
      LastZeros(mc, xMp, p);
      p := WriteNext(ep, off, p, 0, s0, g);
      m := m + 1;
    }
    WrittenAll(ep[..], s0, off, g);
  }

  lemma WrittenAll(s: seq<int16>, s0: seq<int16>, off: nat, g: Seg)
    requires Written(s, s0, off, 40, g)
    ensures off + 40 <= |s| == |s0|
    ensures s[..off] == s0[..off] && s[off..off + 40] == g && s[off + 40..] == s0[off + 40..]
  {
    assert g[..40] == g;
  }

  // ---------------------------------------------------------------- encoder and decoder

  /** The coded parameters of one sub-segment's excitation. */
  datatype Excitation = Excitation(xmaxc: int16, mc: int16, xMc: Pulses)

  ghost predicate ExcitationFits(p: Excitation) {
    0 <= p.xmaxc <= 63 && 0 <= p.mc <= 3 && ThreeBits(p.xMc)
  }

  function Encoded(e: seq<int16>): (p: Excitation)
    requires |e| == 50
    ensures ExcitationFits(p)
  {
    var x := Weighted(e);
    var mc := GridOf(x);
    var (xmaxc, xMc) := Quantised(Decimated(x, mc));
    Excitation(xmaxc, mc, xMc)
  }

  function Decoded(p: Excitation): Seg
    requires ExcitationFits(p)
  {
    var (exp, mant) := ExpMant(p.xmaxc);
    Positioned(p.mc, Dequantised(p.xMc, exp, mant))
  }

  /** The pulses go back to the grid they came from, with zeros between. */
  lemma PositionedBack(mc: nat, pulses: Pulses, k: nat)
    requires mc < 4 && k < 40
    ensures Decimated(Positioned(mc, pulses), mc) == pulses
    ensures (forall i :: 0 <= i < 13 ==> k != mc + 3 * i) ==> Positioned(mc, pulses)[k] == 0
  {
    forall i | 0 <= i < 13 ensures Decimated(Positioned(mc, pulses), mc)[i] == pulses[i] {
      assert (mc + 3 * i - mc) % 3 == 0 && (mc + 3 * i - mc) / 3 == i;
    }
    if k >= mc && (k - mc) % 3 == 0 && (k - mc) / 3 < 13 {
      assert k == mc + 3 * ((k - mc) / 3);
    }
  }

  /** The excitation rebuilt from the parameters of a residual: on the grid chosen it is the
      weighted residual to within half a quantisation step, elsewhere zero. */
  lemma ExcitationError(e: seq<int16>, i: nat)
    requires |e| == 50 && i < 13
    ensures var p := Encoded(e);
            var (exp, mant) := ExpMant(p.xmaxc);
            && p.mc + 3 * i < 40
            && ShiftsExactly(Weighted(e)[p.mc + 3 * i], exp)
            && RebuiltWithin(Decoded(p)[p.mc + 3 * i], Weighted(e)[p.mc + 3 * i], exp, mant)
  {
    hide Weighted, GridOf, Quantised, Dequantised, ExpMant, Positioned, RebuiltWithin, ShiftsExactly;
    var p := Encoded(e);
    var xM := Decimated(Weighted(e), p.mc);
    var (exp, mant) := ExpMant(p.xmaxc);
    BlockError(xM, i);
    PositionedBack(p.mc, Dequantised(p.xMc, exp, mant), 0);
    assert Decimated(Decoded(p), p.mc)[i] == Dequantised(p.xMc, exp, mant)[i];
  }

  /** The encoder replaces its residual by exactly what the decoder will rebuild. */
  method RpeEncoding(e: array<int16>) returns (p: Excitation)
    requires e.Length == 50
    modifies e
    ensures p == Encoded(old(e[..]))
    ensures e[5..45] == Decoded(p)
    ensures e[..5] == old(e[..5]) && e[45..] == old(e[45..])
  {
    hide WeightedSum, GridOf, Quantised, ExpMant, Dequantised, Positioned;
    var x := new int16[40];
    var xM, xMc, xMp := new int16[13], new int16[13], new int16[13];
    WeightingFilter(e, x);
    var mc := RpeGridSelection(x[..], xM);
    var mant, exp, xmaxc := ApcmQuantization(xM[..], xMc);
    p := Excitation(xmaxc, mc, xMc[..]);
    ApcmInverseQuantization(xMc[..], mant, exp, xMp);
    RpeGridPositioning(mc, xMp[..], e, 5);
  }

  method RpeDecoding(p: Excitation, erp: array<int16>)
    requires ExcitationFits(p) && erp.Length == 40
    modifies erp
    ensures erp[..] == Decoded(p)
  {
    hide ExpMant, Dequantised, Positioned;
    var exp, mant := XmaxcToExpMant(p.xmaxc);
    var xMp := new int16[13];
    ApcmInverseQuantization(p.xMc, mant, exp, xMp);
    RpeGridPositioning(p.mc, xMp[..], erp, 0);
  }
}
