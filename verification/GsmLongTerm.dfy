/** GSM 06.10 long term prediction: the lag search and gain coding of the encoder, the
    analysis filter, and the synthesis filter of the decoder
    (sections 4.2.11, 4.2.12 and 4.3.2 of GSM 06.10).

    hist is the reconstructed short term residual before the current sub-segment,
    dp[-120..-1] in the source: dp[j] is hist[120 + j]. */
module GsmLongTerm {
  import opened FixedPoint
  import opened GsmArith

  type Hist = s: seq<int16> | |s| == 120 witness seq(120, _ => 0)
  type Seg = s: seq<int16> | |s| == 40 witness seq(40, _ => 0)

  // ---------------------------------------------------------------- scaling

  /** How far d is shifted down before it is correlated. */
  function LtpScale(dmax: int16): (scale: int)
    requires 0 <= dmax
  {
    var temp := if dmax == 0 then 0 else Norm(dmax * 0x1_0000);
    if temp > 6 then 0 else 6 - temp
  }

  function ScaledSeg(d: Seg, scale: nat): Seg {
    seq(40, k requires 0 <= k < 40 => ShiftRight(d[k], scale))
  }

  ghost predicate TenBits(wt: Seg) {
    forall k :: 0 <= k < 40 ==> -512 <= wt[k] <= 511
  }

  /** After scaling the sub-segment needs ten bits. */
  lemma LtpScaleBounds(dmax: int16)
    requires 0 <= dmax
    ensures 0 <= LtpScale(dmax) <= 6
    ensures dmax < 512 * Pow2(LtpScale(dmax))
  {
    hide Norm, Pow2;
    Pow2Table();
    if dmax > 0 {
      var x := dmax * 0x1_0000;
      NormShifts(x);
      var n := Norm(x);
      if n > 6 {
        Pow2Mono(7, n);
        MulMono(128, Pow2(n), x);
      } else {
        ScaleCase(dmax, n);
      }
    }
  }

  lemma ScaleCase(dmax: int, n: nat)
    requires 0 < dmax && n <= 6 && dmax * 0x1_0000 * Pow2(n) < 0x8000_0000
    ensures dmax < 512 * Pow2(6 - n)
  {
    hide Pow2;
    Pow2Table();
    match n {
      case 0 =>
      case 1 =>
      case 2 =>
      case 3 =>
      case 4 =>
      case 5 =>
      case 6 =>
    }
  }

  lemma AsrBound(x: int, p: int)
    requires p >= 1 && -512 * p <= x < 512 * p
    ensures -512 <= x / p <= 511
  {
    var q := x / p;
    assert x == p * q + x % p;
    if q > 511 { MulMono(512, q, p); }
    if q < -512 { MulMono(q, -513, p); }
  }

  lemma ScaledSegBits(d: Seg)
    ensures LtpScale(PeakAbs(d)) >= 0
    ensures TenBits(ScaledSeg(d, LtpScale(PeakAbs(d))))
  {
    hide LtpScale, Pow2;
    LtpScaleBounds(PeakAbs(d));
    var scale := LtpScale(PeakAbs(d));
    forall k | 0 <= k < 40 ensures -512 <= Asr(d[k], scale) <= 511 {
      assert SatAbs16(d[k]) <= PeakAbs(d);
      AsrBound(d[k], Pow2(scale));
      AsrIsQuotient(d[k], scale);
    }
  }

  // ---------------------------------------------------------------- lag search

  /** The first n terms of the correlation of wt with the history lag samples back. */
  function Cross(wt: Seg, hist: Hist, lag: nat, n: nat): int
    requires 40 <= lag <= 120 && n <= 40
  {
    if n == 0 then 0 else Cross(wt, hist, lag, n - 1) + Mul(wt[n - 1], hist[120 + n - 1 - lag])
  }

  /** No partial sum leaves 32 bits, even doubled. */
  lemma {:induction false} CrossBound(wt: Seg, hist: Hist, lag: nat, n: nat)
    requires 40 <= lag <= 120 && n <= 40 && TenBits(wt)
    ensures -(n * 0x100_0000) <= Cross(wt, hist, lag, n) <= n * 0x100_0000
  {
    hide Mul;
    if n == 0 {
    } else {
      CrossBound(wt, hist, lag, n - 1);
      MulIsProduct(wt[n - 1], hist[120 + n - 1 - lag]);
      MulBound(wt[n - 1], hist[120 + n - 1 - lag], 512, 0x8000);
    }
  }

  /** lag is the smallest below end with the greatest positive correlation max; 40 and 0
      when no correlation is positive. */
  ghost predicate BestLag(wt: Seg, hist: Hist, end: nat, lag: nat, max: int)
    requires 40 <= end <= 121
  {
    && 40 <= lag <= 120
    && 0 <= max
    && (forall i :: 40 <= i < end ==> Cross(wt, hist, i, 40) <= max)
    && (if max == 0 then lag == 40
        else lag < end && max == Cross(wt, hist, lag, 40)
             && forall i :: 40 <= i < lag ==> Cross(wt, hist, i, 40) < max)
  }

  /** The search loop as a function of the lags seen so far. */
  function Search(wt: Seg, hist: Hist, end: nat): (r: (nat, int))
    requires 40 <= end <= 121
    ensures 40 <= r.0 <= 120 && 0 <= r.1
  {
    if end == 40 then (40, 0)
    else
      var (lag, max) := Search(wt, hist, end - 1);
      var res := Cross(wt, hist, end - 1, 40);
      if res > max then (end - 1, res) else (lag, max)
  }

  lemma {:induction false} SearchFindsBest(wt: Seg, hist: Hist, end: nat)
    requires 40 <= end <= 121
    ensures BestLag(wt, hist, end, Search(wt, hist, end).0, Search(wt, hist, end).1)
  {
    hide Cross;
    if end <= 40 {
    } else {
      SearchFindsBest(wt, hist, end - 1);
    }
  }

  lemma BestLagUnique(wt: Seg, hist: Hist, l1: nat, m1: int, l2: nat, m2: int)
    requires BestLag(wt, hist, 121, l1, m1) && BestLag(wt, hist, 121, l2, m2)
    ensures l1 == l2 && m1 == m2
  {
    hide Cross;
  }

  // ---------------------------------------------------------------- gain coding

  /** Half the power of the history segment the lag points at. */
  function Power(hist: Hist, lag: nat, n: nat): int
    requires 40 <= lag <= 120 && n <= 40
  {
    if n == 0 then 0
    else Power(hist, lag, n - 1) + Mul(hist[120 + n - 1 - lag] / 8, hist[120 + n - 1 - lag] / 8)
  }

  lemma {:induction false} PowerBound(hist: Hist, lag: nat, n: nat)
    requires 40 <= lag <= 120 && n <= 40
    ensures 0 <= Power(hist, lag, n) <= n * 0x100_0000
  {
    hide Mul;
    if n == 0 {
    } else {
      PowerBound(hist, lag, n - 1);
      var t: int := hist[120 + n - 1 - lag] / 8;
      MulIsProduct(t, t);
      MulBound(t, t, 4096, 4096);
      assert t * t >= 0;
    }
  }

  function Dlb(bc: nat): (d: int16)
    requires bc < 4
    ensures 0 < d
  {
    match bc case 0 => 6554 case 1 => 16384 case 2 => 26214 case _ => 32767
  }

  function Qlb(bc: nat): (q: int16)
    requires bc < 4
    ensures 0 < q
  {
    match bc case 0 => 3277 case 1 => 11469 case 2 => 21299 case _ => 32767
  }

  /** The mantissas compared when the gain is coded. */
  function High(x: int, n: nat): int16 { Wrap16(x * Pow2(n) / 0x1_0000) }

  /** The first of three decision levels not below the ratio of r to s, 3 if none is. */
  function GainIndex(r: int16, s: int16, bc: nat): (i: nat)
    requires bc <= 3
    ensures bc <= i <= 3
    ensures forall j :: bc <= j < i ==> r > SatMul16(s, Dlb(j))
    ensures i < 3 ==> r <= SatMul16(s, Dlb(i))
    decreases 3 - bc
  {
    if bc == 3 || r <= SatMul16(s, Dlb(bc)) then bc else GainIndex(r, s, bc + 1)
  }

  /** The coded gain of correlation lmax against power lpower. */
  function CodedGain(lmax: int32, lpower: int32): (bc: nat)
    ensures bc <= 3
  {
    if lmax <= 0 then 0
    else if lmax >= lpower then 3
    else
      NormShifts(lpower);
      GainIndex(High(lmax, Norm(lpower)), High(lpower, Norm(lpower)), 0)
  }

  /** Where the mantissas are compared the shifts are exact: L_max < L_power, so the shift
      that normalises L_power cannot overflow L_max. */
  lemma CodedGainShifts(lmax: int32, lpower: int32)
    requires 0 < lmax < lpower
    ensures Norm(lpower) >= 0
    ensures 0 < lmax * Pow2(Norm(lpower)) <= 0x7fff_ffff
    ensures 0x4000 <= High(lpower, Norm(lpower)) == lpower * Pow2(Norm(lpower)) / 0x1_0000
    ensures 0 <= High(lmax, Norm(lpower)) == lmax * Pow2(Norm(lpower)) / 0x1_0000 <= High(lpower, Norm(lpower))
  {
    hide Norm, Pow2;
    NormShifts(lpower);
    var p := Pow2(Norm(lpower));
    MulMono(lmax, lpower, p);
    MulMono(1, lmax, p);
  }

  /** L_max after doubling and rescaling. */
  function RescaledMax(max: int, scale: nat): int
    requires scale <= 6
  {
    2 * max / Pow2(6 - scale)
  }

  /** Lag and coded gain of a sub-segment. */
  function LtpParameters(d: Seg, hist: Hist): (r: (nat, nat))
    ensures 40 <= r.0 <= 120 && r.1 <= 3
  {
    ScaledSegBits(d);
    LtpScaleBounds(PeakAbs(d));
    var scale := LtpScale(PeakAbs(d));
    var wt := ScaledSeg(d, scale);
    var (lag, max) := Search(wt, hist, 121);
    LtpFits(wt, hist, scale, 121);
    (lag, CodedGain(RescaledMax(max, scale), 2 * Power(hist, lag, 40)))
  }

  /** Everything the search computes fits 32 bits. */
  lemma LtpFits(wt: Seg, hist: Hist, scale: nat, end: nat)
    requires TenBits(wt) && scale <= 6 && 40 <= end <= 121
    ensures var (lag, max) := Search(wt, hist, end);
            && 0 <= 2 * max <= 0x5000_0000
            && 0 <= RescaledMax(max, scale) <= 0x5000_0000
            && 0 <= 2 * Power(hist, lag, 40) <= 0x5000_0000
  {
    hide Cross, Power, TenBits;
    var (lag, max) := Search(wt, hist, end);
    SearchFindsBest(wt, hist, end);
    CrossBound(wt, hist, lag, 40);
    PowerBound(hist, lag, 40);
    ShrinkBound(2 * max, Pow2(6 - scale));
  }

  lemma ShrinkBound(x: int, p: nat)
    requires 0 <= x && p >= 1
    ensures 0 <= x / p <= x
  {
    var q := x / p;
    assert x == p * q + x % p;
    if q < 0 { MulMono(q, -1, p); }
    if q > x { MulMono(1, p, q); }
  }

  /** The gain code places the ratio of correlation to power between the decision levels,
      to within two units of Q15 above and one part in 2^14 below. */
  ghost predicate GainPlaced(lmax: int, lpower: int, bc: nat)
    requires bc <= 3
  {
    && (bc > 0 ==> 0x2000_0000 * lmax > 0x3fff * (Int(Dlb(bc - 1)) * lpower))
    && (bc < 3 ==> 0x8000 * lmax < (Int(Dlb(bc)) + 2) * lpower)
  }

  /** The mantissas of both, p being the power of two that normalises the power. */
  lemma RatioAbove(lmax: int, lpower: int, p: int, r: int, s: int, d: int)
    requires 0 < lmax < lpower && p >= 1 && 0x4000_0000 <= lpower * p && 0 < d <= 0x8000
    requires r == lmax * p / 0x1_0000 && s == lpower * p / 0x1_0000 && r > s * d / 0x8000
    ensures 0x2000_0000 * lmax > 0x3fff * (d * lpower)
  {
    var a, b := lmax * p, lpower * p;
    MantissasAbove(a, b, r, s, d);
    assert b * d == d * lpower * p;
    if 0x2000_0000 * lmax <= 0x3fff * (d * lpower) { MulMono(0x2000_0000 * lmax, 0x3fff * (d * lpower), p); }
  }

  lemma MantissasAbove(a: int, b: int, r: int, s: int, d: int)
    requires 0x4000_0000 <= b && 0 < d && r == a / 0x1_0000 && s == b / 0x1_0000 && r > s * d / 0x8000
    ensures 0x2000_0000 * a > 0x3fff * (b * d)
  {
    LessThanMantissa(b, s, d);
    assert 0x8000 * r > s * d;
    assert 0x8000 * a >= 0x8000_0000 * r;
  }

  lemma LessThanMantissa(b: int, s: int, d: int)
    requires 0x4000_0000 <= b && 0 < d && s == b / 0x1_0000
    ensures 0x3fff * (b * d) <= 0x4000_0000 * (s * d)
  {
    MulMono(0x3fff * b, 0x4000_0000 * s, d);
    assert 0x3fff * b * d == 0x3fff * (b * d) && 0x4000_0000 * s * d == 0x4000_0000 * (s * d);
  }

  lemma RatioBelow(lmax: int, lpower: int, p: int, r: int, s: int, d: int)
    requires 0 < lmax < lpower && p >= 1 && 0x4000_0000 <= lpower * p && 0 < d <= 0x8000
    requires r == lmax * p / 0x1_0000 && s == lpower * p / 0x1_0000 && r <= s * d / 0x8000
    ensures 0x8000 * lmax < (d + 2) * lpower
  {
    var a, b := lmax * p, lpower * p;
    assert 0x8000 * r <= s * d;
    MulMono(0x1_0000 * s, b, d);
    assert 0x1_0000 * s * d == 0x1_0000 * (s * d);
    assert 0x8000 * a < b * d + 0x8000_0000;
    assert 0x8000 * a < (d + 2) * b;
    assert 0x8000 * a == 0x8000 * lmax * p && (d + 2) * b == (d + 2) * lpower * p;
    if 0x8000 * lmax >= (d + 2) * lpower { MulMono((d + 2) * lpower, 0x8000 * lmax, p); }
  }

  lemma GainIsPlaced(lmax: int32, lpower: int32)
    requires 0 < lmax < lpower
    ensures GainPlaced(lmax, lpower, CodedGain(lmax, lpower))
  {
    hide Mul, Pow2, Norm, GainIndex, Dlb;
    CodedGainShifts(lmax, lpower);
    NormShifts(lpower);
    var p, bc := Pow2(Norm(lpower)), CodedGain(lmax, lpower);
    var r, s := High(lmax, Norm(lpower)), High(lpower, Norm(lpower));
    if bc > 0 {
      LevelProduct(s, bc - 1);
      RatioAbove(lmax, lpower, p, r, s, Dlb(bc - 1));
    }
    if bc < 3 {
      LevelProduct(s, bc);
      RatioBelow(lmax, lpower, p, r, s, Dlb(bc));
    }
  }

  lemma LevelProduct(s: int16, j: nat)
    requires j < 4
    ensures SatMul16(s, Dlb(j)) == Int(s) * Dlb(j) / 0x8000
  {
    hide Mul, Dlb;
    MulIsProduct(s, Dlb(j));
    Q15Bound(s, Dlb(j));
  }

  // ---------------------------------------------------------------- what the scaled sums stand for

  /** The correlation of the unscaled sub-segment, the energy of the history it is compared
      with, and the sum of its magnitudes. */
  function FullCross(d: Seg, hist: Hist, lag: nat, n: nat): int
    requires 40 <= lag <= 120 && n <= 40
  {
    if n == 0 then 0 else FullCross(d, hist, lag, n - 1) + Int(d[n - 1]) * hist[120 + n - 1 - lag]
  }

  function FullPower(hist: Hist, lag: nat, n: nat): int
    requires 40 <= lag <= 120 && n <= 40
  {
    if n == 0 then 0 else FullPower(hist, lag, n - 1) + Int(hist[120 + n - 1 - lag]) * hist[120 + n - 1 - lag]
  }

  function Magnitudes(hist: Hist, lag: nat, n: nat): nat
    requires 40 <= lag <= 120 && n <= 40
  {
    if n == 0 then 0 else Magnitudes(hist, lag, n - 1) + Abs(hist[120 + n - 1 - lag])
  }

  lemma ShiftedTerm(d: int16, h: int, scale: nat)
    ensures var p := Pow2(scale);
            Abs(p * (Int(ShiftRight(d, scale)) * h) - Int(d) * h) <= p * Abs(h)
  {
    AsrIsQuotient(d, scale);
    var p, q, r := Pow2(scale), Int(d) / Pow2(scale), Int(d) % Pow2(scale);
    assert Int(d) == p * q + r;
    assert p * (q * h) - Int(d) * h == -(r * h) by { ProductParts(p, q, r, h); }
    MulBound(r, h, p, Abs(h));
  }

  lemma ProductParts(p: int, q: int, r: int, h: int)
    ensures (p * q + r) * h == p * (q * h) + r * h
  {
  }

  /** Scaling the sub-segment before correlating loses at most the magnitudes of the history,
      in scaled units. */
  lemma {:induction false} CrossIsScaled(d: Seg, hist: Hist, scale: nat, lag: nat, n: nat)
    requires 40 <= lag <= 120 && n <= 40
    ensures Abs(Pow2(scale) * Cross(ScaledSeg(d, scale), hist, lag, n) - FullCross(d, hist, lag, n))
            <= Pow2(scale) * Magnitudes(hist, lag, n)
  {
    hide Mul, Pow2, ShiftRight;
    if n == 0 {
    } else {
      CrossIsScaled(d, hist, scale, lag, n - 1);
      var h, wt := hist[120 + n - 1 - lag], ScaledSeg(d, scale)[n - 1];
      MulIsProduct(wt, h);
      ShiftedTerm(d[n - 1], h, scale);
      SumScaled(Pow2(scale), Cross(ScaledSeg(d, scale), hist, lag, n - 1), Int(wt) * h);
      SumScaled(Pow2(scale), Magnitudes(hist, lag, n - 1), Abs(h));
    }
  }

  lemma SumScaled(p: int, x: int, y: int)
    ensures p * (x + y) == p * x + p * y
  {
  }

  /** The power is measured on the history divided by eight. */
  lemma {:induction false} PowerIsScaled(hist: Hist, lag: nat, n: nat)
    requires 40 <= lag <= 120 && n <= 40
    ensures Abs(64 * Power(hist, lag, n) - FullPower(hist, lag, n)) <= 16 * Magnitudes(hist, lag, n) + 64 * n
  {
    hide Mul;
    if n == 0 {
    } else {
      PowerIsScaled(hist, lag, n - 1);
      EighthSquared(hist[120 + n - 1 - lag]);
    }
  }

  lemma EighthSquared(h: int16)
    ensures Abs(64 * Mul(h / 8, h / 8) - Int(h) * h) <= 16 * Abs(h) + 64
  {
    hide Mul;
    MulIsProduct(h / 8, h / 8);
    SquareParts(Int(h) / 8, Int(h) % 8);
  }

  lemma SquareParts(q: int, r: int)
    requires 0 <= r <= 7
    ensures Abs(64 * (q * q) - (8 * q + r) * (8 * q + r)) <= 16 * Abs(8 * q + r) + 64
  {
    assert (8 * q + r) * (8 * q + r) == 64 * (q * q) + 16 * (q * r) + r * r;
    MulBound(q, r, Abs(q), 7);
    MulBound(r, r, 7, 7);
  }

  /** The correlation the gain is coded from, in 64ths: twice that of the unscaled
      sub-segment, whatever the scaling was, up to the magnitudes it was scaled by. */
  lemma GainCorrelation(d: Seg, hist: Hist, scale: nat, lag: nat)
    requires 40 <= lag <= 120 && scale <= 6
    ensures Abs(64 * RescaledMax(Cross(ScaledSeg(d, scale), hist, lag, 40), scale) - 2 * FullCross(d, hist, lag, 40))
            <= 2 * (Pow2(scale) * Magnitudes(hist, lag, 40)) + 64
  {
    hide Pow2, Cross, FullCross, Magnitudes;
    CrossIsScaled(d, hist, scale, lag, 40);
    Pow2Add(scale, 6 - scale);
    Pow2Table();
    RescaledBack(Cross(ScaledSeg(d, scale), hist, lag, 40), Pow2(scale), Pow2(6 - scale));
  }

  lemma RescaledBack(max: int, p: nat, q: nat)
    requires p >= 1 && q >= 1 && p * q == 64
    ensures Abs(64 * (2 * max / q) - 2 * (p * max)) <= 64
  {
    var y, r := 2 * max / q, 2 * max % q;
    assert 2 * max == q * y + r;
    assert p * (q * y + r) == 64 * y + p * r;
    MulMono(r, q, p);
    MulMono(0, r, p);
  }

  // ---------------------------------------------------------------- filters

  function Tap(hist: Hist, lag: nat, bc: nat, k: nat): int16
    requires 40 <= lag <= 120 && bc < 4 && k < 40
  {
    MultR(Qlb(bc), hist[120 + k - lag])
  }

  function Predicted(hist: Hist, lag: nat, bc: nat): Seg
    requires 40 <= lag <= 120 && bc < 4
  {
    seq(40, k requires 0 <= k < 40 => Tap(hist, lag, bc, k))
  }

  /** The long term residual of the encoder. */
  function LtpResidual(d: Seg, dpp: Seg): Seg {
    seq(40, k requires 0 <= k < 40 => SatSub16(d[k], dpp[k]))
  }

  /** The reconstructed short term residual. */
  function LtpRestored(erp: Seg, dpp: Seg): Seg {
    seq(40, k requires 0 <= k < 40 => SatAdd16(erp[k], dpp[k]))
  }

  /** Adding the prediction back to what it was taken from gives the signal, if and only if
      the difference did not saturate. */
  lemma ResidualRestores(d: Seg, dpp: Seg, k: nat)
    requires k < 40
    ensures LtpRestored(LtpResidual(d, dpp), dpp)[k] == d[k] <==> Fits16(Int(d[k]) - dpp[k])
  {
    assert LtpResidual(d, dpp)[k] == SatSub16(d[k], dpp[k]);
  }

  /** From any residual erp, the reconstruction misses the signal by no more than erp misses
      the residual of the signal. */
  lemma ReconstructionError(d: Seg, dpp: Seg, erp: Seg, k: nat)
    requires k < 40 && Fits16(Int(d[k]) - dpp[k])
    ensures Abs(Int(LtpRestored(erp, dpp)[k]) - d[k]) <= Abs(Int(erp[k]) - LtpResidual(d, dpp)[k])
  {
    assert LtpResidual(d, dpp)[k] == SatSub16(d[k], dpp[k]);
  }

  /** A signal that repeats the history lag samples back is predicted, by the largest gain,
      to within one. */
  lemma PeriodicPredicted(hist: Hist, lag: nat, d: Seg, k: nat)
    requires 40 <= lag <= 120 && k < 40 && d[k] == hist[120 + k - lag]
    ensures Abs(LtpResidual(d, Predicted(hist, lag, 3))[k]) <= 1
  {
    hide Mul;
    assert LtpResidual(d, Predicted(hist, lag, 3))[k] == SatSub16(d[k], MultR(32767, d[k]));
    MulIsProduct(32767, d[k]);
    MultRIsRound15(32767, d[k]);
  }

  /** The history after a sub-segment: 40 samples out, 40 in. */
  function NextHist(hist: Hist, seg: Seg): Hist {
    hist[40..] + seg
  }

  // ---------------------------------------------------------------- in place

  /** gsm0610_max_cross_corr on dp = dp0 + base. */
  method MaxCrossCorr(wt: Seg, dp0: array<int16>, base: nat) returns (max: int32, index: nat)
    requires 120 <= base && base <= dp0.Length && TenBits(wt)
    ensures (index, max) == Search(wt, dp0[base - 120..base], 121)
  {
    hide Cross, TenBits;
    ghost var hist: Hist := dp0[base - 120..base];
    max := 0;
    index := 40;
    for i := 40 to 121
      invariant (index, max) == Search(wt, hist, i)
    {
      CrossBound(wt, hist, i, 40);
      var res: int32 := Cross(wt, dp0[base - 120..base], i, 40);
      if res > max {
        max := res;
        index := i;
      }
    }
  }

  method LtpPower(dp0: array<int16>, base: nat, lag: nat) returns (power: int32)
    requires 120 <= base && base <= dp0.Length && 40 <= lag <= 120
    ensures power == 2 * Power(dp0[base - 120..base], lag, 40)
  {
    hide Mul;
    ghost var hist: Hist := dp0[base - 120..base];
    power := 0;
    for k := 0 to 40
      invariant power == Power(hist, lag, k)
    {
      PowerBound(hist, lag, k + 1);
      assert hist[120 + k - lag] == dp0[base + k - lag];
      var temp := dp0[base + k - lag] / 8;
      power := power + Mul(temp, temp);
    }
    PowerBound(hist, lag, 40);
    power := power * 2;
  }

  method CodeGain(lmax: int32, lpower: int32) returns (bc: nat)
    ensures bc == CodedGain(lmax, lpower)
  {
    hide Norm, Pow2, SatMul16, GainIndex;
    if lmax <= 0 {
      return 0;
    }
    if lmax >= lpower {
      return 3;
    }
    CodedGainShifts(lmax, lpower);
    var temp := Norm(lpower);
    var r := High(lmax, temp);
    var s := High(lpower, temp);
    bc := 0;
    GainUnfold(r, s, 0);
    while bc <= 2
      invariant bc <= 3
      invariant GainIndex(r, s, bc) == GainIndex(r, s, 0)
      decreases 3 - bc
    {
      GainUnfold(r, s, bc);
      if r <= SatMul16(s, Dlb(bc)) {
        break;
      }
      bc := bc + 1;
    }
    GainUnfold(r, s, bc);
  }

  lemma GainUnfold(r: int16, s: int16, bc: nat)
    requires bc <= 3
    ensures GainIndex(r, s, bc)
            == if bc == 3 || r <= SatMul16(s, Dlb(bc)) then bc else GainIndex(r, s, bc + 1)
  {
    hide SatMul16;
  }

  method EvaluateLtpParameters(d: Seg, dp0: array<int16>, base: nat) returns (bc: nat, nc: nat)
    requires 120 <= base && base <= dp0.Length
    ensures (nc, bc) == LtpParameters(d, dp0[base - 120..base])
  {
    hide LtpScale, Pow2, TenBits, Search, Power, CodedGain;
    var dmax := FindPeak(d);
    LtpScaleBounds(dmax);
    ScaledSegBits(d);
    var scale := LtpScale(dmax);
    var wt := ScaledSeg(d, scale);
    var max: int32;
    max, nc := MaxCrossCorr(wt, dp0, base);
    LtpFits(wt, dp0[base - 120..base], scale, 121);
    var lmax: int32 := max * 2;
    lmax := lmax / Pow2(6 - scale);
    var lpower := LtpPower(dp0, base, nc);
    bc := CodeGain(lmax, lpower);
  }

  /** long_term_analysis_filtering. In the encoder dpp is dp itself: the prediction is
      written to dp0[base..] while the history below base is read, which is safe because
      the lag is at least 40. */
  method LongTermAnalysisFiltering(bc: nat, nc: nat, dp0: array<int16>, base: nat, d: Seg, e: array<int16>)
    requires bc < 4 && 40 <= nc <= 120 && 120 <= base && base + 40 <= dp0.Length
    requires e.Length == 50 && e != dp0
    modifies dp0, e
    ensures var dpp := Predicted(old(dp0[base - 120..base]), nc, bc);
            && dp0[base..base + 40] == dpp
            && e[5..45] == LtpResidual(d, dpp)
    ensures dp0[..base] == old(dp0[..base]) && dp0[base + 40..] == old(dp0[base + 40..])
    ensures e[..5] == old(e[..5]) && e[45..] == old(e[45..])
  {
    hide MultR, Qlb;
    ghost var hist: Hist := dp0[base - 120..base];
    ghost var dpp := Predicted(hist, nc, bc);
    for k := 0 to 40
      invariant forall j :: 0 <= j < dp0.Length && !(base <= j < base + k) ==> dp0[j] == old(dp0[j])
      invariant forall j :: 0 <= j < k ==> dp0[base + j] == dpp[j]
      invariant forall j :: 0 <= j < 50 && !(5 <= j < 5 + k) ==> e[j] == old(e[j])
      invariant forall j :: 0 <= j < k ==> e[5 + j] == SatSub16(d[j], dpp[j])
    {
      assert dp0[base + k - nc] == hist[120 + k - nc];
      dp0[base + k] := MultR(Qlb(bc), dp0[base + k - nc]);
      e[5 + k] := SatSub16(d[k], dp0[base + k]);
    }
  }

  /** gsm0610_long_term_synthesis_filtering on drp = dp0 + 120; nrp is the last valid lag. */
  method LongTermSynthesisFiltering(nrp: nat, ncr: int, bcr: nat, erp: Seg, dp0: array<int16>)
    returns (nr: nat)
    requires 40 <= nrp <= 120 && bcr < 4 && dp0.Length == 280
    modifies dp0
    ensures nr == if ncr < 40 || ncr > 120 then nrp else ncr
    ensures var seg := LtpRestored(erp, Predicted(old(dp0[..120]), nr, bcr));
            && dp0[120..160] == seg
            && dp0[..120] == NextHist(old(dp0[..120]), seg)
    ensures dp0[160..] == old(dp0[160..])
  {
    hide MultR, Qlb, SatAdd16;
    nr := if ncr < 40 || ncr > 120 then nrp else ncr;
    var brp := Qlb(bcr);
    ghost var hist: Hist := dp0[..120];
    ghost var seg := LtpRestored(erp, Predicted(hist, nr, bcr));
    for k := 0 to 40
      invariant forall j :: 0 <= j < 120 ==> dp0[j] == hist[j]
      invariant forall j :: 0 <= j < k ==> dp0[120 + j] == seg[j]
      invariant forall j :: 160 <= j < 280 ==> dp0[j] == old(dp0[j])
    {
      var drpp := MultR(brp, dp0[120 + k - nr]);
      dp0[120 + k] := SatAdd16(erp[k], drpp);
    }
    assert dp0[..120] == hist && dp0[120..160] == seg;
    HistoryShifted(dp0[..160], hist, seg);
    ShiftHistory(dp0);
    assert dp0[120..160] == dp0[120..][..40] && dp0[160..] == dp0[120..][40..];
  }

  lemma HistoryShifted(w: seq<int16>, hist: Hist, seg: Seg)
    requires |w| == 160 && w[..120] == hist && w[120..] == seg
    ensures w[40..] == NextHist(hist, seg)
  {
    assert w == hist + seg;
  }

  /** The window moves by 40 words. */
  method ShiftHistory(dp0: array<int16>)
    requires dp0.Length == 280
    modifies dp0
    ensures dp0[..120] == old(dp0[..160])[40..] && dp0[120..] == old(dp0[120..])
  {
    for k := 0 to 120
      invariant forall j :: 0 <= j < k ==> dp0[j] == old(dp0[j + 40])
      invariant forall j :: k <= j < 280 ==> dp0[j] == old(dp0[j])
    {
      dp0[k] := dp0[k + 40];
    }
  }
}
