/** BroadVoice16 log-gain quantisation and level estimation, at the encoder and at the
    decoder, and the proof that on an error-free channel both keep the same state: the
    index the encoder settles on never looks like a bit error to the decoder. Log-gains are
    in Q25. */
module Bv16Gain {
  import opened FixedPoint
  import opened Bv16Basop
  import opened Bv16Oper32

  // ---------------------------------------------------------------- tables

  /** lgpecb: log-gain prediction error codebook, in Q11. */
  function Lgpecb(i: nat): (v: int16)
    requires i < 16
    ensures -11028 <= v <= 24272
  {
    match i
    case 0 => -11028
    case 1 => -7538
    case 2 => -5670
    case 3 => -4295
    case 4 => -3015
    case 5 => -696
    case 6 => 1378
    case 7 => 3728
    case 8 => -1813
    case 9 => 343
    case 10 => 2464
    case 11 => 5377
    case 12 => 7793
    case 13 => 11562
    case 14 => 17830
    case _ => 24272
  }

  /** lgp: log-gain predictor, in Q15. */
  function Lgp(i: nat): (v: int16)
    requires i < 8
    ensures 0 <= v <= 25564
  {
    match i
    case 0 => 25564
    case 1 => 24175
    case 2 => 20155
    case 3 => 19419
    case 4 => 15316
    case 5 => 11914
    case 6 => 7794
    case _ => 4217
  }

  // lgclimit, one row of twelve gain change bins for each of the eighteen gain bins

  /** lgclimit: the largest log-gain change allowed, in Q9, by gain bin and gain change bin. */
  function Lgclimit(i: nat, n: nat): (v: int16)
    requires i < 18 && n < 12
    ensures -2555 <= v <= 7304
  {
    match i
    case 0 => Row(n, 0, 405, 285, 7304, 7211, 0, 0, 0, 0, 0, 0, 0)
    case 1 => Row(n, 0, 7092, 886, 7049, 7131, 0, 0, 0, 0, 0, 0, 0)
    case 2 => Row(n, -1004, 4563, 4012, 7219, 7055, 466, -1236, 0, 0, 0, 0, 0)
    case 3 => Row(n, -1004, 4439, 6928, 7217, 7143, 6643, 1099, 0, 0, 0, 0, 0)
    case 4 => Row(n, -754, 4758, 7130, 7112, 7106, 7136, 6250, -2555, 0, 0, 0, 0)
    case 5 => Row(n, 2358, 6315, 7215, 7241, 7250, 6905, 6344, 1030, 0, 0, 0, 0)
    case 6 => Row(n, 5458, 5492, 7082, 7006, 7137, 7055, 6705, 5210, -79, -1498, 0, 0)
    case 7 => Row(n, 3376, 5220, 6832, 6591, 6844, 6842, 6722, 6486, 373, 154, 2494, 4023)
    case 8 => Row(n, 1352, 4877, 5046, 5304, 5443, 6617, 6505, 6478, 4591, 678, 2492, 4001)
    case 9 => Row(n, 3199, 4233, 4496, 4652, 4624, 5295, 5744, 5669, 4263, 4311, 3944, 4025)
    case 10 => Row(n, 3169, 3440, 4088, 3774, 3842, 3942, 4655, 4473, 3539, 3936, 3698, 1797)
    case 11 => Row(n, 2255, 2798, 3163, 3095, 3144, 3506, 3016, 2784, 2392, 2857, 3947, 3820)
    case 12 => Row(n, 1739, 2773, 2765, 2446, 2352, 2373, 3294, 1813, 2242, 1895, 3404, 2429)
    case 13 => Row(n, 0, 1792, 2357, 2008, 1885, 2159, 2144, 1703, 1735, 1192, 2637, 904)
    case 14 => Row(n, 0, 564, 1559, 1633, 1332, 1245, 1490, 760, 223, 227, 770, 898)
    case 15 => Row(n, 0, -61, -582, 725, 766, 373, 309, -181, -503, -589, -1021, 0)
    case 16 => Row(n, 0, 0, 0, 701, 607, -189, -2057, -1133, 0, -681, -1558, 0)
    case _ => Row(n, 0, 0, 0, 271, 221, 0, 0, -1466, 0, 0, 0, 0)
  }

  function Row(n: nat, v0: int16, v1: int16, v2: int16, v3: int16, v4: int16, v5: int16, v6: int16, v7: int16,
               v8: int16, v9: int16, v10: int16, v11: int16): int16
  {
    match n
    case 0 => v0 case 1 => v1 case 2 => v2 case 3 => v3 case 4 => v4 case 5 => v5
    case 6 => v6 case 7 => v7 case 8 => v8 case 9 => v9 case 10 => v10 case _ => v11
  }

  /** tabpow: 2^(x - 1) for x = i / 64, in Q15. */
  function Tabpow(i: nat): (v: int16)
    requires i < 65
    ensures 16384 <= v <= 32767
  {
    match i
    case 0 => 16384
    case 1 => 16562
    case 2 => 16743
    case 3 => 16925
    case 4 => 17109
    case 5 => 17296
    case 6 => 17484
    case 7 => 17674
    case 8 => 17867
    case 9 => 18061
    case 10 => 18258
    case 11 => 18457
    case 12 => 18658
    case 13 => 18861
    case 14 => 19066
    case 15 => 19274
    case 16 => 19484
    case 17 => 19696
    case 18 => 19911
    case 19 => 20127
    case 20 => 20347
    case 21 => 20568
    case 22 => 20792
    case 23 => 21019
    case 24 => 21247
    case 25 => 21479
    case 26 => 21713
    case 27 => 21949
    case 28 => 22188
    case 29 => 22430
    case 30 => 22674
    case 31 => 22921
    case 32 => 23170
    case 33 => 23423
    case 34 => 23678
    case 35 => 23936
    case 36 => 24196
    case 37 => 24460
    case 38 => 24726
    case 39 => 24995
    case 40 => 25268
    case 41 => 25543
    case 42 => 25821
    case 43 => 26102
    case 44 => 26386
    case 45 => 26674
    case 46 => 26964
    case 47 => 27258
    case 48 => 27554
    case 49 => 27855
    case 50 => 28158
    case 51 => 28464
    case 52 => 28774
    case 53 => 29088
    case 54 => 29405
    case 55 => 29725
    case 56 => 30048
    case 57 => 30376
    case 58 => 30706
    case 59 => 31041
    case 60 => 31379
    case 61 => 31720
    case 62 => 32066
    case 63 => 32415
    case _ => 32767
  }

  /** tablog: log2(1 + i / 64), in Q15. */
  function Tablog(i: nat): (v: int16)
    requires i < 65
    ensures 0 <= v <= 32767
  {
    match i
    case 0 => 0
    case 1 => 733
    case 2 => 1455
    case 3 => 2166
    case 4 => 2866
    case 5 => 3556
    case 6 => 4236
    case 7 => 4907
    case 8 => 5568
    case 9 => 6220
    case 10 => 6863
    case 11 => 7498
    case 12 => 8124
    case 13 => 8742
    case 14 => 9352
    case 15 => 9954
    case 16 => 10549
    case 17 => 11136
    case 18 => 11716
    case 19 => 12289
    case 20 => 12855
    case 21 => 13415
    case 22 => 13968
    case 23 => 14514
    case 24 => 15055
    case 25 => 15589
    case 26 => 16117
    case 27 => 16639
    case 28 => 17156
    case 29 => 17667
    case 30 => 18173
    case 31 => 18673
    case 32 => 19168
    case 33 => 19658
    case 34 => 20143
    case 35 => 20623
    case 36 => 21098
    case 37 => 21568
    case 38 => 22034
    case 39 => 22495
    case 40 => 22952
    case 41 => 23404
    case 42 => 23852
    case 43 => 24296
    case 44 => 24736
    case 45 => 25172
    case 46 => 25604
    case 47 => 26031
    case 48 => 26455
    case 49 => 26876
    case 50 => 27292
    case 51 => 27705
    case 52 => 28114
    case 53 => 28520
    case 54 => 28922
    case 55 => 29321
    case 56 => 29717
    case 57 => 30109
    case 58 => 30498
    case 59 => 30884
    case 60 => 31267
    case 61 => 31647
    case 62 => 32024
    case 63 => 32397
    case _ => 32767
  }

  /** idxord: the codebook in ascending order. */
  function Idxord(i: nat): (k: nat)
    requires i < 16
    ensures k < 16
  {
    match i
    case 5 => 8
    case 6 => 5
    case 7 => 9
    case 8 => 6
    case 9 => 10
    case 10 => 7
    case _ => i
  }

  lemma CodebookOrdered(i: nat, j: nat)
    requires i < j < 16
    ensures Lgpecb(Idxord(i)) < Lgpecb(Idxord(j))
    decreases j - i
  {
    if i < j - 1 { CodebookOrdered(i, j - 1); }
    NextInOrder(j - 1);
  }

  lemma NextInOrder(i: nat)
    requires i < 15
    ensures Lgpecb(Idxord(i)) < Lgpecb(Idxord(i + 1))
  {
  }

  const LGMEAN: int16 := 23465
  const LGLB: int16 := -24
  const LGCLB: int16 := -8

  // ---------------------------------------------------------------- conversions

  /** Log2 of mathutil.c: integer part and fraction in Q15. */
  function Log2(x: int32): (int16, int16) {
    if x <= 0 then (0, 0)
    else
      NormLNormalises(x);
      var exp := NormL(x);
      var man := LShl(x, exp);
      MantissaIndex(man);
      var a0 := LShr(LSub(man, 0x4000_0000), 8);
      var idx: nat := ExtractH(a0);
      var sub := ExtractL(LShr(a0 % 0x1_0000, 1));
      (SatSub16(30, exp), Round(LMac(DepositH(Tablog(idx)), sub, SatSub16(Tablog(idx + 1), Tablog(idx)))))
  }

  /** A normalised mantissa selects a table interval. */
  lemma MantissaIndex(man: int32)
    requires 0x4000_0000 <= man
    ensures 0 <= ExtractH(LShr(LSub(man, 0x4000_0000), 8)) <= 63
  {
    Pow2Table();
    AsrIsQuotient(LSub(man, 0x4000_0000), 8);
  }

  /** Pow2 of mathutil.c, for a fraction that is not negative. */
  function TwoTo(exp: int16, frac: int16): int32
    requires 0 <= frac
  {
    FractionIndex(frac);
    var idx: nat := Shr16(frac, 9);
    var sub := Shl16(frac % 512, 6);
    LShrR(LMac(DepositH(Tabpow(idx)), sub, SatSub16(Tabpow(idx + 1), Tabpow(idx))), SatSub16(30, exp))
  }

  lemma FractionIndex(frac: int16)
    requires 0 <= frac
    ensures 0 <= Shr16(frac, 9) <= 63
  {
    Pow2Table();
    AsrIsQuotient(frac, 9);
  }

  /** The log-gain of a residual energy ee, in Q1. */
  function LogGain(ee: int32): int32 {
    if ee < 80 then 0
    else
      var (hi, lo) := LExtract(ee);
      var (exp, frac) := Log2(Mpy3216(hi, lo, 6554));
      LAdd(LShl(DepositH(SatSub16(exp, 4)), 9), LShr(DepositH(frac), 6))
  }

  /** The gain of a log-gain, in Q18. */
  function LinearGain(lgq: int32): int32 {
    var x := LShr(lgq, 10);
    ExtractValue(x);
    var (hi, lo) := LExtract(x);
    TwoTo(SatAdd16(hi, 18), lo)
  }

  // ---------------------------------------------------------------- state

  type Memory = s: seq<int16> | |s| == 8 witness [0, 0, 0, 0, 0, 0, 0, 0]

  /** Log-gain predictor memory in Q11, and the log-gains of the last two frames. */
  datatype Gain = Gain(lgpm: Memory, prev0: int32, prev1: int32)

  /** The first k terms of the predicted log-gain, in Q26. */
  function PredictorSum(lgpm: Memory, k: nat): int32
    requires k <= 8
  {
    if k == 0 then LShr(DepositH(LGMEAN), 1) else LMac0(PredictorSum(lgpm, k - 1), Lgp(k - 1), lgpm[k - 1])
  }

  function Predicted(lgpm: Memory): int32 { LShr(PredictorSum(lgpm, 8), 1) }

  /** The log-gain codebook entry k stands for. */
  function Decoded(elg: int32, k: nat): int32
    requires k < 16
  {
    LAdd(LShr(DepositH(Lgpecb(k)), 2), elg)
  }

  /** The bin of a difference of log-gains. */
  function Bin(a: int32, b: int32, low: int16, bins: nat): (i: nat)
    requires 1 <= bins <= 18
    ensures i < bins
  {
    var i := Shr16(SatSub16(Shr16(ExtractH(LSub(a, b)), 9), low), 1);
    if i >= bins then bins - 1 else if i < 0 then 0 else i
  }

  /** The largest change of the log-gain allowed in this state, in Q9. */
  function Limit(g: Gain, level: int32): (limit: int16)
    ensures -2555 <= limit <= 7304
  {
    Lgclimit(Bin(g.prev0, level, LGLB, 18), Bin(g.prev0, g.prev1, LGCLB, 12))
  }

  /** The state after a frame of log-gain lgq that stores x in the predictor memory. */
  function Next(g: Gain, lgq: int32, x: int16): Gain {
    Gain([x] + g.lgpm[..7], lgq, g.prev0)
  }

  // ---------------------------------------------------------------- encoder

  function Distance(lgpe: int16, i: nat): (d: int16)
    requires i < 16
    ensures d >= 0
  {
    SatAbs16(SatSub16(lgpe, Lgpecb(Idxord(i))))
  }

  /** The first of the nearest of the first n entries, in ascending order. */
  function Nearest(lgpe: int16, n: nat): (i: nat)
    requires 1 <= n <= 16
    ensures i < n
    ensures forall k :: 0 <= k < n ==> Distance(lgpe, i) <= Distance(lgpe, k)
    ensures forall k :: 0 <= k < i ==> Distance(lgpe, i) < Distance(lgpe, k)
  {
    if n == 1 then 0
    else
      var i := Nearest(lgpe, n - 1);
      if Distance(lgpe, n - 1) < Distance(lgpe, i) then n - 1 else i
  }

  /** Stepping down from entry i while the log-gain exceeds the limit. */
  function SteppedDown(elg: int32, limit: int32, i: nat): (k: nat)
    requires i < 16
    ensures k <= i
  {
    if Decoded(elg, Idxord(i)) > limit && i > 0 then SteppedDown(elg, limit, i - 1) else i
  }

  /** Stepping down stops at the first entry that keeps the limit, or at the lowest. */
  lemma {:induction false} SteppedDownStops(elg: int32, limit: int32, i: nat)
    requires i < 16
    ensures var k := SteppedDown(elg, limit, i);
            && (Decoded(elg, Idxord(k)) <= limit || k == 0)
            && forall j :: k < j <= i ==> Decoded(elg, Idxord(j)) > limit
  {
    hide Decoded;
    if Decoded(elg, Idxord(i)) <= limit || i == 0 {
    } else {
      SteppedDownStops(elg, limit, i - 1);
    }
  }

  /** The codebook index sent for a log-gain lg. */
  function Chosen(g: Gain, lg: int32, level: int32): (k: nat)
    ensures k < 16
  {
    var elg := Predicted(g.lgpm);
    var lgpe := Round(LShl(LSub(lg, elg), 2));
    Idxord(SteppedDown(elg, LAdd(g.prev0, DepositH(Limit(g, level))), Nearest(lgpe, 16)))
  }

  /** gainquan: index, new state and gain. */
  function Encode(g: Gain, ee: int32, level: int32): (r: (nat, Gain, int32))
    ensures r.0 < 16
  {
    var k := Chosen(g, LogGain(ee), level);
    var lgq := Decoded(Predicted(g.lgpm), k);
    (k, Next(g, lgq, Lgpecb(k)), LinearGain(lgq))
  }

  // ---------------------------------------------------------------- decoder

  /** The decoder's test for a bit error: the log-gain rises more than ever seen. */
  predicate Suspicious(g: Gain, k: nat, level: int32)
    requires k < 16
  {
    ExtractH(LSub(Decoded(Predicted(g.lgpm), k), g.prev0)) > Limit(g, level) && k > 0
  }

  /** gaindec: state, gain, count of good frames and the log-gain for level estimation. */
  datatype DecodedGain = DecodedGain(g: Gain, gain: int32, nggalgc: int16, lgEl: int32)

  function Decode(g: Gain, k: nat, level: int32, nggalgc: int16): DecodedGain
    requires k < 16
  {
    var elg := Predicted(g.lgpm);
    var lgq := Decoded(elg, k);
    if Suspicious(g, k, level) then
      var held := g.prev0;
      DecodedGain(Next(g, held, ExtractH(LShl(LSub(held, elg), 2))), LinearGain(held), 0,
                  LAdd(DepositH(Limit(g, level)), g.prev0))
    else
      DecodedGain(Next(g, lgq, Lgpecb(k)), LinearGain(lgq), Min(SatAdd16(nggalgc, 1), 101), lgq)
  }

  // ---------------------------------------------------------------- invariant

  const LOW: int := -505_078_948
  const HIGH: int := 1_471_414_271

  /** The predictor memory holds codebook entries or zeros, and the last log-gain is one
      they can give. */
  ghost predicate GainFits(g: Gain) {
    && (forall i :: 0 <= i < 8 ==> -11028 <= g.lgpm[i] <= 24272)
    && LOW <= g.prev0 <= HIGH
  }

  /** The sum of the first k predictor coefficients. */
  function Weight(k: nat): nat
    requires k <= 8
  {
    if k == 0 then 0 else Weight(k - 1) + Lgp(k - 1) as int
  }

  lemma WeightIs()
    ensures Weight(8) == 128_554
  {
    assert Weight(4) == 25564 + 24175 + 20155 + 19419;
  }

  lemma {:induction false} PredictorBound(lgpm: Memory, k: nat)
    requires k <= 8 && forall i :: 0 <= i < 8 ==> -11028 <= lgpm[i] <= 24272
    ensures PredictorSum(lgpm, k) >= 768_901_120 - 11_028 * Weight(k)
  {
    hide Mul, Lgp;
    if k == 0 {
      HalfMean();
    } else {
      PredictorBound(lgpm, k - 1);
      MulIsProduct(Lgp(k - 1), lgpm[k - 1]);
      MulMono(-11028, lgpm[k - 1], Lgp(k - 1));
    }
  }

  lemma HalfMean()
    ensures LShr(DepositH(LGMEAN), 1) == 768_901_120
  {
    ShrOne(DepositH(LGMEAN));
  }

  /** From a state that fits, every codebook entry gives a log-gain in range, exactly. */
  lemma DecodedBounds(g: Gain, k: nat)
    requires GainFits(g) && k < 16
    ensures LOW <= Decoded(Predicted(g.lgpm), k) <= HIGH
    ensures Decoded(Predicted(g.lgpm), k) == 16384 * Lgpecb(k) as int + Predicted(g.lgpm)
  {
    hide PredictorSum, Lgpecb;
    PredictorBound(g.lgpm, 8);
    WeightIs();
    ShrOne(PredictorSum(g.lgpm, 8));
    ShrTwo(DepositH(Lgpecb(k)));
  }

  lemma ShrTwo(x: int32)
    ensures LShr(x, 2) == x / 4
  {
    Pow2Table();
    AsrIsQuotient(x, 2);
  }

  /** The index the encoder chose passes the decoder's test. */
  lemma NeverSuspicious(g: Gain, lg: int32, level: int32)
    requires GainFits(g)
    ensures !Suspicious(g, Chosen(g, lg, level), level)
  {
    hide Decoded, Predicted, Limit, Nearest, SteppedDown, Round, LShl, GainFits;
    var elg := Predicted(g.lgpm);
    var limit := LAdd(g.prev0, DepositH(Limit(g, level)));
    var n := Nearest(Round(LShl(LSub(lg, elg), 2)), 16);
    SteppedDownStops(elg, limit, n);
    var i := SteppedDown(elg, limit, n);
    WithinLimit(g, Idxord(i), Limit(g, level));
  }

  /** None of the sums saturates: the decoder's test passes exactly the log-gains less than
      one unit of Q9 above the encoder's limit. */
  lemma WithinLimit(g: Gain, k: nat, limit: int16)
    requires GainFits(g) && k < 16 && -2555 <= limit <= 7304
    ensures ExtractH(LSub(Decoded(Predicted(g.lgpm), k), g.prev0)) <= limit
            <==> Decoded(Predicted(g.lgpm), k) as int < LAdd(g.prev0, DepositH(limit)) as int + 0x1_0000
  {
    hide Decoded, Predicted;
    DecodedBounds(g, k);
  }

  /** The decoder answers the index k of a frame with state g and gain, keeps the log-gain
      and counts a good frame. */
  ghost predicate Follows(d: DecodedGain, g: Gain, gain: int32, nggalgc: int16) {
    d.g == g && d.gain == gain && d.lgEl == g.prev0 && d.nggalgc == Min(SatAdd16(nggalgc, 1), 101)
  }

  /** One frame on an error-free channel: state, gain and log-gain agree, the decoder counts
      a good frame, and the invariant holds again. */
  lemma GainLockstep(g: Gain, ee: int32, level: int32, nggalgc: int16, sent: (nat, Gain, int32))
    requires GainFits(g) && sent == Encode(g, ee, level)
    ensures sent.0 < 16 && Follows(Decode(g, sent.0, level, nggalgc), sent.1, sent.2, nggalgc)
    ensures GainFits(sent.1)
  {
    hide Suspicious, Chosen, Decoded, Predicted, LogGain, LinearGain, Lgpecb, Next, GainFits, Limit;
    NeverSuspicious(g, LogGain(ee), level);
    NextFits(g, sent.0);
    NextIs(g, Decoded(Predicted(g.lgpm), sent.0), Lgpecb(sent.0));
  }

  lemma NextIs(g: Gain, lgq: int32, x: int16)
    ensures Next(g, lgq, x).prev0 == lgq
  {
  }

  lemma NextFits(g: Gain, k: nat)
    requires GainFits(g) && k < 16
    ensures GainFits(Next(g, Decoded(Predicted(g.lgpm), k), Lgpecb(k)))
  {
    hide Decoded, Predicted, Lgpecb;
    DecodedBounds(g, k);
  }

  // ---------------------------------------------------------------- level estimation

  datatype Levels = Levels(level: int32, lmax: int32, lmin: int32, lmean: int32, x1: int32)

  /** alpha times x, through the two halves of x. */
  function Scaled(x: int32, alpha: int16): int32 {
    var (s, t) := LExtract(x);
    Mpy3216(s, t, alpha)
  }

  /** x moved towards the mean. */
  function Towards(x: int32, mean: int32, alpha: int16): int32 {
    LAdd(Scaled(LSub(x, mean), alpha), mean)
  }

  /** The forgetting factor of the minimum that the counts of good frames call for. */
  function Forgetting(nggalgc: int16, alphaMin: int16): int16 {
    if nggalgc == 0 then 32640 else if nggalgc == 101 then 32760 else alphaMin
  }

  /** The log-gain sets a new minimum. */
  predicate NewMinimum(lv: Levels, lg: int32, ngfae: int16, nggalgc: int16) {
    lg < lv.lmin && ngfae == 9 && nggalgc > 8
  }

  function Threshold(lmax: int32, lmean: int32): int32 { LAdd(lmean, Scaled(LSub(lmax, lmean), 6554)) }

  /** estlevel: the levels, the forgetting factor and the threshold. */
  function EstLevel(lv: Levels, lg: int32, ngfae: int16, nggalgc: int16, alphaMin: int16): (Levels, int16, int32) {
    hide Scaled, Towards, Threshold, LAdd, LShr, Forgetting, NewMinimum;
    var alpha := Forgetting(nggalgc, alphaMin);
    var lmax := if lg > lv.lmax then lg else Towards(lv.lmax, lv.lmean, 32760);
    var lmin := if NewMinimum(lv, lg, ngfae, nggalgc) then lg else Towards(lv.lmin, lv.lmean, alpha);
    var lmean := LAdd(Scaled(LShr(LAdd(lmax, lmin), 1), 64), Scaled(lv.lmean, 32704));
    var lth := Threshold(lmax, lmean);
    var x1 := if lg > lth then LAdd(Scaled(lv.x1, 32640), Scaled(lg, 128)) else lv.x1;
    var level := if lg > lth then LAdd(Scaled(lv.level, 32640), Scaled(x1, 128)) else lv.level;
    (Levels(level, lmax, lmin, lmean, x1), if NewMinimum(lv, lg, ngfae, nggalgc) then 32760 else alpha, lth)
  }

  // ---------------------------------------------------------------- runs

  datatype Encoder = Encoder(g: Gain, lv: Levels)

  datatype Decoder = Decoder(g: Gain, lv: Levels, ngfae: int16, nggalgc: int16, alphaMin: int16)

  const GAIN_RESET: Gain := Gain([0, 0, 0, 0, 0, 0, 0, 0], 0, 0)
  const LEVELS_RESET: Levels := Levels(570_425_344, MIN32, MAX32, 419_430_400, 570_425_344)

  /** A frame at the encoder, which estimates the level as after many good frames. */
  function EncodeFrame(e: Encoder, ee: int32): (Encoder, nat, int32) {
    var (k, g, gain) := Encode(e.g, ee, e.lv.level);
    (Encoder(g, EstLevel(e.lv, g.prev0, 9, 101, 32760).0), k, gain)
  }

  /** A frame at the decoder when none was lost before. */
  function DecodeFrame(d: Decoder, k: nat): (Decoder, int32)
    requires k < 16
  {
    var ngfae: int16 := if SatAdd16(d.ngfae, 1) > 8 then 9 else SatAdd16(d.ngfae, 1);
    var r := Decode(d.g, k, d.lv.level, d.nggalgc);
    var (lv, alpha, lth) := EstLevel(d.lv, r.lgEl, ngfae, r.nggalgc, d.alphaMin);
    (Decoder(r.g, lv, ngfae, r.nggalgc, alpha), r.gain)
  }

  /** Equal gain and level state, and a decoder that has seen no error. */
  ghost predicate InStep(e: Encoder, d: Decoder) {
    GainFits(e.g) && e.g == d.g && e.lv == d.lv && 8 <= d.ngfae <= 9 && 100 <= d.nggalgc <= 101
  }

  lemma FrameLockstep(e: Encoder, d: Decoder, ee: int32)
    requires InStep(e, d)
    ensures var (e', k, gain) := EncodeFrame(e, ee);
            && k < 16 && InStep(e', DecodeFrame(d, k).0) && DecodeFrame(d, k).1 == gain
  {
    hide GainFits, Encode, Decode, Scaled, Towards, Threshold, LAdd, LShr;
    GainLockstep(e.g, ee, e.lv.level, d.nggalgc, Encode(e.g, ee, e.lv.level));
  }

  function EncodeRun(e: Encoder, ees: seq<int32>): (r: (Encoder, seq<nat>, seq<int32>))
    ensures |r.1| == |r.2| == |ees|
  {
    hide EncodeFrame;
    if ees == [] then (e, [], [])
    else
      var n := |ees| - 1;
      var (e1, ks, gains) := EncodeRun(e, ees[..n]);
      var (e2, k, gain) := EncodeFrame(e1, ees[n]);
      (e2, ks + [k], gains + [gain])
  }

  /** The decoder over a run of indices, taken modulo the codebook size. */
  function DecodeRun(d: Decoder, ks: seq<nat>): (r: (Decoder, seq<int32>))
    ensures |r.1| == |ks|
  {
    hide DecodeFrame;
    if ks == [] then (d, [])
    else
      var n := |ks| - 1;
      var (d1, gains) := DecodeRun(d, ks[..n]);
      var (d2, gain) := DecodeFrame(d1, ks[n] % 16);
      (d2, gains + [gain])
  }

  /** Over every run the decoder's gain memory, levels and gains are the encoder's. */
  lemma {:induction false} GainRunLockstep(e: Encoder, d: Decoder, ees: seq<int32>)
    requires InStep(e, d)
    ensures var (e', ks, gains) := EncodeRun(e, ees);
            InStep(e', DecodeRun(d, ks).0) && DecodeRun(d, ks).1 == gains
  {
    hide EncodeFrame, DecodeFrame, InStep;
    if ees == [] {
    } else {
      var n := |ees| - 1;
      GainRunLockstep(e, d, ees[..n]);
      var (e1, ks, gains) := EncodeRun(e, ees[..n]);
      FrameLockstep(e1, DecodeRun(d, ks).0, ees[n]);
      var k := EncodeFrame(e1, ees[n]).1;
      assert (ks + [k])[..n] == ks;
    }
  }

  lemma ResetInStep()
    ensures InStep(Encoder(GAIN_RESET, LEVELS_RESET), Decoder(GAIN_RESET, LEVELS_RESET, 9, 101, 32760))
  {
  }

  // ---------------------------------------------------------------- in place

  /** The state gainquan and gaindec update through their pointer arguments. */
  class GainState {
    const lgpm: array<int16>
    const prevlg: array<int32>

    ghost predicate Valid() { lgpm.Length == 8 && prevlg.Length == 2 }

    ghost function View(): Gain
      reads lgpm, prevlg
      requires Valid()
    {
      Gain(lgpm[..], prevlg[0], prevlg[1])
    }

    constructor ()
      ensures Valid() && fresh(lgpm) && fresh(prevlg) && View() == GAIN_RESET
    {
      lgpm := new int16[8](_ => 0);
      prevlg := new int32[2](_ => 0);
    }

    method PredictGain() returns (elg: int32)
      requires Valid()
      ensures elg == Predicted(View().lgpm)
    {
      hide LMac0, Lgp, LShr;
      elg := LShr(DepositH(LGMEAN), 1);
      for i := 0 to 8
        invariant elg == PredictorSum(lgpm[..], i)
      {
        elg := LMac0(elg, Lgp(i), lgpm[i]);
      }
      elg := LShr(elg, 1);
    }

    method LookUpLimit(level: int32) returns (limit: int16)
      requires Valid()
      ensures limit == Limit(View(), level) && -2555 <= limit <= 7304
    {
      hide Shr16, ExtractH, LSub, Lgclimit;
      var i: int := Shr16(SatSub16(Shr16(ExtractH(LSub(prevlg[0], level)), 9), LGLB), 1);
      if i >= 18 {
        i := 17;
      } else if i < 0 {
        i := 0;
      }
      var n: int := Shr16(SatSub16(Shr16(ExtractH(LSub(prevlg[0], prevlg[1])), 9), LGCLB), 1);
      if n >= 12 {
        n := 11;
      } else if n < 0 {
        n := 0;
      }
      limit := Lgclimit(i, n);
    }

    /** The predictor memory moves by one, then takes x. */
    method Shift(lgq: int32, x: int16)
      requires Valid()
      modifies lgpm, prevlg
      ensures View() == Next(old(View()), lgq, x)
    {
      prevlg[1] := prevlg[0];
      prevlg[0] := lgq;
      var i := 7;
      while i > 0
        invariant 0 <= i <= 7
        invariant forall k :: 0 <= k <= i ==> lgpm[k] == old(lgpm[k])
        invariant forall k :: i < k < 8 ==> lgpm[k] == old(lgpm[k - 1])
        modifies lgpm
      {
        lgpm[i] := lgpm[i - 1];
        i := i - 1;
      }
      lgpm[0] := x;
      assert lgpm[..] == [x] + old(lgpm[..])[..7];
    }

    method SearchNearest(lgpe: int16) returns (gidx: nat)
      ensures gidx == Nearest(lgpe, 16)
    {
      hide Distance;
      var dmin := MAX16;
      gidx := 0;
      for i := 0 to 16
        invariant i == 0 ==> dmin == MAX16 && gidx == 0
        invariant i > 0 ==> gidx == Nearest(lgpe, i) && dmin == Distance(lgpe, gidx)
      {
        var d := Distance(lgpe, i);
        if d < dmin {
          dmin := d;
          gidx := i;
        }
        assert i == 0 ==> gidx == 0 && dmin == d;
      }
    }

    /** gainquan */
    method GainQuan(ee: int32, level: int32) returns (gidx: nat, gainq: int32)
      requires Valid()
      modifies lgpm, prevlg
      ensures (gidx, View(), gainq) == Encode(old(View()), ee, level)
    {
      hide Predicted, Decoded, LogGain, Round, LShl, Limit, Nearest, LinearGain, Lgpecb, Idxord;
      var lg := LogGain(ee);
      var elg: int32 := PredictGain();
      var lgpe := Round(LShl(LSub(lg, elg), 2));
      var n := SearchNearest(lgpe);
      var lgq: int32 := Decoded(elg, Idxord(n));
      var change := LookUpLimit(level);
      var limit: int32 := LAdd(prevlg[0], DepositH(change));
      ghost var goal := SteppedDown(elg, limit, n);
      while lgq > limit && n > 0
        invariant n < 16 && lgq == Decoded(elg, Idxord(n))
        invariant SteppedDown(elg, limit, n) == goal
        decreases n
      {
        n := n - 1;
        lgq := Decoded(elg, Idxord(n));
      }
      gidx := Idxord(n);
      Shift(lgq, Lgpecb(gidx));
      gainq := LinearGain(lgq);
    }

    /** gaindec */
    method GainDec(gidx: nat, level: int32, nggalgc: int16)
      returns (gain: int32, lgq: int32, good: int16, lgEl: int32)
      requires Valid() && gidx < 16
      modifies lgpm, prevlg
      ensures DecodedGain(View(), gain, good, lgEl) == Decode(old(View()), gidx, level, nggalgc)
      ensures lgq == View().prev0
    {
      hide Predicted, Decoded, LShl, Limit, LinearGain, Lgpecb, ExtractH, LSub, LAdd;
      var elg: int32 := PredictGain();
      lgq := Decoded(elg, gidx);
      var change := LookUpLimit(level);
      var lgc := ExtractH(LSub(lgq, prevlg[0]));
      var x: int16;
      if lgc > change && gidx > 0 {
        lgq := prevlg[0];
        x := ExtractH(LShl(LSub(lgq, elg), 2));
        good := 0;
        lgEl := LAdd(DepositH(change), prevlg[0]);
      } else {
        x := Lgpecb(gidx);
        good := SatAdd16(nggalgc, 1);
        if good > 100 {
          good := 101;
        }
        lgEl := lgq;
      }
      Shift(lgq, x);
      gain := LinearGain(lgq);
    }
  }

  /** The levels estlevel updates through its pointer arguments. */
  class LevelState {
    var level: int32
    var lmax: int32
    var lmin: int32
    var lmean: int32
    var x1: int32
    var alphaMin: int16

    ghost function View(): Levels
      reads this
    {
      Levels(level, lmax, lmin, lmean, x1)
    }

    constructor ()
      ensures View() == LEVELS_RESET && alphaMin == 32760
    {
      level, lmax, lmin, lmean, x1 := 570_425_344, MIN32, MAX32, 419_430_400, 570_425_344;
      alphaMin := 32760;
    }

    method Estimate(lg: int32, ngfae: int16, nggalgc: int16) returns (lth: int32)
      modifies this
      ensures (View(), alphaMin, lth) == EstLevel(old(View()), lg, ngfae, nggalgc, old(alphaMin))
    {
      hide Scaled, LAdd, LSub, LShr;
      if nggalgc == 0 {
        alphaMin := 32640;
      } else if nggalgc == 101 {
        alphaMin := 32760;
      }
      if lg > lmax {
        lmax := lg;
      } else {
        lmax := LAdd(Scaled(LSub(lmax, lmean), 32760), lmean);
      }
      if lg < lmin && ngfae == 9 && nggalgc > 8 {
        lmin := lg;
        alphaMin := 32760;
      } else {
        lmin := LAdd(Scaled(LSub(lmin, lmean), alphaMin), lmean);
      }
      var a0: int32 := Scaled(LShr(LAdd(lmax, lmin), 1), 64);
      lmean := LAdd(a0, Scaled(lmean, 32704));
      lth := LAdd(lmean, Scaled(LSub(lmax, lmean), 6554));
      if lg > lth {
        x1 := LAdd(Scaled(x1, 32640), Scaled(lg, 128));
        level := LAdd(Scaled(level, 32640), Scaled(x1, 128));
      }
    }
  }
}
