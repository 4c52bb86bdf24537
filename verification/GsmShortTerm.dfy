/** GSM 06.10 short term filtering: decoding and interpolation of the log area ratios,
    the analysis lattice of the encoder and the synthesis lattice of the decoder
    (sections 4.2.8 to 4.2.10 and 4.3.4 of GSM 06.10). */
module GsmShortTerm {
  import opened FixedPoint
  import opened GsmArith

  type Vec8 = s: seq<int16> | |s| == 8 witness [0, 0, 0, 0, 0, 0, 0, 0]
  type Vec9 = s: seq<int16> | |s| == 9 witness [0, 0, 0, 0, 0, 0, 0, 0, 0]

  // ---------------------------------------------------------------- coefficients

  const LAR_B: Vec8 := [0, 0, 2048, -2560, 94, -1792, -341, -1144]
  const LAR_MIC: Vec8 := [-32, -32, -16, -16, -8, -8, -4, -4]
  const LAR_INVA: Vec8 := [13107, 13107, 13107, 13107, 19223, 17476, 31454, 29708]

  /** The STEP macro of decode_log_area_ratios. */
  function LarStep(larc: int16, b: int16, mic: int16, inva: int16): int16
    requires -0x4000 <= b < 0x4000
  {
    var t := Wrap16(SatAdd16(larc, mic) * 1024);
    var t := SatSub16(t, 2 * b);
    var t := MultR(inva, t);
    SatAdd16(t, t)
  }

  lemma LarTables(i: nat)
    requires i < 8
    ensures -0x4000 <= LAR_B[i] < 0x4000
  {
  }

  /** One coded log area ratio, decoded. */
  function DecodedLar(larc: int16, i: nat): int16
    requires i < 8
  {
    LarTables(i);
    LarStep(larc, LAR_B[i], LAR_MIC[i], LAR_INVA[i])
  }

  function DecodedLars(larc: Vec8): Vec8 {
    seq(8, i requires 0 <= i < 8 => DecodedLar(larc[i], i))
  }

  /** The interpolated ratio of one of the four segments of a frame. */
  function Interpolated(segment: nat, prev: int16, cur: int16): int16
    requires segment < 4
  {
    match segment
    case 0 => SatAdd16(SatAdd16(prev / 4, cur / 4), prev / 2)
    case 1 => SatAdd16(prev / 2, cur / 2)
    case 2 => SatAdd16(SatAdd16(prev / 4, cur / 4), cur / 2)
    case _ => cur
  }

  /** The four segments move from the previous ratio to the current one in quarters, each
      rounded down by at most two. */
  lemma InterpolationMeans(segment: nat, prev: int16, cur: int16)
    requires segment < 4
    ensures var w := segment + 1;
            0 <= (4 - w) * prev + w * cur - 4 * Int(Interpolated(segment, prev, cur)) <= 8
  {
    hide Saturate, Interpolated;
    InterpolationExact(segment, prev, cur);
    var p: int, c: int := prev, cur;
    if segment == 0 {
      assert 3 * p + c - 4 * (p / 4 + c / 4 + p / 2) == p % 4 + c % 4 + 2 * (p % 2);
    } else if segment == 1 {
      assert 2 * p + 2 * c - 4 * (p / 2 + c / 2) == 2 * (p % 2) + 2 * (c % 2);
    } else if segment == 2 {
      assert p + 3 * c - 4 * (p / 4 + c / 4 + c / 2) == p % 4 + c % 4 + 2 * (c % 2);
    }
  }

  /** No addition of the interpolation saturates. */
  lemma InterpolationExact(segment: nat, prev: int16, cur: int16)
    requires segment < 4
    ensures var p: int, c: int := prev, cur;
            Interpolated(segment, prev, cur)
            == match segment
               case 0 => p / 4 + c / 4 + p / 2
               case 1 => p / 2 + c / 2
               case 2 => p / 4 + c / 4 + c / 2
               case _ => c
  {
  }

  /** Magnitude of a reflection coefficient from the magnitude of its log area ratio. */
  function Expand(mag: int16): int16
    requires mag >= 0
  {
    if mag < 11059 then 2 * mag
    else if mag < 20070 then mag + 11059
    else SatAdd16(mag / 4, 26112)
  }

  function LarToRp(lar: int16): int16 {
    if lar < 0 then -Expand(if lar == MIN16 then MAX16 else -lar) else Expand(lar)
  }

  /** The coefficients a segment is filtered with. */
  function SegmentRp(segment: nat, prev: Vec8, cur: Vec8): Vec8
    requires segment < 4
  {
    seq(8, i requires 0 <= i < 8 => LarToRp(Interpolated(segment, prev[i], cur[i])))
  }

  ghost predicate Stable(rp: Vec8) {
    forall i :: 0 <= i < 8 ==> rp[i] != MIN16
  }

  /** No log area ratio gives the coefficient -1.0, so the special cases of the
      synthesis lattice for INT16_MIN are never taken. */
  lemma SegmentRpStable(segment: nat, prev: Vec8, cur: Vec8)
    requires segment < 4
    ensures Stable(SegmentRp(segment, prev, cur))
    ensures forall i :: 0 <= i < 8 ==> -32767 <= SegmentRp(segment, prev, cur)[i] <= 32767
  {
    forall i | 0 <= i < 8
      ensures -32767 <= LarToRp(Interpolated(segment, prev[i], cur[i])) <= 32767
    {
    }
  }

  // ---------------------------------------------------------------- one sample

  /** The residual after k stages of the analysis lattice. */
  function Residual(rp: Vec8, u: Vec8, x: int16, k: nat): int16
    requires k <= 8
  {
    if k == 0 then x
    else Saturate(Residual(rp, u, x, k - 1) + Round15(rp[k - 1], u[k - 1]))
  }

  /** The analysis memory after one sample. */
  function NextU(rp: Vec8, u: Vec8, x: int16): Vec8 {
    seq(8, i requires 0 <= i < 8 =>
      if i == 0 then x else Saturate(u[i - 1] + Round15(rp[i - 1], Residual(rp, u, x, i - 1))))
  }

  /** The reconstructed signal after stages 7 down to k of the synthesis lattice. */
  function Restored(rrp: Vec8, v: Vec9, d: int16, k: nat): int16
    requires k <= 8
    decreases 8 - k
  {
    if k == 8 then d
    else SatSub16(Restored(rrp, v, d, k + 1), MultR(rrp[k], v[k]))
  }

  /** The synthesis memory after one sample. */
  function NextV(rrp: Vec8, v: Vec9, d: int16): Vec9 {
    seq(9, i requires 0 <= i < 9 =>
      if i == 0 then Restored(rrp, v, d, 0)
      else SatAdd16(v[i - 1], MultR(rrp[i - 1], Restored(rrp, v, d, i - 1))))
  }

  /** Whether stage k of the analysis lattice adds without saturating. */
  predicate StageFits(rp: Vec8, u: Vec8, x: int16, k: nat)
    requires k < 8
  {
    -0x8000 <= Residual(rp, u, x, k) + Round15(rp[k], u[k]) <= 0x7fff
  }

  predicate SampleFits(rp: Vec8, u: Vec8, x: int16) {
    forall k :: 0 <= k < 8 ==> StageFits(rp, u, x, k)
  }

  /** Subtracting what a saturating addition added gives the first operand back
      exactly when the addition did not saturate. */
  lemma UndoIffFits(d: int16, m: int16)
    ensures SatSub16(Saturate(d + m), m) == d <==> -0x8000 <= d + m <= 0x7fff
  {
  }

  lemma {:induction false} RestoresFrom(rp: Vec8, u: Vec8, v: Vec9, x: int16, k: nat)
    requires k <= 8 && Stable(rp) && v[..8] == u && SampleFits(rp, u, x)
    ensures Restored(rp, v, Residual(rp, u, x, 8), k) == Residual(rp, u, x, k)
    decreases 8 - k
  {
    if k >= 8 {
    } else {
      RestoresFrom(rp, u, v, x, k + 1);
      assert StageFits(rp, u, x, k) && v[k] == u[k];
      MultRIsRound15(rp[k], u[k]);
    }
  }

  lemma FitsWhereRestored(rp: Vec8, u: Vec8, v: Vec9, x: int16, k: nat)
    requires k < 8 && Stable(rp) && v[..8] == u
    requires Restored(rp, v, Residual(rp, u, x, 8), k) == Residual(rp, u, x, k)
    requires Restored(rp, v, Residual(rp, u, x, 8), k + 1) == Residual(rp, u, x, k + 1)
    ensures StageFits(rp, u, x, k)
  {
    assert v[k] == u[k];
    MultRIsRound15(rp[k], u[k]);
    UndoIffFits(Residual(rp, u, x, k), MultR(rp[k], u[k]));
  }

  /** The synthesis lattice runs through the residuals of the analysis lattice in reverse. */
  ghost predicate Retraced(rp: Vec8, u: Vec8, v: Vec9, x: int16) {
    forall k :: 0 <= k <= 8 ==> Restored(rp, v, Residual(rp, u, x, 8), k) == Residual(rp, u, x, k)
  }

  /** On equal memories the synthesis lattice retraces the analysis lattice if and only if
      none of the eight stages saturated. */
  lemma LatticeInverse(rp: Vec8, u: Vec8, v: Vec9, x: int16)
    requires Stable(rp) && v[..8] == u
    ensures Retraced(rp, u, v, x) <==> SampleFits(rp, u, x)
  {
    if SampleFits(rp, u, x) {
      forall k | 0 <= k <= 8
        ensures Restored(rp, v, Residual(rp, u, x, 8), k) == Residual(rp, u, x, k)
      {
        RestoresFrom(rp, u, v, x, k);
      }
    }
    if Retraced(rp, u, v, x) {
      forall k | 0 <= k < 8 ensures StageFits(rp, u, x, k) {
        FitsWhereRestored(rp, u, v, x, k);
      }
    }
  }

  /** One sample: the input comes back and the memories stay equal. */
  lemma SampleRestored(rp: Vec8, u: Vec8, v: Vec9, x: int16)
    requires Stable(rp) && v[..8] == u && SampleFits(rp, u, x)
    ensures NextV(rp, v, Residual(rp, u, x, 8))[0] == x
    ensures NextV(rp, v, Residual(rp, u, x, 8))[..8] == NextU(rp, u, x)
  {
    var d := Residual(rp, u, x, 8);
    LatticeInverse(rp, u, v, x);
    forall i | 0 <= i < 8 ensures NextV(rp, v, d)[i] == NextU(rp, u, x)[i] {
      assert Restored(rp, v, d, 0) == Residual(rp, u, x, 0);
      if i > 0 {
        assert Restored(rp, v, d, i - 1) == Residual(rp, u, x, i - 1);
        MultRIsRound15(rp[i - 1], Residual(rp, u, x, i - 1));
      }
    }
  }

  // ---------------------------------------------------------------- runs of samples

  /** Analysis of a run: sample i is filtered with the coefficients cs[i]. */
  function Analysed(cs: seq<Vec8>, u: Vec8, xs: seq<int16>): (r: (Vec8, seq<int16>))
    requires |cs| == |xs|
    ensures |r.1| == |xs|
  {
    if xs == [] then (u, [])
    else
      var n := |xs| - 1;
      var (u1, ds) := Analysed(cs[..n], u, xs[..n]);
      (NextU(cs[n], u1, xs[n]), ds + [Residual(cs[n], u1, xs[n], 8)])
  }

  function Synthesised(cs: seq<Vec8>, v: Vec9, ds: seq<int16>): (r: (Vec9, seq<int16>))
    requires |cs| == |ds|
    ensures |r.1| == |ds|
  {
    if ds == [] then (v, [])
    else
      var n := |ds| - 1;
      var (v1, xs) := Synthesised(cs[..n], v, ds[..n]);
      var v2 := NextV(cs[n], v1, ds[n]);
      (v2, xs + [v2[0]])
  }

  /** No stage saturates anywhere in the run. */
  predicate RunFits(cs: seq<Vec8>, u: Vec8, xs: seq<int16>)
    requires |cs| == |xs|
  {
    xs != [] ==>
      var n := |xs| - 1;
      && RunFits(cs[..n], u, xs[..n])
      && SampleFits(cs[n], Analysed(cs[..n], u, xs[..n]).0, xs[n])
  }

  lemma AnalysedSnoc(cs: seq<Vec8>, c: Vec8, u: Vec8, xs: seq<int16>, x: int16)
    requires |cs| == |xs|
    ensures var (u1, ds) := Analysed(cs, u, xs);
            && Analysed(cs + [c], u, xs + [x]) == (NextU(c, u1, x), ds + [Residual(c, u1, x, 8)])
            && (RunFits(cs + [c], u, xs + [x]) <==> RunFits(cs, u, xs) && SampleFits(c, u1, x))
  {
    hide NextU, Residual, SampleFits;
    assert (cs + [c])[..|cs|] == cs && (xs + [x])[..|xs|] == xs;
  }

  lemma SynthesisedSnoc(cs: seq<Vec8>, c: Vec8, v: Vec9, ds: seq<int16>, d: int16)
    requires |cs| == |ds|
    ensures var (v1, xs) := Synthesised(cs, v, ds);
            Synthesised(cs + [c], v, ds + [d]) == (NextV(c, v1, d), xs + [NextV(c, v1, d)[0]])
  {
    hide NextV;
    assert (cs + [c])[..|cs|] == cs && (ds + [d])[..|ds|] == ds;
  }

  /** The synthesis filter undoes the analysis filter over a whole run. */
  ghost predicate Reconstructs(cs: seq<Vec8>, u: Vec8, v: Vec9, xs: seq<int16>)
    requires |cs| == |xs|
  {
    var (u1, ds) := Analysed(cs, u, xs);
    var (v1, ys) := Synthesised(cs, v, ds);
    ys == xs && v1[..8] == u1
  }

  lemma ReconstructsSnoc(cs: seq<Vec8>, c: Vec8, u: Vec8, v: Vec9, xs: seq<int16>, x: int16)
    requires |cs| == |xs| && Stable(c)
    requires RunFits(cs + [c], u, xs + [x]) && Reconstructs(cs, u, v, xs)
    ensures Reconstructs(cs + [c], u, v, xs + [x])
  {
    hide NextU, NextV, Residual, SampleFits, Stable, RunFits, Analysed, Synthesised;
    AnalysedSnoc(cs, c, u, xs, x);
    var (u1, ds) := Analysed(cs, u, xs);
    SampleRestored(c, u1, Synthesised(cs, v, ds).0, x);
    SynthesisedSnoc(cs, c, v, ds, Residual(c, u1, x, 8));
  }

  /** Perfect reconstruction over a run of any length and any schedule of coefficients. */
  lemma {:induction false} PerfectReconstruction(cs: seq<Vec8>, u: Vec8, v: Vec9, xs: seq<int16>)
    requires |cs| == |xs| && v[..8] == u
    requires forall i :: 0 <= i < |cs| ==> Stable(cs[i])
    requires RunFits(cs, u, xs)
    ensures Synthesised(cs, v, Analysed(cs, u, xs).1).1 == xs
    ensures Synthesised(cs, v, Analysed(cs, u, xs).1).0[..8] == Analysed(cs, u, xs).0
  {
    hide NextU, NextV, Residual, SampleFits, Stable;
    if xs == [] {
    } else {
      var n := |xs| - 1;
      assert Stable(cs[n]);
      PerfectReconstruction(cs[..n], u, v, xs[..n]);
      assert cs[..n] + [cs[n]] == cs && xs[..n] + [xs[n]] == xs;
      ReconstructsSnoc(cs[..n], cs[n], u, v, xs[..n], xs[n]);
    }
  }

  // ---------------------------------------------------------------- saturation

  /** Stage k is the first that saturates. */
  predicate ClipsFirst(rp: Vec8, u: Vec8, x: int16, k: nat)
    requires k < 8
  {
    !StageFits(rp, u, x, k) && forall j :: 0 <= j < k ==> StageFits(rp, u, x, j)
  }

  /** Residual i lies at the end of the range away from which stage k saturates: the error
      that stage k leaves behind is absorbed there by the saturation of the synthesis. */
  predicate Absorbs(rp: Vec8, u: Vec8, x: int16, i: nat, k: nat)
    requires i <= 8 && k < 8
  {
    Residual(rp, u, x, i)
    == if Residual(rp, u, x, k) + Round15(rp[k], u[k]) > 0x7fff then MIN16 else MAX16
  }

  /** Undoing a saturated addition from any value misses the first operand, on the side
      away from the saturation. */
  lemma ClipMisses(d: int16, m: int16, s: int16)
    ensures d + m > 0x7fff ==> SatSub16(s, m) < d
    ensures d + m < -0x8000 ==> SatSub16(s, m) > d
  {
  }

  /** Undoing an exact addition from a missed value misses the first operand on the same
      side, or gives it where it is the end of the range on that side. */
  lemma MissPassesOn(d: int16, m: int16, s: int16)
    requires -0x8000 <= d + m <= 0x7fff
    ensures s < d + m ==> SatSub16(s, m) <= d && (SatSub16(s, m) == d <==> d == MIN16)
    ensures s > d + m ==> SatSub16(s, m) >= d && (SatSub16(s, m) == d <==> d == MAX16)
    ensures s == d + m ==> SatSub16(s, m) == d
  {
  }

  /** Below the first stage that saturates, the synthesis agrees with the analysis from the
      first absorbing residual down, and misses on one side above it. */
  lemma {:induction false} MissAt(rp: Vec8, u: Vec8, v: Vec9, x: int16, k: nat, i: nat)
    requires k < 8 && i <= k && Stable(rp) && v[..8] == u && ClipsFirst(rp, u, x, k)
    ensures var r, s := Residual(rp, u, x, i), Restored(rp, v, Residual(rp, u, x, 8), i);
            && (s == r <==> exists j :: i <= j < k && Absorbs(rp, u, x, j, k))
            && (Residual(rp, u, x, k) + Round15(rp[k], u[k]) > 0x7fff ==> s <= r)
            && (Residual(rp, u, x, k) + Round15(rp[k], u[k]) < -0x8000 ==> s >= r)
    decreases k - i
  {
    hide Round15, MultR, Stable;
    assert v[i] == u[i];
    assert rp[i] != MIN16 by { StableAt(rp, i); }
    MultRIsRound15(rp[i], u[i]);
    var d := Residual(rp, u, x, 8);
    if i == k {
      ClipMisses(Residual(rp, u, x, k), MultR(rp[k], u[k]), Restored(rp, v, d, k + 1));
    } else {
      MissAt(rp, u, v, x, k, i + 1);
      assert StageFits(rp, u, x, i);
      MissPassesOn(Residual(rp, u, x, i), MultR(rp[i], u[i]), Restored(rp, v, d, i + 1));
      if Absorbs(rp, u, x, i, k) {
        assert exists j :: i <= j < k && Absorbs(rp, u, x, j, k);
      }
    }
  }

  lemma StableAt(rp: Vec8, i: nat)
    requires Stable(rp) && i < 8
    ensures rp[i] != MIN16
  {
  }

  /** The sample comes back: no stage saturates, or below the first that does a residual
      lies at the opposite end of the range. */
  ghost predicate ComesBack(rp: Vec8, u: Vec8, x: int16) {
    forall k :: 0 <= k < 8 && ClipsFirst(rp, u, x, k) ==> exists i :: 0 <= i < k && Absorbs(rp, u, x, i, k)
  }

  /** The exact condition for all eight stages: on equal memories the synthesis filter gives
      the sample back if and only if the analysis either fits or its first saturation is
      absorbed. */
  lemma SampleComesBack(rp: Vec8, u: Vec8, v: Vec9, x: int16)
    requires Stable(rp) && v[..8] == u
    ensures NextV(rp, v, Residual(rp, u, x, 8))[0] == x <==> ComesBack(rp, u, x)
  {
    hide Stable, Residual, StageFits, Absorbs, ClipsFirst;
    assert NextV(rp, v, Residual(rp, u, x, 8))[0] == Restored(rp, v, Residual(rp, u, x, 8), 0);
    assert Residual(rp, u, x, 0) == x by { ResidualStart(rp, u, x); }
    if k :| 0 <= k < 8 && ClipsFirst(rp, u, x, k) {
      OnlyFirst(rp, u, x, k);
      MissAt(rp, u, v, x, k, 0);
    } else {
      NoneClips(rp, u, x, 8);
      RestoresFrom(rp, u, v, x, 0);
    }
  }

  lemma ResidualStart(rp: Vec8, u: Vec8, x: int16)
    ensures Residual(rp, u, x, 0) == x
  {
  }

  lemma OnlyFirst(rp: Vec8, u: Vec8, x: int16, k: nat)
    requires k < 8 && ClipsFirst(rp, u, x, k)
    ensures forall j :: 0 <= j < 8 && ClipsFirst(rp, u, x, j) ==> j == k
  {
    hide StageFits;
  }

  lemma {:induction false} NoneClips(rp: Vec8, u: Vec8, x: int16, n: nat)
    requires n <= 8 && forall k :: 0 <= k < 8 ==> !ClipsFirst(rp, u, x, k)
    ensures forall k :: 0 <= k < n ==> StageFits(rp, u, x, k)
  {
    hide StageFits;
    if n == 0 {
    } else {
      NoneClips(rp, u, x, n - 1);
      assert !ClipsFirst(rp, u, x, n - 1);
    }
  }

  /** Saturation at the first stage always loses the sample; a full scale sample, a memory of
      100 and a coefficient of 0.5 are enough. */
  lemma SaturationLosesInput(rp: Vec8, u: Vec8, v: Vec9, x: int16)
    requires Stable(rp) && v[..8] == u
    ensures !StageFits(rp, u, x, 0) ==> NextV(rp, v, Residual(rp, u, x, 8))[0] != x
    ensures rp[0] == 16384 && u[0] == 100 ==> NextV(rp, v, Residual(rp, u, 32767, 8))[0] != 32767
  {
    hide Stable, NextV, Absorbs, Restored;
    SampleComesBack(rp, u, v, x);
    SampleComesBack(rp, u, v, 32767);
    if !StageFits(rp, u, x, 0) {
      assert ClipsFirst(rp, u, x, 0);
    }
    if rp[0] == 16384 && u[0] == 100 {
      MulIsProduct(16384, 100);
      assert ClipsFirst(rp, u, 32767, 0);
    }
  }

  /** A rounded product from its value. */
  lemma RoundedIs(a: int16, b: int16, r: int)
    requires a != MIN16 && 0x8000 * r <= Int(a) * Int(b) + 0x4000 < 0x8000 * (r + 1)
    ensures Round15(a, b) == r && MultR(a, b) == r
  {
    hide Mul;
    MulIsProduct(a, b);
    MultRIsRound15(a, b);
  }

  lemma ZeroProduct(b: int16)
    ensures Round15(0, b) == 0 && MultR(0, b) == 0
  {
    RoundedIs(0, b, 0);
  }

  /** A lattice, its memory and a sample that saturates stage 3 upwards. */
  ghost predicate Absorbing(rp: Vec8, u: Vec8, v: Vec9, x: int16) {
    && rp[0] == -29333 && rp[1] == -3080 && rp[2] == -16497 && rp[3] == -16626
    && (forall i :: 4 <= i < 8 ==> rp[i] == 0 && u[i] == 0)
    && (forall i :: 0 <= i < 4 ==> u[i] == -32768)
    && v[..8] == u && x == -32768
  }

  lemma AbsorbingResiduals(rp: Vec8, u: Vec8, v: Vec9, x: int16)
    requires Absorbing(rp, u, v, x)
    ensures Residual(rp, u, x, 1) == -3435 && Residual(rp, u, x, 2) == -355 && Residual(rp, u, x, 3) == 16142
    ensures forall k :: 4 <= k <= 8 ==> Residual(rp, u, x, k) == 32767
    ensures Stable(rp) && ClipsFirst(rp, u, x, 3)
  {
    hide Round15, MultR;
    RoundedIs(-29333, -32768, 29333);
    RoundedIs(-3080, -32768, 3080);
    RoundedIs(-16497, -32768, 16497);
    RoundedIs(-16626, -32768, 16626);
    ZeroProduct(0);
    assert Residual(rp, u, x, 0) == -32768;
    assert Residual(rp, u, x, 1) == -3435;
    assert Residual(rp, u, x, 2) == -355;
    assert Residual(rp, u, x, 3) == 16142;
    assert Residual(rp, u, x, 4) == 32767;
    assert Residual(rp, u, x, 5) == 32767;
    assert Residual(rp, u, x, 6) == 32767;
    assert Residual(rp, u, x, 7) == 32767;
  }

  lemma AbsorbingRestored(rp: Vec8, u: Vec8, v: Vec9, x: int16)
    requires Absorbing(rp, u, v, x)
    ensures var d := Residual(rp, u, x, 8);
            && Restored(rp, v, d, 0) == -32768 && Restored(rp, v, d, 1) == -3436
            && Restored(rp, v, d, 2) == -356 && Restored(rp, v, d, 3) == 16141
  {
    hide Round15, MultR, Residual, ClipsFirst;
    AbsorbingResiduals(rp, u, v, x);
    var d := Residual(rp, u, x, 8);
    RoundedIs(-29333, -32768, 29333);
    RoundedIs(-3080, -32768, 3080);
    RoundedIs(-16497, -32768, 16497);
    RoundedIs(-16626, -32768, 16626);
    ZeroProduct(0);
    forall i | 0 <= i < 8 ensures v[i] == u[i] {
      assert v[..8][i] == v[i];
    }
    assert Restored(rp, v, d, 7) == 32767;
    assert Restored(rp, v, d, 6) == 32767;
    assert Restored(rp, v, d, 5) == 32767;
    assert Restored(rp, v, d, 4) == 32767;
    assert Restored(rp, v, d, 3) == 16141;
    assert Restored(rp, v, d, 2) == -356;
    assert Restored(rp, v, d, 1) == -3436;
  }

  /** Saturation need not lose anything: here stage 3 saturates, and the sample and all
      memories come back, because the sample itself is -32768. */
  lemma SaturationCanBeAbsorbed(rp: Vec8, u: Vec8, v: Vec9, x: int16)
    requires Absorbing(rp, u, v, x)
    ensures Stable(rp) && ClipsFirst(rp, u, x, 3)
    ensures NextV(rp, v, Residual(rp, u, x, 8))[0] == x
    ensures NextV(rp, v, Residual(rp, u, x, 8))[..8] == NextU(rp, u, x)
  {
    hide Round15, MultR, Residual, Restored;
    AbsorbingResiduals(rp, u, v, x);
    AbsorbingRestored(rp, u, v, x);
    var d := Residual(rp, u, x, 8);
    RoundedIs(-29333, -32768, 29333);
    RoundedIs(-3080, -3435, 323);
    RoundedIs(-3080, -3436, 323);
    RoundedIs(-16497, -355, 179);
    RoundedIs(-16497, -356, 179);
    RoundedIs(-16626, 16142, -8190);
    RoundedIs(-16626, 16141, -8190);
    assert Residual(rp, u, x, 0) == x by { ResidualStart(rp, u, x); }
    forall i | 0 <= i < 8 ensures NextV(rp, v, d)[i] == NextU(rp, u, x)[i] {
      if i > 0 {
        assert v[i - 1] == v[..8][i - 1] == u[i - 1];
        if i > 4 {
          ZeroProduct(Residual(rp, u, x, i - 1));
          ZeroProduct(Restored(rp, v, d, i - 1));
        }
      }
    }
  }

  // ---------------------------------------------------------------- in place

  method DecodeLogAreaRatios(larc: Vec8, larpp: array<int16>)
    requires larpp.Length == 8
    modifies larpp
    ensures larpp[..] == DecodedLars(larc)
  {
    hide LarStep;
    for i := 0 to 8
      invariant forall k :: 0 <= k < i ==> larpp[k] == DecodedLar(larc[k], k)
    {
      LarTables(i);
      larpp[i] := LarStep(larc[i], LAR_B[i], LAR_MIC[i], LAR_INVA[i]);
    }
  }

  /** The four coefficients_* loops, selected by segment. */
  method Coefficients(segment: nat, prev: array<int16>, cur: array<int16>, larp: array<int16>)
    requires segment < 4 && prev.Length == cur.Length == larp.Length == 8
    requires larp != prev && larp != cur
    modifies larp
    ensures forall i :: 0 <= i < 8 ==> larp[i] == Interpolated(segment, prev[i], cur[i])
  {
    for i := 0 to 8
      invariant forall k :: 0 <= k < i ==> larp[k] == Interpolated(segment, prev[k], cur[k])
    {
      if segment == 0 {
        larp[i] := SatAdd16(prev[i] / 4, cur[i] / 4);
        larp[i] := SatAdd16(larp[i], prev[i] / 2);
      } else if segment == 1 {
        larp[i] := SatAdd16(prev[i] / 2, cur[i] / 2);
      } else if segment == 2 {
        larp[i] := SatAdd16(prev[i] / 4, cur[i] / 4);
        larp[i] := SatAdd16(larp[i], cur[i] / 2);
      } else {
        larp[i] := cur[i];
      }
    }
  }

  method LarpToRp(larp: array<int16>)
    requires larp.Length == 8
    modifies larp
    ensures forall i :: 0 <= i < 8 ==> larp[i] == LarToRp(old(larp[i]))
  {
    for i := 0 to 8
      invariant forall k :: 0 <= k < i ==> larp[k] == LarToRp(old(larp[k]))
      invariant forall k :: i <= k < 8 ==> larp[k] == old(larp[k])
    {
      var temp := larp[i];
      if temp < 0 {
        temp := if temp == MIN16 then MAX16 else -temp;
        if temp < 11059 {
          temp := temp * 2;
        } else if temp < 20070 {
          temp := temp + 11059;
        } else {
          temp := SatAdd16(temp / 4, 26112);
        }
        larp[i] := -temp;
      } else {
        if temp < 11059 {
          temp := temp * 2;
        } else if temp < 20070 {
          temp := temp + 11059;
        } else {
          temp := SatAdd16(temp / 4, 26112);
        }
        larp[i] := temp;
      }
    }
  }

  /** The schedule of a segment: the same coefficients for every sample. */
  function Constant(rp: Vec8, n: nat): (cs: seq<Vec8>)
    ensures |cs| == n && forall i :: 0 <= i < n ==> cs[i] == rp
  {
    seq(n, _ => rp)
  }

  method AnalyseSample(u: array<int16>, rp: array<int16>, x: int16) returns (d: int16)
    requires u.Length == rp.Length == 8 && u != rp
    requires Stable(rp[..])
    modifies u
    ensures u[..] == NextU(rp[..], old(u[..]), x)
    ensures d == Residual(rp[..], old(u[..]), x, 8)
  {
    hide Round15, Stable;
    ghost var u0: Vec8 := u[..];
    ghost var c: Vec8 := rp[..];
    var di: int, uOut: int := x, x;
    for i := 0 to 8
      invariant rp[..] == c
      invariant di == Residual(c, u0, x, i)
      invariant uOut == if i == 0 then x else Saturate(u0[i - 1] + Round15(c[i - 1], Residual(c, u0, x, i - 1)))
      invariant forall k :: 0 <= k < i ==> u[k] == NextU(c, u0, x)[k]
      invariant forall k :: i <= k < 8 ==> u[k] == u0[k]
    {
      var ui := u[i];
      u[i] := uOut;
      var rpi := rp[i];
      uOut := ui + Round15(rpi, di);
      di := di + Round15(rpi, ui);
      uOut := Saturate(uOut);
      di := Saturate(di);
    }
    d := di;
  }

  method SynthesiseSample(v: array<int16>, rrp: array<int16>, d: int16) returns (x: int16)
    requires v.Length == 9 && rrp.Length == 8 && v != rrp
    modifies v
    ensures v[..] == NextV(rrp[..], old(v[..]), d)
    ensures x == v[0]
  {
    hide MultR;
    ghost var v0: Vec9 := v[..];
    ghost var c: Vec8 := rrp[..];
    var sri := d;
    var i := 8;
    while i > 0
      invariant 0 <= i <= 8
      invariant rrp[..] == c
      invariant sri == Restored(c, v0, d, i)
      invariant forall k :: 0 <= k <= i ==> v[k] == v0[k]
      invariant forall k :: i < k < 9 ==> v[k] == NextV(c, v0, d)[k]
    {
      i := i - 1;
      var tmp1 := rrp[i];
      var tmp2 := v[i];
      tmp2 := MultR(tmp1, tmp2);
      sri := SatSub16(sri, tmp2);
      tmp1 := MultR(tmp1, sri);
      v[i + 1] := SatAdd16(v[i], tmp1);
    }
    v[0] := sri;
    x := sri;
  }

  method ShortTermAnalysisFiltering(u: array<int16>, rp: array<int16>, amp: array<int16>, start: nat, n: nat)
    requires u.Length == rp.Length == 8 && u != rp && amp != u && amp != rp
    requires start + n <= amp.Length && Stable(rp[..])
    modifies u, amp
    ensures (u[..], amp[start..start + n])
            == Analysed(Constant(rp[..], n), old(u[..]), old(amp[start..start + n]))
    ensures amp[..start] == old(amp[..start]) && amp[start + n..] == old(amp[start + n..])
  {
    hide Residual, NextU, Stable;
    ghost var c: Vec8 := rp[..];
    ghost var xs := amp[start..start + n];
    assert amp[start..start] == [] && Constant(c, 0) == [];
    for i := 0 to n
      invariant rp[..] == c
      invariant (u[..], amp[start..start + i]) == Analysed(Constant(c, i), old(u[..]), xs[..i])
      invariant amp[start + i..] == old(amp[start + i..])
      invariant amp[..start] == old(amp[..start])
    {
      assert amp[start + i..][0] == old(amp[start + i..])[0] == xs[i];
      ghost var u1 := u[..];
      ghost var done := amp[start..start + i];
      amp[start + i] := AnalyseSample(u, rp, amp[start + i]);
      assert amp[start + i + 1..] == old(amp[start + i..])[1..] == old(amp[start + i + 1..]);
      assert amp[start..start + i + 1] == done + [Residual(c, u1, xs[i], 8)];
      assert Constant(c, i + 1)[..i] == Constant(c, i);
      assert xs[..i + 1][..i] == xs[..i];
    }
    assert xs[..n] == xs;
  }

  method ShortTermSynthesisFiltering(v: array<int16>, rrp: array<int16>, wt: seq<int16>, sr: array<int16>, start: nat)
    requires v.Length == 9 && rrp.Length == 8 && v != rrp && sr != v && sr != rrp
    requires start + |wt| <= sr.Length
    modifies v, sr
    ensures (v[..], sr[start..start + |wt|]) == Synthesised(Constant(rrp[..], |wt|), old(v[..]), wt)
    ensures sr[..start] == old(sr[..start]) && sr[start + |wt|..] == old(sr[start + |wt|..])
  {
    hide NextV;
    ghost var c: Vec8 := rrp[..];
    assert sr[start..start] == [] && Constant(c, 0) == [];
    for i := 0 to |wt|
      invariant rrp[..] == c
      invariant (v[..], sr[start..start + i]) == Synthesised(Constant(c, i), old(v[..]), wt[..i])
      invariant sr[..start] == old(sr[..start]) && sr[start + i..] == old(sr[start + i..])
    {
      ghost var done := sr[start..start + i];
      sr[start + i] := SynthesiseSample(v, rrp, wt[i]);
      assert sr[start..start + i + 1] == done + [v[0]];
      assert Constant(c, i + 1)[..i] == Constant(c, i);
      assert wt[..i + 1][..i] == wt[..i];
    }
    assert wt[..|wt|] == wt;
  }
}
