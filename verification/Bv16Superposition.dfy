/** Why the excitation search of BroadVoice16 minimises the noise it feeds back: the error it
    measures for a candidate, made of a zero-input and a zero-state response, is the scaled
    noise that the memory update leaves behind when that candidate is chosen. */
module Bv16Superposition {
  import opened FixedPoint
  import opened Bv16Basop
  import opened Bv16Excitation
  import opened Bv16ExcQuan

  // ---------------------------------------------------------------- sums without saturation

  /** One product of a filter, doubled as by L_mult. */
  function Term(x: int, c: int): int { 2 * (x * c) }

  function ShortIdeal(st: seq<int16>, at: nat, aq: Lpc, k: nat): int
    requires k <= 8 && at + 8 <= |st|
  {
    if k == 0 then 0 else ShortIdeal(st, at, aq, k - 1) - Term(st[at + k - 1], aq[9 - k])
  }

  function NoiseIdeal(z: seq<int16>, p: seq<int16>, at: nat, g: Shaping, k: nat): int
    requires k <= 8 && at + 8 <= |z| && at + 8 <= |p|
  {
    if k == 0 then 0
    else NoiseIdeal(z, p, at, g, k - 1) + Term(z[at + k - 1], g.fsz[9 - k]) - Term(p[at + k - 1], g.fsp[9 - k])
  }

  /** The first k terms of either filter, and their sums as they are added up, fit 32 bits. */
  ghost predicate ShortFitsTo(st: seq<int16>, at: nat, aq: Lpc, k: nat)
    requires k <= 8 && at + 8 <= |st|
  {
    k > 0 ==>
      && ShortFitsTo(st, at, aq, k - 1)
      && Fits32(Term(st[at + k - 1], aq[9 - k])) && Fits32(ShortIdeal(st, at, aq, k))
  }

  ghost predicate NoiseFitsTo(z: seq<int16>, p: seq<int16>, at: nat, g: Shaping, k: nat)
    requires k <= 8 && at + 8 <= |z| && at + 8 <= |p|
  {
    k > 0 ==>
      && NoiseFitsTo(z, p, at, g, k - 1)
      && Fits32(Term(z[at + k - 1], g.fsz[9 - k])) && Fits32(Term(p[at + k - 1], g.fsp[9 - k]))
      && Fits32(NoiseIdeal(z, p, at, g, k - 1) + Term(z[at + k - 1], g.fsz[9 - k])) && Fits32(NoiseIdeal(z, p, at, g, k))
  }

  /** A multiply-accumulate whose product and sum fit is exact. */
  lemma MacExact(y: int32, x: int16, c: int16)
    requires Fits32(Term(x, c))
    ensures Fits32(y + Term(x, c)) ==> LMac(y, x, c) == y + Term(x, c)
    ensures Fits32(y - Term(x, c)) ==> LMsu(y, x, c) == y - Term(x, c)
  {
    hide Mul;
    MulIsProduct(x, c);
  }

  lemma {:induction false} ShortSumExact(st: seq<int16>, at: nat, aq: Lpc, k: nat)
    requires k <= 8 && at + 8 <= |st| && ShortFitsTo(st, at, aq, k)
    ensures ShortSum(st, at, aq, k) == ShortIdeal(st, at, aq, k)
  {
    hide LMsu, Term;
    if k == 0 {
    } else {
      ShortSumExact(st, at, aq, k - 1);
      MacExact(ShortSum(st, at, aq, k - 1), st[at + k - 1], aq[9 - k]);
    }
  }

  lemma {:induction false} NoiseSumExact(z: seq<int16>, p: seq<int16>, at: nat, g: Shaping, k: nat)
    requires k <= 8 && at + 8 <= |z| && at + 8 <= |p| && NoiseFitsTo(z, p, at, g, k)
    ensures NoiseSum(z, p, at, g, k) == NoiseIdeal(z, p, at, g, k)
  {
    hide LMac, LMsu, Term;
    if k == 0 {
    } else {
      NoiseSumExact(z, p, at, g, k - 1);
      var y := NoiseSum(z, p, at, g, k - 1);
      MacExact(y, z[at + k - 1], g.fsz[9 - k]);
      MacExact(LMac(y, z[at + k - 1], g.fsz[9 - k]), p[at + k - 1], g.fsp[9 - k]);
    }
  }

  lemma ShiftExact(x: int32)
    requires Fits32(8 * x)
    ensures LShl(x, 3) == 8 * x
  {
    Pow2Table();
    DoubledIsShift(x, 3);
  }

  /** What the newest n samples contribute, d being these samples: the last k of them. */
  function ShortDelta(d: seq<int>, aq: Lpc, n: nat, k: nat): int
    requires k <= n <= 3 && n <= |d|
  {
    if k == 0 then 0 else ShortDelta(d, aq, n, k - 1) - Term(d[k - 1], aq[n + 1 - k])
  }

  function NoiseDelta(dz: seq<int>, dp: seq<int>, g: Shaping, n: nat, k: nat): int
    requires k <= n <= 3 && n <= |dz| && n <= |dp|
  {
    if k == 0 then 0
    else NoiseDelta(dz, dp, g, n, k - 1) + Term(dz[k - 1], g.fsz[n + 1 - k]) - Term(dp[k - 1], g.fsp[n + 1 - k])
  }

  /** The samples from m on of a, less those of b. */
  function Diff(a: seq<int16>, b: seq<int16>, m: nat): (d: seq<int>)
    requires m <= |a| == |b|
    ensures |d| == |a| - m
  {
    seq(|a| - m, i requires 0 <= i < |a| - m => Int(a[m + i]) - b[m + i])
  }

  lemma TermOfDifference(x: int, y: int, c: int)
    ensures Term(x, c) - Term(y, c) == Term(x - y, c)
  {
  }

  /** Two memories that differ in their newest samples only: the filter outputs differ by what
      these contribute. */
  lemma {:induction false} ShortShift(a: seq<int16>, b: seq<int16>, m: nat, aq: Lpc, k: nat)
    requires 8 <= |a| == |b| && m <= |a| <= m + 3 && a[..m] == b[..m] && k <= 8
    ensures var n, at := |a| - m, |a| - 8;
            ShortIdeal(a, at, aq, k) - ShortIdeal(b, at, aq, k)
            == if k <= 8 - n then 0 else ShortDelta(Diff(a, b, m), aq, n, k - (8 - n))
  {
    hide Term;
    if k == 0 {
    } else {
      ShortShift(a, b, m, aq, k - 1);
      var n, i := |a| - m, |a| - 8 + k - 1;
      if k <= 8 - n {
        assert a[..m][i] == b[..m][i];
      } else {
        TermOfDifference(a[i], b[i], aq[9 - k]);
        assert Diff(a, b, m)[k - (8 - n) - 1] == Int(a[i]) - b[i];
      }
    }
  }

  lemma {:induction false} NoiseShift(z: seq<int16>, z': seq<int16>, p: seq<int16>, p': seq<int16>, m: nat, g: Shaping, k: nat)
    requires 8 <= |z| == |z'| == |p| == |p'| && m <= |z| <= m + 3 && z[..m] == z'[..m] && p[..m] == p'[..m] && k <= 8
    ensures var n, at := |z| - m, |z| - 8;
            NoiseIdeal(z, p, at, g, k) - NoiseIdeal(z', p', at, g, k)
            == if k <= 8 - n then 0 else NoiseDelta(Diff(z, z', m), Diff(p, p', m), g, n, k - (8 - n))
  {
    hide Term;
    if k == 0 {
    } else {
      NoiseShift(z, z', p, p', m, g, k - 1);
      var n, i := |z| - m, |z| - 8 + k - 1;
      if k <= 8 - n {
        assert z[..m][i] == z'[..m][i] && p[..m][i] == p'[..m][i];
      } else {
        TermOfDifference(z[i], z'[i], g.fsz[9 - k]);
        TermOfDifference(p[i], p'[i], g.fsp[9 - k]);
        assert Diff(z, z', m)[k - (8 - n) - 1] == Int(z[i]) - z'[i];
        assert Diff(p, p', m)[k - (8 - n) - 1] == Int(p[i]) - p'[i];
      }
    }
  }

  // ---------------------------------------------------------------- errors and their growth

  /** How far w times y is below q times x. */
  function Gap(q: int, w: int, x: int, y: int): int { q * x - w * y }

  /** The gaps between the samples of d and b. */
  function Err(q: int, w: int, d: seq<int>, b: seq<int16>): (e: seq<int>)
    requires |d| == |b|
    ensures |e| == |d|
  {
    seq(|d|, i requires 0 <= i < |d| => Gap(q, w, d[i], b[i]))
  }

  ghost predicate AllWithin(e: seq<int>, eps: int) {
    forall i :: 0 <= i < |e| ==> -eps <= e[i] <= eps
  }

  /** The magnitudes of the coefficients of the newest k samples. */
  function Taps(c: Lpc, n: nat, k: nat): nat
    requires k <= n <= 3
  {
    if k == 0 then 0 else Taps(c, n, k - 1) + Abs(c[n + 1 - k])
  }

  /** The first three coefficients add up to at most gain, in Q12. */
  ghost predicate Gentle(c: Lpc, gain: nat) {
    Abs(c[1]) + Abs(c[2]) + Abs(c[3]) <= 4096 * gain
  }

  lemma TapsBound(c: Lpc, n: nat, gain: nat)
    requires n <= 3 && Gentle(c, gain)
    ensures Taps(c, n, n) <= 4096 * gain
  {
    if n == 1 {
      assert Taps(c, 1, 1) == Taps(c, 1, 0) + Abs(c[1]);
    } else if n == 2 {
      assert Taps(c, 2, 2) == Taps(c, 2, 1) + Abs(c[1]) == Taps(c, 2, 0) + Abs(c[2]) + Abs(c[1]);
    } else if n == 3 {
      assert Taps(c, 3, 3) == Taps(c, 3, 2) + Abs(c[1]) == Taps(c, 3, 1) + Abs(c[2]) + Abs(c[1]);
      assert Taps(c, 3, 1) == Taps(c, 3, 0) + Abs(c[3]);
    }
  }

  lemma TermLinear(q: int, w: int, x: int, y: int, c: int)
    ensures Gap(q, w, Term(x, c), Term(y, c)) == Term(Gap(q, w, x, y), c)
  {
  }

  /** The most that taps can make of samples within eps. */
  function Reach(taps: nat, eps: int): int { 2 * (taps * eps) }

  lemma TermWithin(x: int, c: int, eps: int)
    requires -eps <= x <= eps
    ensures Abs(Term(x, c)) <= Reach(Abs(c), eps)
  {
    MulBound(x, c, eps, Abs(c));
  }

  lemma GapAdds(q: int, w: int, x: int, y: int, t: int, u: int)
    ensures Gap(q, w, x + t, y + u) == Gap(q, w, x, y) + Gap(q, w, t, u)
    ensures Gap(q, w, x - t, y - u) == Gap(q, w, x, y) - Gap(q, w, t, u)
    ensures Gap(q, w, 0, 0) == 0
  {
  }

  lemma ReachNothing(eps: int)
    ensures Reach(0, eps) == 0
  {
  }

  lemma ReachAdds(taps: nat, more: nat, eps: int)
    ensures Reach(taps + more, eps) == Reach(taps, eps) + Reach(more, eps)
  {
  }

  lemma {:induction false} ShortDeltaLinear(q: int, w: int, d: seq<int>, b: seq<int16>, aq: Lpc, n: nat, k: nat, eps: int)
    requires k <= n <= 3 && n == |d| == |b| && AllWithin(Err(q, w, d, b), eps)
    ensures Gap(q, w, ShortDelta(d, aq, n, k), ShortDelta(b, aq, n, k)) == ShortDelta(Err(q, w, d, b), aq, n, k)
    ensures Abs(ShortDelta(Err(q, w, d, b), aq, n, k)) <= Reach(Taps(aq, n, k), eps)
  {
    hide Term, Gap, Reach;
    GapAdds(q, w, 0, 0, 0, 0);
    if k == 0 {
      ReachNothing(eps);
    } else {
      ShortDeltaLinear(q, w, d, b, aq, n, k - 1, eps);
      var c, e := aq[n + 1 - k], Err(q, w, d, b)[k - 1];
      TermLinear(q, w, d[k - 1], b[k - 1], c);
      TermWithin(e, c, eps);
      GapAdds(q, w, ShortDelta(d, aq, n, k - 1), ShortDelta(b, aq, n, k - 1), Term(d[k - 1], c), Term(b[k - 1], c));
      ReachAdds(Taps(aq, n, k - 1), Abs(c), eps);
    }
  }

  lemma {:induction false} NoiseDeltaLinear(q: int, w: int, dz: seq<int>, dp: seq<int>, bz: seq<int16>, bp: seq<int16>,
                                            g: Shaping, n: nat, k: nat, eps: int)
    requires k <= n <= 3 && n == |dz| == |dp| == |bz| == |bp|
    requires AllWithin(Err(q, w, dz, bz), eps) && AllWithin(Err(q, w, dp, bp), eps)
    ensures Gap(q, w, NoiseDelta(dz, dp, g, n, k), NoiseDelta(bz, bp, g, n, k))
            == NoiseDelta(Err(q, w, dz, bz), Err(q, w, dp, bp), g, n, k)
    ensures Abs(NoiseDelta(Err(q, w, dz, bz), Err(q, w, dp, bp), g, n, k))
            <= Reach(Taps(g.fsz, n, k), eps) + Reach(Taps(g.fsp, n, k), eps)
  {
    hide Term, Gap, Reach;
    GapAdds(q, w, 0, 0, 0, 0);
    if k == 0 {
      ReachNothing(eps);
    } else {
      NoiseDeltaLinear(q, w, dz, dp, bz, bp, g, n, k - 1, eps);
      var c, h := g.fsz[n + 1 - k], g.fsp[n + 1 - k];
      var e, f := Err(q, w, dz, bz), Err(q, w, dp, bp);
      var x, y := NoiseDelta(dz, dp, g, n, k - 1), NoiseDelta(bz, bp, g, n, k - 1);
      TermLinear(q, w, dz[k - 1], bz[k - 1], c);
      TermLinear(q, w, dp[k - 1], bp[k - 1], h);
      GapAdds(q, w, x, y, Term(dz[k - 1], c), Term(bz[k - 1], c));
      GapAdds(q, w, x + Term(dz[k - 1], c), y + Term(bz[k - 1], c), Term(dp[k - 1], h), Term(bp[k - 1], h));
      TermWithin(e[k - 1], c, eps);
      TermWithin(f[k - 1], h, eps);
      ReachAdds(Taps(g.fsz, n, k - 1), Abs(c), eps);
      ReachAdds(Taps(g.fsp, n, k - 1), Abs(h), eps);
    }
  }

  lemma GainProduct(taps: nat, gain: nat, eps: int)
    requires taps <= 4096 * gain && 0 <= eps
    ensures 0 <= Reach(taps, eps) <= 8192 * (gain * eps)
  {
    MulMono(taps, 4096 * gain, eps);
    MulMono(0, taps, eps);
    assert 4096 * gain * eps == 4096 * (gain * eps);
  }

  /** The gaps between what the newest samples contribute. */
  function ShortGap(q: int, w: int, d: seq<int>, b: seq<int16>, aq: Lpc): int
    requires |d| == |b| <= 3
  {
    Gap(q, w, ShortDelta(d, aq, |b|, |b|), ShortDelta(b, aq, |b|, |b|))
  }

  function NoiseGap(q: int, w: int, dz: seq<int>, dp: seq<int>, bz: seq<int16>, bp: seq<int16>, g: Shaping): int
    requires |dz| == |dp| == |bz| == |bp| <= 3
  {
    Gap(q, w, NoiseDelta(dz, dp, g, |bz|, |bz|), NoiseDelta(bz, bp, g, |bz|, |bz|))
  }

  /** Against the gain of the filters, when no sample is off by more than eps. */
  lemma ShortGapBound(q: int, w: int, d: seq<int>, b: seq<int16>, aq: Lpc, gain: nat, eps: int)
    requires |d| == |b| <= 3 && 0 <= eps && Gentle(aq, gain) && AllWithin(Err(q, w, d, b), eps)
    ensures Abs(ShortGap(q, w, d, b, aq)) <= 8192 * (gain * eps)
  {
    hide ShortDelta, Err, AllWithin, Gentle, Taps, Gap, Reach;
    var n := |b|;
    ShortDeltaLinear(q, w, d, b, aq, n, n, eps);
    TapsBound(aq, n, gain);
    GainProduct(Taps(aq, n, n), gain, eps);
  }

  lemma NoiseGapBound(q: int, w: int, dz: seq<int>, dp: seq<int>, bz: seq<int16>, bp: seq<int16>, g: Shaping, gain: nat, eps: int)
    requires |dz| == |dp| == |bz| == |bp| <= 3 && 0 <= eps && Gentle(g.fsz, gain) && Gentle(g.fsp, gain)
    requires AllWithin(Err(q, w, dz, bz), eps) && AllWithin(Err(q, w, dp, bp), eps)
    ensures Abs(NoiseGap(q, w, dz, dp, bz, bp, g)) <= 16384 * (gain * eps)
  {
    hide NoiseDelta, Err, AllWithin, Gentle, Taps, Gap, Reach;
    var n := |bz|;
    NoiseDeltaLinear(q, w, dz, dp, bz, bp, g, n, n, eps);
    TapsBound(g.fsz, n, gain);
    TapsBound(g.fsp, n, gain);
    GainProduct(Taps(g.fsz, n, n), gain, eps);
    GainProduct(Taps(g.fsp, n, n), gain, eps);
  }

  // ---------------------------------------------------------------- steps without saturation

  /** A sum that neither saturates nor is rounded beyond the range. */
  ghost predicate Roundable(x: int) { -0x8000_0000 <= x <= 0x7fff_7fff }

  lemma RoundNear(x: int32)
    requires Roundable(x)
    ensures Abs(0x1_0000 * Int(Round(x)) - x) <= 0x8000
  {
  }

  function Prediction(x: Short, g: Shaping): int
    requires ShortFits(x)
  {
    8 * ShortIdeal(x.st, |x.st| - 8, g.f.aq, 8)
  }

  function NoiseFed(x: Short, g: Shaping): int
    requires ShortFits(x)
  {
    8 * NoiseIdeal(x.z, x.p, |x.z| - 8, g, 8)
  }

  /** For a sample with the excitation vq no sum of the filters saturates. */
  ghost predicate StepExact(x: Short, s: int16, vq: int32, g: Shaping)
    requires ShortFits(x)
  {
    var a, f := Prediction(x, g), NoiseFed(x, g);
    && ShortFitsTo(x.st, |x.st| - 8, g.f.aq, 8) && Fits32(a) && NoiseFitsTo(x.z, x.p, |x.z| - 8, g, 8) && Fits32(f)
    && Fits32(0x1_0000 * Int(s) - a) && Fits32(0x1_0000 * Int(s) - a - f)
    && Roundable(a + vq) && Roundable(0x1_0000 * Int(s) - a - f - vq) && Roundable(f)
  }

  lemma StepIsExact(x: Short, s: int16, vq: int32, g: Shaping)
    requires ShortFits(x) && StepExact(x, s, vq, g)
    ensures var a, f := Prediction(x, g), NoiseFed(x, g);
            && ShortPrediction(x.st, |x.st| - 8, g.f.aq) == a && Feedback(x.z, x.p, |x.z| - 8, g) == f
            && TargetOf(x, s, g) == 0x1_0000 * Int(s) - a - f
  {
    hide ShortSum, NoiseSum, ShortIdeal, NoiseIdeal, ShortFitsTo, NoiseFitsTo, LShl;
    ShortSumExact(x.st, |x.st| - 8, g.f.aq, 8);
    NoiseSumExact(x.z, x.p, |x.z| - 8, g, 8);
    ShiftExact(ShortIdeal(x.st, |x.st| - 8, g.f.aq, 8));
    ShiftExact(NoiseIdeal(x.z, x.p, |x.z| - 8, g, 8));
  }

  lemma StepNear(x: Short, s: int16, vq: int32, g: Shaping)
    requires ShortFits(x) && StepExact(x, s, vq, g)
    ensures var y, a, f := ShortStep(x, s, vq, g), Prediction(x, g), NoiseFed(x, g);
            && y.st[..|x.st|] == x.st && y.z[..|x.st|] == x.z && y.p[..|x.st|] == x.p
            && Abs(0x1_0000 * Int(y.st[|x.st|]) - (a + vq)) <= 0x8000
            && Abs(0x1_0000 * Int(y.z[|x.st|]) - (0x1_0000 * Int(s) - a - f - vq)) <= 0x8000
            && Abs(0x1_0000 * Int(y.p[|x.st|]) - f) <= 0x8000
  {
    hide Round, TargetOf, ShortPrediction, Feedback, Prediction, NoiseFed;
    var a, f := Prediction(x, g), NoiseFed(x, g);
    StepIsExact(x, s, vq, g);
    RoundNear(a + vq);
    RoundNear(0x1_0000 * Int(s) - a - f - vq);
    RoundNear(f);
  }

  ghost predicate ShortRun(x: Zero) { |x.b1| == |x.b2| == |x.b3| == |x.out| <= 3 }

  function ZeroPrediction(x: Zero, g: Shaping): int
    requires ShortRun(x)
  {
    8 * ShortDelta(x.b1, g.f.aq, |x.b1|, |x.b1|)
  }

  function ZeroFed(x: Zero, g: Shaping): int
    requires ShortRun(x)
  {
    8 * NoiseDelta(x.b2, x.b3, g, |x.b1|, |x.b1|)
  }

  /** The response sample that follows for the codevector sample c. */
  function ZeroOut(x: Zero, c: int16, g: Shaping): int16
    requires ShortRun(x)
  {
    ZeroStep(x, c, g).out[|x.b1|]
  }

  /** The first k terms of the zero-state filters, and their sums, fit 32 bits. */
  ghost predicate ZeroFitsTo(x: Zero, g: Shaping, k: nat)
    requires ShortRun(x) && k <= |x.b1|
  {
    k > 0 ==>
      var n := |x.b1|;
      && ZeroFitsTo(x, g, k - 1)
      && Fits32(Term(x.b1[k - 1], g.f.aq[n + 1 - k])) && Fits32(ShortDelta(x.b1, g.f.aq, n, k))
      && Fits32(Term(x.b2[k - 1], g.fsz[n + 1 - k])) && Fits32(Term(x.b3[k - 1], g.fsp[n + 1 - k]))
      && Fits32(NoiseDelta(x.b2, x.b3, g, n, k - 1) + Term(x.b2[k - 1], g.fsz[n + 1 - k]))
      && Fits32(NoiseDelta(x.b2, x.b3, g, n, k))
  }

  lemma {:induction false} ZeroSumsExact(x: Zero, g: Shaping, k: nat)
    requires ShortRun(x) && k <= |x.b1| && ZeroFitsTo(x, g, k)
    ensures ZeroShort(x.b1, g, |x.b1|, k) == ShortDelta(x.b1, g.f.aq, |x.b1|, k)
    ensures ZeroNoise(x.b2, x.b3, g, |x.b1|, k) == NoiseDelta(x.b2, x.b3, g, |x.b1|, k)
  {
    hide LMac, LMsu, Term;
    if k == 0 {
    } else {
      ZeroSumsExact(x, g, k - 1);
      var n := |x.b1|;
      MacExact(ZeroShort(x.b1, g, n, k - 1), x.b1[k - 1], g.f.aq[n + 1 - k]);
      var y := ZeroNoise(x.b2, x.b3, g, n, k - 1);
      MacExact(y, x.b2[k - 1], g.fsz[n + 1 - k]);
      MacExact(LMac(y, x.b2[k - 1], g.fsz[n + 1 - k]), x.b3[k - 1], g.fsp[n + 1 - k]);
    }
  }

  /** For a sample of the zero-state response, from the codevector sample c, no sum saturates. */
  ghost predicate ZeroExact(x: Zero, c: int16, g: Shaping)
    requires ShortRun(x)
  {
    var n, a, f := |x.b1|, ZeroPrediction(x, g), ZeroFed(x, g);
    && ZeroFitsTo(x, g, n) && Fits32(a) && Fits32(f)
    && Roundable(a + 0x1_0000 * Int(c)) && Roundable(f)
    && -0x7fff_8000 <= a + f + 0x1_0000 * Int(c) <= 0x7fff_7fff
  }

  lemma ZeroIsExact(x: Zero, c: int16, g: Shaping)
    requires ShortRun(x) && ZeroExact(x, c, g)
    ensures var n := |x.b1|;
            LShl(ZeroShort(x.b1, g, n, n), 3) == ZeroPrediction(x, g) && LShl(ZeroNoise(x.b2, x.b3, g, n, n), 3) == ZeroFed(x, g)
  {
    hide ZeroShort, ZeroNoise, ShortDelta, NoiseDelta, ZeroFitsTo, LShl;
    var n := |x.b1|;
    ZeroSumsExact(x, g, n);
    ShiftExact(ShortDelta(x.b1, g.f.aq, n, n));
    ShiftExact(NoiseDelta(x.b2, x.b3, g, n, n));
  }

  lemma HalfNear(x: int32)
    requires Roundable(x)
    ensures Abs(0x2_0000 * Int(Round(LShr(x, 1))) - x) <= 0x1_0001
  {
    assert LShr(x, 1) == x / 2;
    RoundNear(x / 2);
  }

  lemma NegatedNear(x: int32)
    requires -0x7fff_8000 <= x <= 0x7fff_7fff
    ensures Abs(0x1_0000 * Int(Negate(Round(x))) + x) <= 0x8000
  {
    RoundNear(x);
  }

  lemma ZeroNear(x: Zero, c: int16, g: Shaping)
    requires ShortRun(x) && ZeroExact(x, c, g)
    ensures var n, y, a, f := |x.b1|, ZeroStep(x, c, g), ZeroPrediction(x, g), ZeroFed(x, g);
            && y.b1[..n] == x.b1 && y.b2[..n] == x.b2 && y.b3[..n] == x.b3 && y.out[..n] == x.out
            && |y.b1| == |y.b2| == |y.b3| == |y.out| == n + 1
            && Abs(0x1_0000 * Int(y.b1[n]) - (a + 0x1_0000 * Int(c))) <= 0x8000
            && Abs(0x1_0000 * Int(y.b2[n]) + (a + f + 0x1_0000 * Int(c))) <= 0x8000
            && Abs(0x1_0000 * Int(y.b3[n]) - f) <= 0x8000
            && Abs(0x2_0000 * Int(y.out[n]) - (a + f + 0x1_0000 * Int(c))) <= 0x1_0001
  {
    hide Round, LShr, Negate, ZeroPrediction, ZeroFed, ZeroShort, ZeroNoise, LShl;
    var a, f := ZeroPrediction(x, g), ZeroFed(x, g);
    ZeroIsExact(x, c, g);
    RoundNear(a + 0x1_0000 * Int(c));
    RoundNear(f);
    NegatedNear(a + f + 0x1_0000 * Int(c));
    HalfNear(a + f + 0x1_0000 * Int(c));
  }

  // ---------------------------------------------------------------- superposition

  lemma GapBound(q: nat, w: int, x: int, y: int, xs: nat, ys: nat)
    requires Abs(x) <= xs && Abs(y) <= ys && w in {4, -4}
    ensures Abs(Gap(q, w, x, y)) <= q * xs + 4 * ys
  {
    MulBound(q, x, q, xs);
  }

  /** Rounding all three: values x1 and x2 near v1 and v2, and b near a. */
  lemma RoundedGap(q: nat, w: int, v1: int, v2: int, x1: int, x2: int, a: int, b: int, m: int)
    requires w in {4, -4} && Abs(0x1_0000 * x1 - v1) <= 0x8000 && Abs(0x1_0000 * x2 - v2) <= 0x8000
    requires Abs(0x1_0000 * b - a) <= 0x8000 && Abs(Gap(q, w, v1 - v2, a)) <= m
    ensures 0x1_0000 * Abs(Gap(q, w, x1 - x2, b)) <= m + 0x1_0000 * q + 0x2_0000
  {
    hide Gap;
    var r, t := 0x1_0000 * (x1 - x2) - (v1 - v2), 0x1_0000 * b - a;
    GapBound(q, w, r, t, 0x1_0000, 0x8000);
    GapScaled(q, w, x1 - x2, b, 0x1_0000);
    GapAdds(q, w, v1 - v2, a, r, t);
  }

  lemma GapScaled(q: int, w: int, x: int, y: int, k: int)
    ensures Gap(q, w, k * x, k * y) == k * Gap(q, w, x, y)
  {
    assert q * (k * x) == k * (q * x) && w * (k * y) == k * (w * y);
    assert k * (q * x - w * y) == k * (q * x) - k * (w * y);
  }

  /** The memories act and zir agree up to position m, and beyond it differ by what the
      zero-state response holds, scaled by w / q, up to eps / q. */
  ghost predicate Superposed(act: Short, zir: Short, zero: Zero, m: nat, q: int, w: int, eps: int) {
    && |zero.b1| == |zero.b2| == |zero.b3| == |zero.out| <= 4 && m >= 8
    && |act.st| == |zir.st| == |act.z| == |zir.z| == |act.p| == |zir.p| == m + |zero.b1|
    && act.st[..m] == zir.st[..m] && act.z[..m] == zir.z[..m] && act.p[..m] == zir.p[..m]
    && AllWithin(Err(q, w, Diff(act.st, zir.st, m), zero.b1), eps)
    && AllWithin(Err(q, w, Diff(act.z, zir.z, m), zero.b2), eps)
    && AllWithin(Err(q, w, Diff(act.p, zir.p, m), zero.b3), eps)
  }

  /** Appending one more sample to a pair of memories and to the response. */
  lemma Appended(a: seq<int16>, c: seq<int16>, bs: seq<int16>, a': seq<int16>, c': seq<int16>, bs': seq<int16>, m: nat,
                 q: int, w: int, eps: int, more: int)
    requires m + |bs| == |a| == |c| && AllWithin(Err(q, w, Diff(a, c, m), bs), eps) && eps <= more
    requires |a'| == |c'| == |a| + 1 && |bs'| == |bs| + 1 && a'[..|a|] == a && c'[..|a|] == c && bs'[..|bs|] == bs
    requires Abs(Gap(q, w, Int(a'[|a|]) - c'[|a|], bs'[|bs|])) <= more
    ensures AllWithin(Err(q, w, Diff(a', c', m), bs'), more)
    ensures a[..m] == c[..m] ==> a'[..m] == c'[..m]
  {
    hide Gap;
    var e := Err(q, w, Diff(a', c', m), bs');
    forall i | 0 <= i < |e| ensures -more <= e[i] <= more {
      if i < |bs| {
        assert a'[m + i] == a'[..|a|][m + i] && c'[m + i] == c'[..|a|][m + i] && bs'[i] == bs'[..|bs|][i];
        assert e[i] == Err(q, w, Diff(a, c, m), bs)[i];
      }
    }
    if a[..m] == c[..m] {
      assert a'[..m] == a'[..|a|][..m] && c'[..m] == c'[..|a|][..m];
    }
  }

  /** The filter outputs of both runs differ by what the newest samples contribute. */
  lemma OutputsDiffer(act: Short, zir: Short, zero: Zero, m: nat, q: int, w: int, eps: int, g: Shaping)
    requires Superposed(act, zir, zero, m, q, w, eps) && |zero.b1| <= 3
    ensures var n := |zero.b1|;
            && ShortFits(act) && ShortFits(zir)
            && Prediction(act, g) - Prediction(zir, g) == 8 * ShortDelta(Diff(act.st, zir.st, m), g.f.aq, n, n)
            && NoiseFed(act, g) - NoiseFed(zir, g)
               == 8 * NoiseDelta(Diff(act.z, zir.z, m), Diff(act.p, zir.p, m), g, n, n)
  {
    hide Err, AllWithin, ShortIdeal, NoiseIdeal;
    ShortShift(act.st, zir.st, m, g.f.aq, 8);
    NoiseShift(act.z, zir.z, act.p, zir.p, m, g, 8);
    if |zero.b1| == 0 { NothingNew(Diff(act.st, zir.st, m), Diff(act.z, zir.z, m), Diff(act.p, zir.p, m), g); }
  }

  lemma NothingNew(d: seq<int>, dz: seq<int>, dp: seq<int>, g: Shaping)
    ensures ShortDelta(d, g.f.aq, 0, 0) == 0 && NoiseDelta(dz, dp, g, 0, 0) == 0
  {
  }

  /** The error after one more sample, from the error before it. */
  function Grown(q: int, gain: nat, eps: int): int { 3 * (gain * eps) + 2 * q + 2 }

  lemma ShortOutputs(q: int, w: int, d: seq<int>, b: seq<int16>, aq: Lpc)
    requires |d| == |b| <= 3
    ensures Gap(q, w, 8 * ShortDelta(d, aq, |b|, |b|), 8 * ShortDelta(b, aq, |b|, |b|)) == 8 * ShortGap(q, w, d, b, aq)
  {
    hide Gap, ShortDelta;
    GapScaled(q, w, ShortDelta(d, aq, |b|, |b|), ShortDelta(b, aq, |b|, |b|), 8);
  }

  lemma NoiseOutputs(q: int, w: int, dz: seq<int>, dp: seq<int>, bz: seq<int16>, bp: seq<int16>, g: Shaping)
    requires |dz| == |dp| == |bz| == |bp| <= 3
    ensures var n := |bz|;
            Gap(q, w, 8 * NoiseDelta(dz, dp, g, n, n), 8 * NoiseDelta(bz, bp, g, n, n))
            == 8 * NoiseGap(q, w, dz, dp, bz, bp, g)
  {
    hide Gap, NoiseDelta;
    GapScaled(q, w, NoiseDelta(dz, dp, g, |bz|, |bz|), NoiseDelta(bz, bp, g, |bz|, |bz|), 8);
  }

  /** What the two filters put out differs from the zero-state outputs a and f, with the
      excitation u2 against u1, by at most the gaps. */
  lemma SumGap(q: int, w: int, a: int, f: int, u1: int, a2: int, f2: int, u2: int)
    ensures Gap(q, w, a + u1, a2 + u2) == Gap(q, w, a, a2) + Gap(q, w, u1, u2)
    ensures Gap(q, w, -a - f - u1, -(a2 + f2 + u2)) == -Gap(q, w, a, a2) - Gap(q, w, f, f2) - Gap(q, w, u1, u2)
  {
  }

  ghost predicate FiltersGentle(g: Shaping, gain: nat) {
    Gentle(g.f.aq, gain) && Gentle(g.fsz, gain) && Gentle(g.fsp, gain)
  }

  /** The gaps of the outputs of a superposed pair of runs. */
  lemma OutputGaps(act: Short, zir: Short, zero: Zero, m: nat, q: int, w: int, eps: int, g: Shaping, gain: nat)
    requires Superposed(act, zir, zero, m, q, w, eps) && ShortRun(zero) && 0 <= eps && FiltersGentle(g, gain)
    ensures ShortFits(act) && ShortFits(zir)
    ensures Abs(Gap(q, w, Prediction(act, g) - Prediction(zir, g), ZeroPrediction(zero, g))) <= 0x1_0000 * (gain * eps)
    ensures Abs(Gap(q, w, NoiseFed(act, g) - NoiseFed(zir, g), ZeroFed(zero, g))) <= 0x2_0000 * (gain * eps)
  {
    hide Err, AllWithin, Prediction, NoiseFed, ShortDelta, NoiseDelta, Gap, Gentle, ShortGap, NoiseGap;
    OutputsDiffer(act, zir, zero, m, q, w, eps, g);
    var ds, dz, dp := Diff(act.st, zir.st, m), Diff(act.z, zir.z, m), Diff(act.p, zir.p, m);
    ShortOutputs(q, w, ds, zero.b1, g.f.aq);
    NoiseOutputs(q, w, dz, dp, zero.b2, zero.b3, g);
    ShortGapBound(q, w, ds, zero.b1, g.f.aq, gain, eps);
    NoiseGapBound(q, w, dz, dp, zero.b2, zero.b3, g, gain, eps);
  }

  /** The three samples computed next, before and after rounding: memory 1, memory 2 and the
      response, whose exact sums gap by at most three times ge, and q. */
  lemma NewSample(q: nat, w: int, v1: int, v2: int, x1: int, x2: int, a: int, b: int, ge: int, more: int)
    requires q > 0 && w in {4, -4} && Abs(0x1_0000 * x1 - v1) <= 0x8000 && Abs(0x1_0000 * x2 - v2) <= 0x8000
    requires Abs(0x1_0000 * b - a) <= 0x8000 && 0 <= ge && Abs(Gap(q, w, v1 - v2, a)) <= 0x3_0000 * ge + q
    requires more == 3 * ge + 2 * q + 2
    ensures Abs(Gap(q, w, x1 - x2, b)) <= more
  {
    hide Gap;
    RoundedGap(q, w, v1, v2, x1, x2, a, b, 0x3_0000 * ge + q);
  }

  /** One more sample of both runs and of the response keeps them superposed. */
  lemma SuperposedNext(act: Short, zir: Short, zero: Zero, m: nat, q: nat, w: int, eps: int, more: int, g: Shaping, gain: nat,
                       s: int16, ppv: int32, uq: int32, vq: int32, c: int16)
    requires Superposed(act, zir, zero, m, q, w, eps) && ShortRun(zero) && 0 <= eps && FiltersGentle(g, gain)
    requires ShortFits(act) && ShortFits(zir) && vq == ppv + uq
    requires StepExact(act, s, vq, g) && StepExact(zir, s, ppv, g) && ZeroExact(zero, c, g)
    requires q > 0 && w in {4, -4} && Abs(Gap(q, w, uq, 0x1_0000 * Int(c))) <= q
    requires eps <= more == Grown(q, gain, eps)
    ensures Superposed(ShortStep(act, s, vq, g), ShortStep(zir, s, ppv, g), ZeroStep(zero, c, g), m, q, w, more)
  {
    hide StepExact, ZeroExact, FiltersGentle, Prediction, NoiseFed, ZeroPrediction, ZeroFed, Gap, Err, AllWithin, ShortStep, ZeroStep;
    var n, k, ge := |zero.b1|, m + |zero.b1|, gain * eps;
    var y1, y2, y := ShortStep(act, s, vq, g), ShortStep(zir, s, ppv, g), ZeroStep(zero, c, g);
    var a1, f1, a2, f2 := Prediction(act, g), NoiseFed(act, g), Prediction(zir, g), NoiseFed(zir, g);
    var a, f, h := ZeroPrediction(zero, g), ZeroFed(zero, g), 0x1_0000 * Int(c);
    assert ge >= 0;
    StepNear(act, s, vq, g);
    StepNear(zir, s, ppv, g);
    ZeroNear(zero, c, g);
    OutputGaps(act, zir, zero, m, q, w, eps, g, gain);
    SumGap(q, w, a1 - a2, f1 - f2, uq, a, f, h);
    NewSample(q, w, a1 + vq, a2 + ppv, y1.st[k], y2.st[k], a + h, y.b1[n], ge, more);
    NewSample(q, w, 0x1_0000 * Int(s) - a1 - f1 - vq, 0x1_0000 * Int(s) - a2 - f2 - ppv, y1.z[k], y2.z[k],
              -(a + f + h), y.b2[n], ge, more);
    NewSample(q, w, f1, f2, y1.p[k], y2.p[k], f, y.b3[n], ge, more);
    Appended(act.st, zir.st, zero.b1, y1.st, y2.st, y.b1, m, q, w, eps, more);
    Appended(act.z, zir.z, zero.b2, y1.z, y2.z, y.b2, m, q, w, eps, more);
    Appended(act.p, zir.p, zero.b3, y1.p, y2.p, y.b3, m, q, w, eps, more);
  }

  // ---------------------------------------------------------------- the measured error is the noise

  /** The shift of the zero-input response: x in units of 32 / q, rounded down. */
  lemma ShiftNear(x: int32, exp: int16, q: nat)
    requires -2 <= exp <= 29 && q == Pow2(exp + 2) && -0x10_0000_0000 <= q * x <= 0xf_ffff_ffe0
    ensures -32 < 32 * Int32(LShl(x, SatSub16(exp, 3))) - q * x <= 0
  {
    if exp > 3 { ShiftUpNear(x, exp - 3, q); } else { ShiftDownNear(x, 3 - exp, q); }
  }

  lemma ShiftUpNear(x: int32, n: nat, q: nat)
    requires 0 < n <= 26 && q == Pow2(n + 5) && -0x10_0000_0000 <= q * x <= 0xf_ffff_ffe0
    ensures 32 * Int32(LShl(x, n)) == q * x
  {
    hide Pow2, Doubled;
    DoubledIsShift(x, n);
    Pow2Add(5, n);
    Pow2Table();
    assert q * x == 32 * (x * Pow2(n));
  }

  lemma ShiftDownNear(x: int32, n: int, q: nat)
    requires 0 <= n <= 5 && q == Pow2(5 - n)
    ensures -32 < 32 * Int32(LShl(x, -n)) - q * x <= 0
  {
    hide Pow2, Doubled, Asr;
    Pow2Table();
    AsrIsQuotient(x, n);
    Pow2Add(5 - n, n);
    QuotientScaled(x, Pow2(n), q);
  }

  function Int32(x: int32): int { x }

  lemma QuotientScaled(x: int, d: nat, q: nat)
    requires d > 0 && q > 0 && q * d == 32
    ensures -32 < 32 * (x / d) - q * x <= 0
  {
    var y, r := x / d, x % d;
    assert x == d * y + r;
    assert q * (d * y) == (q * d) * y;
    assert q * x == 32 * y + q * r;
    MulMono(r + 1, d, q);
    MulMono(0, r, q);
  }

  /** The denormalised excitation: u in units of 4 / q, rounded down. */
  lemma DenormalisedNear(u: int16, exp: int16, q: nat)
    requires -2 <= exp <= 29 && q == Pow2(exp + 2)
    requires exp < 0 ==> -0x8000_0000 <= DepositH(u) * Pow2(-exp) <= 0x7fff_ffff
    ensures 0 <= 0x4_0000 * Int(u) - q * Denormalised(u, exp) < q
  {
    hide Pow2;
    Pow2Table();
    var x := DepositH(u);
    if exp < 0 {
      DoubledIsShift(x, -exp);
      Pow2Add(exp + 2, -exp);
      assert q * (x * Pow2(-exp)) == x * (q * Pow2(-exp));
    } else {
      AsrIsQuotient(x, exp);
      Pow2Add(2, exp);
      var p, y, r := Pow2(exp), x / Pow2(exp), x % Pow2(exp);
      assert x == p * y + r;
      assert q * y == 4 * (p * y);
    }
  }

  lemma ErrorSum(w: int, y: int, r: int, o: int, a: int, e: int)
    requires Abs(0x1_0000 * r - y) <= 0x8000 && Abs(0x2_0000 * o - a) <= 0x1_0001
    requires (w == 4 && e == 4 * r - o) || (w == -4 && e == 4 * r + o)
    ensures Abs(0x8_0000 * e - (32 * y - w * a)) <= 0x14_0004
  {
    if w == 4 {
      assert w * a == 4 * a;
    } else {
      assert w * a == -4 * a;
    }
  }

  lemma NoiseSumNear(q: nat, x: int, d: int, t: int)
    requires Abs(0x1_0000 * t - (x - d)) <= 0x8000
    ensures Abs(0x1_0000 * (q * t) - (q * x - q * d)) <= 0x8000 * q
  {
    var h := 0x1_0000 * t - (x - d);
    MulBound(q, h, q, 0x8000);
    assert q * h == q * (0x1_0000 * t) - q * (x - d);
    assert q * (x - d) == q * x - q * d;
    assert q * (0x1_0000 * t) == 0x1_0000 * (q * t);
  }

  /** The measured error e, from the zero-input response r and the zero-state response o, and
      the noise t, before rounding x less the outputs d of the chosen vector. */
  lemma ErrorNear(q: nat, w: int, x: int, y: int, r: int, o: int, d: int, a: int, t: int, e: int, ge: int)
    requires q > 0 && ge >= 0 && -32 < 32 * y - q * x <= 0 && Abs(0x1_0000 * r - y) <= 0x8000
    requires Abs(0x2_0000 * o - a) <= 0x1_0001 && Abs(0x1_0000 * t - (x - d)) <= 0x8000
    requires Abs(Gap(q, w, d, a)) <= 0x3_0000 * ge + q
    requires (w == 4 && e == 4 * r - o) || (w == -4 && e == 4 * r + o)
    ensures Abs(8 * e - q * t) <= 3 * ge + q + 20
  {
    ErrorSum(w, y, r, o, a, e);
    NoiseSumNear(q, x, d, t);
    Balance(q, q * x, q * d, q * t, w * a, y, e, ge);
  }

  lemma Balance(q: nat, qx: int, qd: int, qt: int, wa: int, y: int, e: int, ge: int)
    requires q > 0 && ge >= 0 && -32 < 32 * y - qx <= 0
    requires Abs(0x8_0000 * e - (32 * y - wa)) <= 0x14_0004
    requires Abs(0x1_0000 * qt - (qx - qd)) <= 0x8000 * q
    requires Abs(qd - wa) <= 0x3_0000 * ge + q
    ensures Abs(8 * e - qt) <= 3 * ge + q + 20
  {
  }

  // ---------------------------------------------------------------- candidates of a search

  /** The zero-input response the search runs on. */
  function Response(e: Enc, s: Vec4, g: Shaping): Vec4
    requires EncFits(e) && FilterFits(g.f)
  {
    ZirRun(e.sh, s, Ppv(e, g), Ltfv(e, g), g, 4).1
  }

  /** The memories after n samples of the candidate c. */
  function Tried(e: Enc, s: Vec4, cb: Codebook, g: Shaping, c: nat, n: nat): (y: Enc)
    requires EncFits(e) && FilterFits(g.f) && c < 32 && n <= 4
    ensures EncFits(y) && |y.ltn| == |e.ltn| + n && |y.sh.st| == |e.sh.st| + n
  {
    EncSteps(e, s, Vector(cb, IndexOf(c)), Ppv(e, g), Ltfv(e, g), g, n)
  }

  /** The noise a candidate leaves in the long-term noise feedback memory. */
  function Noise(e: Enc, s: Vec4, cb: Codebook, g: Shaping, c: nat): Vec4
    requires EncFits(e) && FilterFits(g.f) && c < 32
  {
    hide *;
    var y := Tried(e, s, cb, g, c, 4);
    y.ltn[|e.ltn|..]
  }

  function Untouched(e: Enc, s: Vec4, g: Shaping, n: nat): (y: Short)
    requires EncFits(e) && FilterFits(g.f) && n <= 4
    ensures ShortFits(y) && |y.st| == |e.sh.st| + n
  {
    ZirRun(e.sh, s, Ppv(e, g), Ltfv(e, g), g, n).0
  }

  lemma {:induction false} ResponseAt(x: Short, s: Vec4, ppv: Longs4, ltfv: Longs4, g: Shaping, n: nat, k: nat)
    requires ShortFits(x) && n < k <= 4
    ensures ZirRun(x, s, ppv, ltfv, g, k).1[n] == ZirSample(ZirRun(x, s, ppv, ltfv, g, n).0, s[n], ltfv[n], g)
  {
    hide ShortStep, ZirSample;
    if k == n + 1 {
    } else {
      ResponseAt(x, s, ppv, ltfv, g, n, k - 1);
    }
  }

  lemma {:induction false} ZeroAt(cb: Codebook, j: nat, g: Shaping, n: nat, k: nat)
    requires j < 16 && n < k <= 4
    ensures ZeroRun(cb, j, g, k).out[n] == ZeroStep(ZeroRun(cb, j, g, n), cb[4 * j + n], g).out[n]
  {
    hide ZeroShort, ZeroNoise, Round, LShr, LShl, LAdd, Negate;
    if k == n + 1 {
    } else {
      ZeroAt(cb, j, g, n, k - 1);
    }
  }

  lemma {:induction false} NoiseAt(e: Enc, s: Vec4, uq: Vec4, ppv: Longs4, ltfv: Longs4, g: Shaping, n: nat, k: nat)
    requires EncFits(e) && n < k <= 4
    ensures var y := EncSteps(e, s, uq, ppv, ltfv, g, n);
            EncSteps(e, s, uq, ppv, ltfv, g, k).ltn[|e.ltn| + n]
            == Round(LSub(LSub(TargetOf(y.sh, s[n], g), ltfv[n]), Denormalised(uq[n], g.f.exp)))
  {
    hide ShortStep, Round, LAdd, LSub, TargetOf, Denormalised;
    if k == n + 1 {
    } else {
      NoiseAt(e, s, uq, ppv, ltfv, g, n, k - 1);
    }
  }

  /** The factor between the two scales: a noise of 8 in one is a measured error of it in the
      other. */
  function Unit(g: Shaping): (q: nat)
    ensures q > 0
  {
    if g.f.exp < -2 then 1 else Pow2(g.f.exp + 2)
  }

  /** The sums of the search and of the noise are exact for a sample: the memories zir and
      act, the zero-state response o. */
  ghost predicate SearchExact(zir: Short, act: Short, s: int16, ltfv: int32, uq: int32, o: int16, c: nat, g: Shaping)
    requires ShortFits(zir) && ShortFits(act) && -2 <= g.f.exp <= 29
  {
    var x, y := TargetOf(zir, s, g) - ltfv, TargetOf(act, s, g) - ltfv;
    var r := Int(ZirSample(zir, s, ltfv, g));
    && -0x8000_0000 <= x <= 0x7fff_ffff && -0x10_0000_0000 <= Unit(g) * x <= 0xf_ffff_ffe0
    && Roundable(LShl(x, SatSub16(g.f.exp, 3)))
    && -0x8000_0000 <= y <= 0x7fff_ffff && Roundable(y - uq)
    && Fits16(4 * r) && Fits16(if c % 2 == 0 then 4 * r - o else 4 * r + o)
  }

  /** Sample n of candidate c saturates nowhere: not in the search, and not when the memories
      are updated with it. */
  ghost predicate SampleExact(e: Enc, s: Vec4, cb: Codebook, g: Shaping, c: nat, n: nat)
    requires EncFits(e) && FilterFits(g.f) && c < 32 && n < 4
  {
    hide FilterFits, Tried, Untouched, ZeroRun, ZeroStep, Vector, PpvAt, LtfvAt, Denormalised, StepExact, ZeroExact, SearchExact, Pow2;
    var act, zir, zero := Tried(e, s, cb, g, c, n).sh, Untouched(e, s, g, n), ZeroRun(cb, c / 2, g, n);
    var x, u := cb[4 * (c / 2) + n], Vector(cb, IndexOf(c))[n];
    var ppv, uq := PpvAt(e, n, g), Denormalised(u, g.f.exp);
    && x != MIN16 && -2 <= g.f.exp <= 29
    && (g.f.exp < 0 ==> -0x8000_0000 <= DepositH(u) * Pow2(-g.f.exp) <= 0x7fff_ffff)
    && -0x8000_0000 <= ppv + uq <= 0x7fff_ffff
    && StepExact(act, s[n], ppv + uq, g) && StepExact(zir, s[n], ppv, g) && ZeroExact(zero, x, g)
    && SearchExact(zir, act, s[n], LtfvAt(e, n, g), uq, ZeroOut(zero, x, g), c, g)
  }

  /** The bound on the errors of n samples. */
  function Eps(q: int, gain: nat, n: nat): (eps: int)
    requires q >= 0
    ensures eps >= 0
  {
    if n == 0 then 0 else GrownNat(q, gain, Eps(q, gain, n - 1))
  }

  function GrownNat(q: int, gain: nat, eps: int): (more: int)
    requires q >= 0 && eps >= 0
    ensures more == Grown(q, gain, eps) >= 0
  {
    assert gain * eps >= 0;
    Grown(q, gain, eps)
  }

  lemma {:induction false} EpsRises(q: int, gain: nat, n: nat)
    requires q >= 0
    ensures Eps(q, gain, n) <= Eps(q, gain, n + 1)
  {
    if n == 0 {
    } else {
      EpsRises(q, gain, n - 1);
      MulMono(Eps(q, gain, n - 1), Eps(q, gain, n), gain);
    }
  }

  /** The sign of a candidate, as the factor of the zero-state response. */
  function Sign(c: nat): int { if c % 2 == 0 then 4 else -4 }

  lemma VectorSign(cb: Codebook, c: nat, n: nat)
    requires c < 32 && n < 4 && cb[4 * (c / 2) + n] != MIN16
    ensures 4 * Int(Vector(cb, IndexOf(c))[n]) == Sign(c) * Int(cb[4 * (c / 2) + n])
  {
    FitsExact(-Int(cb[4 * (c / 2) + n]));
  }

  lemma ExcitationGap(cb: Codebook, c: nat, n: nat, g: Shaping)
    requires c < 32 && n < 4 && cb[4 * (c / 2) + n] != MIN16 && -2 <= g.f.exp <= 29
    requires g.f.exp < 0 ==> -0x8000_0000 <= DepositH(Vector(cb, IndexOf(c))[n]) * Pow2(-g.f.exp) <= 0x7fff_ffff
    ensures Abs(Gap(Unit(g), Sign(c), Denormalised(Vector(cb, IndexOf(c))[n], g.f.exp), 0x1_0000 * Int(cb[4 * (c / 2) + n])))
            <= Unit(g)
  {
    hide Denormalised, Vector, Pow2;
    VectorSign(cb, c, n);
    DenormalisedNear(Vector(cb, IndexOf(c))[n], g.f.exp, Unit(g));
  }

  lemma StartSuperposed(x: Short, zero: Zero, m: nat, q: int, w: int)
    requires ShortFits(x) && m == |x.st| && zero == Zero([], [], [], [])
    ensures Superposed(x, x, zero, m, q, w, 0)
  {
  }

  lemma EpsNext(q: int, gain: nat, n: nat)
    requires q >= 0 && n > 0
    ensures 0 <= Eps(q, gain, n - 1) <= Eps(q, gain, n) == Grown(q, gain, Eps(q, gain, n - 1))
  {
    hide Grown;
    EpsRises(q, gain, n - 1);
  }

  /** After n samples of a candidate, nothing having saturated, its memories are those of the
      zero-input response plus the scaled zero-state response of its codevector. */
  ghost predicate After(e: Enc, s: Vec4, cb: Codebook, g: Shaping, c: nat, gain: nat, n: nat)
    requires EncFits(e) && FilterFits(g.f) && c < 32 && n <= 4
  {
    Superposed(Tried(e, s, cb, g, c, n).sh, Untouched(e, s, g, n), ZeroRun(cb, c / 2, g, n), |e.sh.st|, Unit(g), Sign(c),
               Eps(Unit(g), gain, n))
  }

  lemma TriedNext(e: Enc, s: Vec4, cb: Codebook, g: Shaping, c: nat, n: nat)
    requires EncFits(e) && FilterFits(g.f) && c < 32 && n < 4
    ensures var uq := Denormalised(Vector(cb, IndexOf(c))[n], g.f.exp);
            Tried(e, s, cb, g, c, n + 1).sh
            == ShortStep(Tried(e, s, cb, g, c, n).sh, s[n], LAdd(PpvAt(e, n, g), uq), g)
    ensures Untouched(e, s, g, n + 1) == ShortStep(Untouched(e, s, g, n), s[n], PpvAt(e, n, g), g)
    ensures ZeroRun(cb, c / 2, g, n + 1) == ZeroStep(ZeroRun(cb, c / 2, g, n), cb[4 * (c / 2) + n], g)
  {
    hide ShortStep, ZeroStep, Denormalised, PpvAt, LtfvAt, Vector, LAdd, LSub, TargetOf, Round;
  }

  lemma AfterNext(e: Enc, s: Vec4, cb: Codebook, g: Shaping, c: nat, gain: nat, n: nat)
    requires EncFits(e) && FilterFits(g.f) && c < 32 && n < 4 && FiltersGentle(g, gain)
    requires SampleExact(e, s, cb, g, c, n) && After(e, s, cb, g, c, gain, n)
    ensures After(e, s, cb, g, c, gain, n + 1)
  {
    hide FilterFits, FiltersGentle, SearchExact, StepExact, ZeroExact, Superposed, Tried, Untouched, ZeroRun, ZeroStep, ShortStep, Eps, Grown;
    hide Vector, Denormalised, PpvAt, LtfvAt, Unit, Gap, Pow2, ShortFits;
    var act, zir, zero := Tried(e, s, cb, g, c, n).sh, Untouched(e, s, g, n), ZeroRun(cb, c / 2, g, n);
    var x, u := cb[4 * (c / 2) + n], Vector(cb, IndexOf(c))[n];
    var ppv, uq := PpvAt(e, n, g), Denormalised(u, g.f.exp);
    TriedNext(e, s, cb, g, c, n);
    ExcitationGap(cb, c, n, g);
    EpsNext(Unit(g), gain, n + 1);
    SuperposedNext(act, zir, zero, |e.sh.st|, Unit(g), Sign(c), Eps(Unit(g), gain, n), Eps(Unit(g), gain, n + 1), g, gain,
                   s[n], ppv, uq, LAdd(ppv, uq), x);
  }

  lemma {:induction false} CandidateSuperposed(e: Enc, s: Vec4, cb: Codebook, g: Shaping, c: nat, gain: nat, n: nat)
    requires EncFits(e) && FilterFits(g.f) && c < 32 && n <= 4 && FiltersGentle(g, gain)
    requires forall k :: 0 <= k < n ==> SampleExact(e, s, cb, g, c, k)
    ensures After(e, s, cb, g, c, gain, n)
  {
    hide SampleExact, Superposed, FiltersGentle;
    if n == 0 {
      StartSuperposed(e.sh, ZeroRun(cb, c / 2, g, 0), |e.sh.st|, Unit(g), Sign(c));
    } else {
      CandidateSuperposed(e, s, cb, g, c, gain, n - 1);
      AfterNext(e, s, cb, g, c, gain, n - 1);
    }
  }

  /** The noise that candidate c leaves at sample n, and the error the search measures for it. */
  lemma MeasuredAt(e: Enc, s: Vec4, cb: Codebook, g: Shaping, c: nat, n: nat)
    requires EncFits(e) && FilterFits(g.f) && c < 32 && n < 4
    ensures var act, zir, zero := Tried(e, s, cb, g, c, n).sh, Untouched(e, s, g, n), ZeroRun(cb, c / 2, g, n);
            var ltfv, uq := LtfvAt(e, n, g), Denormalised(Vector(cb, IndexOf(c))[n], g.f.exp);
            && Noise(e, s, cb, g, c)[n] == Round(LSub(LSub(TargetOf(act, s[n], g), ltfv), uq))
            && Response(e, s, g)[n] == ZirSample(zir, s[n], ltfv, g)
            && Zsr(cb, g)[4 * (c / 2) + n] == ZeroOut(zero, cb[4 * (c / 2) + n], g)
  {
    hide EncSteps, ZirRun, ZeroRun, ZeroStep, TargetOf, LtfvAt, PpvAt, Denormalised, Vector, Round, LSub, ZirSample, FilterFits;
    NoiseAt(e, s, Vector(cb, IndexOf(c)), Ppv(e, g), Ltfv(e, g), g, n, 4);
    ResponseAt(e.sh, s, Ppv(e, g), Ltfv(e, g), g, n, 4);
    ZeroAt(cb, c / 2, g, n, 4);
    assert (4 * (c / 2) + n) / 4 == c / 2 && (4 * (c / 2) + n) % 4 == n;
  }

  lemma ErrorIs(zsr: Codebook, r: Vec4, c: nat, n: nat, o: int16)
    requires c < 32 && n < 4 && o == zsr[4 * (c / 2) + n]
    requires Fits16(4 * Int(r[n])) && Fits16(if c % 2 == 0 then 4 * Int(r[n]) - o else 4 * Int(r[n]) + o)
    ensures Int(ErrorAt(zsr, r, c, n)) == if c % 2 == 0 then 4 * Int(r[n]) - o else 4 * Int(r[n]) + o
  {
    Pow2Table();
    MulIsProduct(r[n], 4);
  }

  lemma SumOfGaps(q: int, w: int, a: int, f: int, u: int, a2: int, f2: int, u2: int)
    ensures Gap(q, w, a + f + u, a2 + f2 + u2) == Gap(q, w, a, a2) + Gap(q, w, f, f2) + Gap(q, w, u, u2)
  {
  }

  lemma ZirSampleNear(x: Short, s: int16, ltfv: int32, g: Shaping)
    requires ShortFits(x) && -2 <= g.f.exp <= 29
    requires var v := TargetOf(x, s, g) - ltfv;
             && -0x8000_0000 <= v <= 0x7fff_ffff && -0x10_0000_0000 <= Unit(g) * v <= 0xf_ffff_ffe0
             && Roundable(LShl(v, SatSub16(g.f.exp, 3)))
    ensures var v := TargetOf(x, s, g) - ltfv;
            var y: int := LShl(v, SatSub16(g.f.exp, 3));
            -32 < 32 * y - Unit(g) * v <= 0 && Abs(0x1_0000 * Int(ZirSample(x, s, ltfv, g)) - y) <= 0x8000
  {
    hide TargetOf, LShl, Round, Pow2, Roundable;
    var v: int32 := TargetOf(x, s, g) - ltfv;
    ShiftNear(v, g.f.exp, Unit(g));
    RoundNear(LShl(v, SatSub16(g.f.exp, 3)));
  }

  /** What the outputs of the filters and the excitation take off the target, against the
      zero-state sum of the codevector. */
  function TakenOff(act: Short, zir: Short, uq: int, g: Shaping): int
    requires ShortFits(act) && ShortFits(zir)
  {
    (Prediction(act, g) - Prediction(zir, g)) + (NoiseFed(act, g) - NoiseFed(zir, g)) + uq
  }

  function ZeroSum(zero: Zero, x: int, g: Shaping): int
    requires ShortRun(zero)
  {
    ZeroPrediction(zero, g) + ZeroFed(zero, g) + 0x1_0000 * x
  }

  lemma TakenOffGap(act: Short, zir: Short, zero: Zero, m: nat, q: nat, w: int, uq: int, x: int, g: Shaping, gain: nat, eps: int)
    requires Superposed(act, zir, zero, m, q, w, eps) && ShortRun(zero) && 0 <= eps && FiltersGentle(g, gain)
    requires ShortFits(act) && ShortFits(zir) && Abs(Gap(q, w, uq, 0x1_0000 * x)) <= q
    ensures Abs(Gap(q, w, TakenOff(act, zir, uq, g), ZeroSum(zero, x, g))) <= 0x3_0000 * (gain * eps) + q
  {
    hide Superposed, Prediction, NoiseFed, ZeroPrediction, ZeroFed, Gap, FiltersGentle, ShortFits;
    OutputGaps(act, zir, zero, m, q, w, eps, g, gain);
    SumOfGaps(q, w, Prediction(act, g) - Prediction(zir, g), NoiseFed(act, g) - NoiseFed(zir, g), uq,
              ZeroPrediction(zero, g), ZeroFed(zero, g), 0x1_0000 * x);
  }

  lemma NoiseNear(act: Short, zir: Short, s: int16, ppv: int32, vq: int32, ltfv: int32, uq: int32, g: Shaping)
    requires ShortFits(act) && ShortFits(zir) && StepExact(act, s, vq, g) && StepExact(zir, s, ppv, g)
    requires var y := TargetOf(act, s, g) - ltfv; -0x8000_0000 <= y <= 0x7fff_ffff && Roundable(y - uq)
    ensures var t := Int(Round(LSub(LSub(TargetOf(act, s, g), ltfv), uq)));
            Abs(0x1_0000 * t - (TargetOf(zir, s, g) - ltfv - TakenOff(act, zir, uq, g))) <= 0x8000
  {
    hide StepExact, Prediction, NoiseFed, TargetOf, Round, ShortPrediction, Feedback, ShortFits;
    StepIsExact(act, s, vq, g);
    StepIsExact(zir, s, ppv, g);
    RoundNear(TargetOf(act, s, g) - ltfv - uq);
  }

  lemma ZeroOutNear(zero: Zero, x: int16, g: Shaping)
    requires ShortRun(zero) && ZeroExact(zero, x, g)
    ensures Abs(0x2_0000 * Int(ZeroOut(zero, x, g)) - ZeroSum(zero, x, g)) <= 0x1_0001
  {
    hide ZeroStep, ZeroExact, ZeroPrediction, ZeroFed;
    ZeroNear(zero, x, g);
  }

  /** The three sums of a search step against one another. */
  lemma SearchNear(act: Short, zir: Short, zero: Zero, m: nat, s: int16, ppv: int32, vq: int32, ltfv: int32, uq: int32, x: int16,
                   o: int16, c: nat, g: Shaping, gain: nat, eps: int)
    requires Superposed(act, zir, zero, m, Unit(g), Sign(c), eps) && ShortRun(zero) && 0 <= eps && FiltersGentle(g, gain)
    requires ShortFits(act) && ShortFits(zir) && -2 <= g.f.exp <= 29
    requires StepExact(act, s, vq, g) && StepExact(zir, s, ppv, g) && ZeroExact(zero, x, g)
    requires Abs(Gap(Unit(g), Sign(c), uq, 0x1_0000 * Int(x))) <= Unit(g)
    requires o == ZeroOut(zero, x, g) && SearchExact(zir, act, s, ltfv, uq, o, c, g)
    ensures var r := Int(ZirSample(zir, s, ltfv, g));
            var t := Int(Round(LSub(LSub(TargetOf(act, s, g), ltfv), uq)));
            Abs(8 * (if c % 2 == 0 then 4 * r - Int(o) else 4 * r + o) - Unit(g) * t) <= 3 * (gain * eps) + Unit(g) + 20
  {
    hide Superposed, Gap, FiltersGentle, ZirSample, ZeroOut, TargetOf, Round, LShl, LSub, Unit, ShortFits, ZeroExact, StepExact;
    hide TakenOff, ZeroSum, Roundable;
    var q, w, ge := Unit(g), Sign(c), gain * eps;
    assert ge >= 0;
    TakenOffGap(act, zir, zero, m, q, w, uq, x, g, gain, eps);
    ZeroOutNear(zero, x, g);
    ZirSampleNear(zir, s, ltfv, g);
    NoiseNear(act, zir, s, ppv, vq, ltfv, uq, g);
    var v: int := TargetOf(zir, s, g) - ltfv;
    var r: int := ZirSample(zir, s, ltfv, g);
    var t: int := Round(LSub(LSub(TargetOf(act, s, g), ltfv), uq));
    ErrorNear(q, w, v, LShl(v, SatSub16(g.f.exp, 3)), r, o, TakenOff(act, zir, uq, g), ZeroSum(zero, x, g), t,
              if c % 2 == 0 then 4 * r - Int(o) else 4 * r + o, ge);
  }

  /** What the search measures is, scaled, the noise the candidate would leave: sample by
      sample, for every filter, as long as nothing saturates. Rounding alone keeps them apart,
      by more in later samples the more gain the filters have. */
  lemma ErrorIsNoise(e: Enc, s: Vec4, cb: Codebook, g: Shaping, c: nat, gain: nat, n: nat)
    requires EncFits(e) && FilterFits(g.f) && c < 32 && n < 4 && FiltersGentle(g, gain)
    requires forall k :: 0 <= k <= n ==> SampleExact(e, s, cb, g, c, k)
    ensures Abs(8 * Int(ErrorAt(Zsr(cb, g), Response(e, s, g), c, n)) - Unit(g) * Noise(e, s, cb, g, c)[n])
            <= 3 * (gain * Eps(Unit(g), gain, n)) + Unit(g) + 20
  {
    CandidateSuperposed(e, s, cb, g, c, gain, n);
    MeasuredAt(e, s, cb, g, c, n);
    ErrorFromExact(e, s, cb, g, c, gain, n);
  }

  lemma ErrorFromExact(e: Enc, s: Vec4, cb: Codebook, g: Shaping, c: nat, gain: nat, n: nat)
    requires EncFits(e) && FilterFits(g.f) && c < 32 && n < 4 && FiltersGentle(g, gain)
    requires SampleExact(e, s, cb, g, c, n) && After(e, s, cb, g, c, gain, n)
    ensures Abs(8 * Int(ErrorAt(Zsr(cb, g), Response(e, s, g), c, n)) - Unit(g) * Noise(e, s, cb, g, c)[n])
            <= 3 * (gain * Eps(Unit(g), gain, n)) + Unit(g) + 20
  {
    hide FilterFits, FiltersGentle, StepExact, ZeroExact, Superposed, Tried, Untouched, ZeroRun, ZeroOut, Eps, ErrorAt, Zsr, Response, Noise;
    hide Vector, Denormalised, PpvAt, LtfvAt, Unit, Gap, Pow2, ShortFits, TargetOf, ZirSample, Round, LSub;
    var act, zir, zero := Tried(e, s, cb, g, c, n).sh, Untouched(e, s, g, n), ZeroRun(cb, c / 2, g, n);
    var x, u := cb[4 * (c / 2) + n], Vector(cb, IndexOf(c))[n];
    ExcitationGap(cb, c, n, g);
    MeasuredAt(e, s, cb, g, c, n);
    ErrorIs(Zsr(cb, g), Response(e, s, g), c, n, ZeroOut(zero, x, g));
    var ppv, uq := PpvAt(e, n, g), Denormalised(u, g.f.exp);
    SearchNear(act, zir, zero, |e.sh.st|, s[n], ppv, ppv + uq, LtfvAt(e, n, g), uq, x, ZeroOut(zero, x, g), c, g, gain,
               Eps(Unit(g), gain, n));
  }

  // ---------------------------------------------------------------- the choice

  function Squares(v: seq<int>, n: nat): (e: int)
    requires n <= |v|
    ensures e >= 0
  {
    if n == 0 then 0 else Squares(v, n - 1) + Square(v[n - 1])
  }

  function Square(x: int): (y: int)
    ensures y >= 0
  {
    x * x
  }

  /** The errors measured for a candidate, and the noise it leaves, in the same units. */
  function Errors(e: Enc, s: Vec4, cb: Codebook, g: Shaping, c: nat): (v: seq<int>)
    requires EncFits(e) && FilterFits(g.f) && c < 32
    ensures |v| == 4
  {
    seq(4, n requires 0 <= n < 4 => 8 * Int(ErrorAt(Zsr(cb, g), Response(e, s, g), c, n)))
  }

  function Noises(e: Enc, s: Vec4, cb: Codebook, g: Shaping, c: nat): (v: seq<int>)
    requires EncFits(e) && FilterFits(g.f) && c < 32
    ensures |v| == 4
  {
    seq(4, n requires 0 <= n < 4 => Unit(g) * Noise(e, s, cb, g, c)[n])
  }

  /** The measured energy is the sum of the squares, unless that leaves 32 bits. */
  lemma {:induction false} EnergyIs(zsr: Codebook, r: Vec4, c: nat, v: seq<int>, n: nat)
    requires c < 32 && n <= 4 == |v| && forall k :: 0 <= k < 4 ==> v[k] == 8 * Int(ErrorAt(zsr, r, c, k))
    ensures 64 * Int32(ErrorEnergy(zsr, r, c, n)) == Min(Squares(v, n), 64 * 0x7fff_ffff)
  {
    hide ErrorAt;
    if n == 0 {
    } else {
      EnergyIs(zsr, r, c, v, n - 1);
      var d: int := ErrorAt(zsr, r, c, n - 1);
      MulIsProduct(d, d);
      assert Square(v[n - 1]) == 64 * (d * d);
    }
  }

  /** One square against another, whose root is off by at most b. */
  lemma SquareNear(x: int, y: int, b: nat)
    requires Abs(x - y) <= b
    ensures Square(y) <= Square(x) + 2 * (b * Abs(x)) + Square(b)
  {
    var ax, ay := Abs(x), Abs(y);
    assert Square(x) == ax * ax && Square(y) == ay * ay;
    assert ay <= ax + b;
    MulMono(ay, ax + b, ay);
    MulMono(ay, ax + b, ax + b);
    assert (ax + b) * (ax + b) == ax * ax + 2 * (b * ax) + b * b;
    assert ay * (ax + b) == (ax + b) * ay;
  }

  /** The sum of four magnitudes is at most twice the root of the sum of their squares. */
  lemma MagnitudeSum(v: seq<int>, m: nat)
    requires |v| == 4 && Squares(v, 4) <= Square(m)
    ensures Abs(v[0]) + Abs(v[1]) + Abs(v[2]) + Abs(v[3]) <= 2 * m
  {
    hide Square, Squares;
    FourSquares(v);
    FourMagnitudes(Abs(v[0]), Abs(v[1]), Abs(v[2]), Abs(v[3]));
    SquareOfAbs(v[0]);
    SquareOfAbs(v[1]);
    SquareOfAbs(v[2]);
    SquareOfAbs(v[3]);
    RootBound(Abs(v[0]) + Abs(v[1]) + Abs(v[2]) + Abs(v[3]), m);
  }

  lemma SquareOfAbs(x: int)
    ensures Square(Abs(x)) == Square(x)
  {
  }

  lemma RootBound(x: nat, m: nat)
    requires Square(x) <= 4 * Square(m)
    ensures x <= 2 * m
  {
    hide Square;
    if x > 2 * m { SquareRises(x, m); }
  }

  lemma SquareRises(x: nat, m: nat)
    requires x >= 2 * m + 1
    ensures Square(x) > 4 * Square(m)
  {
    MulMono(2 * m + 1, x, x);
    MulMono(2 * m + 1, x, 2 * m + 1);
    assert (2 * m + 1) * (2 * m + 1) == 4 * Square(m) + 4 * m + 1;
    assert x * (2 * m + 1) == (2 * m + 1) * x;
  }

  lemma FourSquares(v: seq<int>)
    requires |v| == 4
    ensures Squares(v, 4) == Square(v[0]) + Square(v[1]) + Square(v[2]) + Square(v[3])
  {
    hide Square;
    assert Squares(v, 0) == 0;
    assert Squares(v, 1) == Square(v[0]);
    assert Squares(v, 2) == Square(v[0]) + Square(v[1]);
    assert Squares(v, 3) == Squares(v, 2) + Square(v[2]);
  }

  lemma FourMagnitudes(a: int, b: int, c: int, d: int)
    ensures Square(a + b + c + d) <= 4 * (Square(a) + Square(b) + Square(c) + Square(d))
  {
    TwoMagnitudes(a, b);
    TwoMagnitudes(c, d);
    TwoMagnitudes(a + b, c + d);
  }

  lemma TwoMagnitudes(a: int, b: int)
    ensures Square(a + b) <= 2 * (Square(a) + Square(b))
  {
    assert Square(a - b) >= 0;
    assert Square(a + b) + Square(a - b) == 2 * (Square(a) + Square(b));
  }

  /** Vectors whose four samples differ by at most b: the roots of their energies differ by at
      most 2 * b. */
  lemma Triangle(x: seq<int>, y: seq<int>, b: nat, m: nat)
    requires |x| == |y| == 4 && Squares(x, 4) <= Square(m)
    requires forall n :: 0 <= n < 4 ==> Abs(x[n] - y[n]) <= b
    ensures Squares(y, 4) <= Square(m + 2 * b)
  {
    hide Squares, Square;
    MagnitudeSum(x, m);
    FourSquares(x);
    FourSquares(y);
    SquareNear(x[0], y[0], b);
    SquareNear(x[1], y[1], b);
    SquareNear(x[2], y[2], b);
    SquareNear(x[3], y[3], b);
    SumSquared(m, b, Abs(x[0]), Abs(x[1]), Abs(x[2]), Abs(x[3]));
  }

  lemma SumSquared(m: nat, b: nat, x0: nat, x1: nat, x2: nat, x3: nat)
    requires x0 + x1 + x2 + x3 <= 2 * m
    ensures Square(m) + 2 * (b * x0) + 2 * (b * x1) + 2 * (b * x2) + 2 * (b * x3) + 4 * Square(b) <= Square(m + 2 * b)
  {
    MulMono(x0 + x1 + x2 + x3, 2 * m, b);
    assert (x0 + x1 + x2 + x3) * b == b * x0 + b * x1 + b * x2 + b * x3;
    assert Square(m + 2 * b) == Square(m) + 4 * (m * b) + 4 * Square(b);
  }

  /** How far measured errors and noise can be apart. */
  function Slack(g: Shaping, gain: nat): (b: nat) {
    assert gain * Eps(Unit(g), gain, 3) >= 0;
    3 * (gain * Eps(Unit(g), gain, 3)) + Unit(g) + 20
  }

  ghost predicate VectorExact(e: Enc, s: Vec4, cb: Codebook, g: Shaping, c: nat)
    requires EncFits(e) && FilterFits(g.f) && c < 32
  {
    forall n :: 0 <= n < 4 ==> SampleExact(e, s, cb, g, c, n)
  }

  lemma SlackBounds(g: Shaping, gain: nat, n: nat)
    requires n < 4
    ensures 3 * (gain * Eps(Unit(g), gain, n)) + Unit(g) + 20 <= Slack(g, gain)
  {
    hide Eps, Unit;
    EpsRises(Unit(g), gain, 0);
    EpsRises(Unit(g), gain, 1);
    EpsRises(Unit(g), gain, 2);
    MulMono(Eps(Unit(g), gain, n), Eps(Unit(g), gain, 3), gain);
  }

  lemma ErrorsNearNoises(e: Enc, s: Vec4, cb: Codebook, g: Shaping, c: nat, gain: nat)
    requires EncFits(e) && FilterFits(g.f) && c < 32 && FiltersGentle(g, gain) && VectorExact(e, s, cb, g, c)
    ensures forall n :: 0 <= n < 4 ==> Abs(Errors(e, s, cb, g, c)[n] - Noises(e, s, cb, g, c)[n]) <= Slack(g, gain)
  {
    hide SampleExact, FiltersGentle, ErrorAt, Zsr, Response, Noise, Unit, Slack, Eps;
    forall n | 0 <= n < 4 ensures Abs(Errors(e, s, cb, g, c)[n] - Noises(e, s, cb, g, c)[n]) <= Slack(g, gain) {
      ErrorIsNoise(e, s, cb, g, c, gain, n);
      SlackBounds(g, gain, n);
    }
  }

  /** The candidate the search settles on. */
  function Winner(e: Enc, s: Vec4, cb: Codebook, g: Shaping): (c: nat)
    requires EncFits(e) && FilterFits(g.f)
    ensures c < 32
  {
    BestOf(Zsr(cb, g), Response(e, s, g), 32)
  }

  lemma WinnerIsChosen(e: Enc, s: Vec4, cb: Codebook, g: Shaping)
    requires EncFits(e) && FilterFits(g.f)
    ensures Chosen(e, s, cb, g) == IndexOf(Winner(e, s, cb, g))
  {
    hide BestOf, Zsr, ZirRun;
  }

  /** The winner's measured energy is the least, as long as the other's does not leave 32
      bits. */
  lemma WinnerHasLeastError(e: Enc, s: Vec4, cb: Codebook, g: Shaping, c: nat)
    requires EncFits(e) && FilterFits(g.f) && c < 32 && Squares(Errors(e, s, cb, g, c), 4) < 64 * 0x7fff_ffff
    ensures Squares(Errors(e, s, cb, g, Winner(e, s, cb, g)), 4) <= Squares(Errors(e, s, cb, g, c), 4)
  {
    hide ErrorAt, ErrorEnergy, Zsr, Response, Squares;
    var zsr, r, b := Zsr(cb, g), Response(e, s, g), Winner(e, s, cb, g);
    BestOfIsBest(zsr, r, 32);
    EnergyIs(zsr, r, c, Errors(e, s, cb, g, c), 4);
    EnergyIs(zsr, r, b, Errors(e, s, cb, g, b), 4);
  }

  /** The search minimises the noise: no candidate leaves noise whose root energy is lower than
      that of the winner by more than what rounding makes of the filters' gain. */
  lemma WinnerHasLeastNoise(e: Enc, s: Vec4, cb: Codebook, g: Shaping, c: nat, gain: nat, m: nat)
    requires EncFits(e) && FilterFits(g.f) && c < 32 && FiltersGentle(g, gain)
    requires VectorExact(e, s, cb, g, c) && VectorExact(e, s, cb, g, Winner(e, s, cb, g))
    requires Squares(Noises(e, s, cb, g, c), 4) <= Square(m) && Square(m + 2 * Slack(g, gain)) < 64 * 0x7fff_ffff
    ensures Squares(Noises(e, s, cb, g, Winner(e, s, cb, g)), 4) <= Square(m + 4 * Slack(g, gain))
  {
    hide VectorExact, FiltersGentle, Errors, Noises, Slack, Squares, Square, Winner;
    var b, w := Slack(g, gain), Winner(e, s, cb, g);
    ErrorsNearNoises(e, s, cb, g, c, gain);
    ErrorsNearNoises(e, s, cb, g, w, gain);
    Triangle(Noises(e, s, cb, g, c), Errors(e, s, cb, g, c), b, m);
    WinnerHasLeastError(e, s, cb, g, c);
    Triangle(Errors(e, s, cb, g, w), Noises(e, s, cb, g, w), b, m + 2 * b);
    assert m + 2 * b + 2 * b == m + 4 * b;
  }

  // ---------------------------------------------------------------- filters without memory

  /** Coefficients that are zero from index 1 on. */
  ghost predicate Flat(c: Lpc) { forall i :: 1 <= i < 9 ==> c[i] == 0 }

  ghost predicate FiltersFlat(g: Shaping) { Flat(g.f.aq) && Flat(g.fsz) && Flat(g.fsp) }

  lemma FlatTerms(x: int)
    ensures Term(x, 0) == 0
  {
  }

  lemma {:induction false} FlatShort(st: seq<int16>, at: nat, aq: Lpc, k: nat)
    requires k <= 8 && at + 8 <= |st| && Flat(aq)
    ensures ShortFitsTo(st, at, aq, k) && ShortIdeal(st, at, aq, k) == 0
  {
    hide Term;
    if k == 0 {
    } else {
      FlatShort(st, at, aq, k - 1);
      FlatTerms(st[at + k - 1]);
    }
  }

  lemma {:induction false} FlatNoise(z: seq<int16>, p: seq<int16>, at: nat, g: Shaping, k: nat)
    requires k <= 8 && at + 8 <= |z| && at + 8 <= |p| && FiltersFlat(g)
    ensures NoiseFitsTo(z, p, at, g, k) && NoiseIdeal(z, p, at, g, k) == 0
  {
    hide Term;
    if k == 0 {
    } else {
      FlatNoise(z, p, at, g, k - 1);
      FlatTerms(z[at + k - 1]);
      FlatTerms(p[at + k - 1]);
    }
  }

  lemma {:induction false} FlatZeros(x: Zero, g: Shaping, k: nat)
    requires ShortRun(x) && k <= |x.b1| && FiltersFlat(g)
    ensures ZeroFitsTo(x, g, k) && ShortDelta(x.b1, g.f.aq, |x.b1|, k) == NoiseDelta(x.b2, x.b3, g, |x.b1|, k) == 0
  {
    hide Term;
    if k == 0 {
    } else {
      FlatZeros(x, g, k - 1);
      FlatTerms(x.b1[k - 1]);
      FlatTerms(x.b2[k - 1]);
      FlatTerms(x.b3[k - 1]);
    }
  }

  lemma FlatStep(x: Short, s: int16, vq: int32, g: Shaping)
    requires ShortFits(x) && FiltersFlat(g)
    ensures Prediction(x, g) == NoiseFed(x, g) == 0
    ensures Roundable(vq) && Roundable(0x1_0000 * Int(s) - vq) ==> StepExact(x, s, vq, g)
  {
    hide ShortIdeal, NoiseIdeal, Flat, ShortFitsTo, NoiseFitsTo;
    FlatShort(x.st, |x.st| - 8, g.f.aq, 8);
    FlatNoise(x.z, x.p, |x.z| - 8, g, 8);
  }

  lemma FlatZeroStep(x: Zero, c: int16, g: Shaping)
    requires ShortRun(x) && FiltersFlat(g)
    ensures -0x7fff <= c <= 0x7ffe ==> ZeroExact(x, c, g)
    ensures -0x7fff <= c <= 0x7ffe ==> -16384 <= ZeroOut(x, c, g) <= 16384
  {
    hide ShortDelta, NoiseDelta, Flat, ZeroFitsTo, ZeroStep;
    FlatZeros(x, g, |x.b1|);
    if -0x7fff <= c <= 0x7ffe { ZeroOutNear(x, c, g); }
  }

  lemma FlatSearch(zir: Short, act: Short, s: int16, ltfv: int32, uq: int32, o: int16, c: nat, g: Shaping)
    requires ShortFits(zir) && ShortFits(act) && FiltersFlat(g) && 3 <= g.f.exp <= 29
    requires -8192 <= s <= 8192 && -0x2000_0000 <= ltfv <= 0x2000_0000 && Abs(uq) <= 0x2000_0000 && -16384 <= o <= 16384
    requires Abs(Unit(g) * (0x1_0000 * Int(s) - ltfv)) <= 0x1_ffe0_0000
    ensures SearchExact(zir, act, s, ltfv, uq, o, c, g)
  {
    hide TargetOf, LShl, ZirSample, Unit, Flat, StepExact;
    FlatStep(zir, s, 0, g);
    FlatStep(act, s, 0, g);
    StepIsExact(zir, s, 0, g);
    StepIsExact(act, s, 0, g);
    var x: int32 := 0x1_0000 * Int(s) - ltfv;
    ShiftIsNear(x, g);
    ZirSampleNear(zir, s, ltfv, g);
  }

  lemma ShiftIsNear(x: int32, g: Shaping)
    requires 3 <= g.f.exp <= 29 && Abs(Unit(g) * x) <= 0x1_ffe0_0000
    ensures -0x1000_0000 <= LShl(x, SatSub16(g.f.exp, 3)) <= 0x0fff_0000
  {
    hide LShl, Pow2;
    ShiftNear(x, g.f.exp, Unit(g));
  }

  lemma ExcitationSmall(u: int16, g: Shaping)
    requires 3 <= g.f.exp <= 29
    ensures Abs(Denormalised(u, g.f.exp)) <= 0x1000_0000
  {
    hide Denormalised, Pow2;
    DenormalisedNear(u, g.f.exp, Unit(g));
    Pow2Table();
    Pow2Mono(5, g.f.exp + 2);
    var q, d: int := Unit(g), Denormalised(u, g.f.exp);
    if d > 0x1000_0000 { MulMono(0x1000_0001, d, q); MulMono(32, q, 0x1000_0001); }
    if d < -0x1000_0000 { MulMono(d, -0x1000_0001, q); MulMono(32, q, 0x1000_0000); }
  }

  /** Nothing saturates for a sample when the filters have no memory and target, prediction
      and codevector leave a few bits of headroom. */
  lemma FlatIsExact(e: Enc, s: Vec4, cb: Codebook, g: Shaping, c: nat, n: nat)
    requires EncFits(e) && FilterFits(g.f) && FiltersFlat(g) && c < 32 && n < 4 && 3 <= g.f.exp <= 29
    requires -8192 <= s[n] <= 8192 && -0x7fff <= cb[4 * (c / 2) + n] <= 0x7ffe
    requires -0x2000_0000 <= PpvAt(e, n, g) <= 0x2000_0000 && -0x2000_0000 <= LtfvAt(e, n, g) <= 0x2000_0000
    requires Abs(Unit(g) * (0x1_0000 * Int(s[n]) - LtfvAt(e, n, g))) <= 0x1_ffe0_0000
    ensures SampleExact(e, s, cb, g, c, n)
  {
    hide FilterFits, FiltersFlat, StepExact, ZeroExact, SearchExact, Tried, Untouched, ZeroRun, ZeroOut, Vector, Denormalised, PpvAt, LtfvAt;
    hide Unit, Pow2, TargetOf;
    var act, zir, zero := Tried(e, s, cb, g, c, n).sh, Untouched(e, s, g, n), ZeroRun(cb, c / 2, g, n);
    var x, u := cb[4 * (c / 2) + n], Vector(cb, IndexOf(c))[n];
    var ppv, uq := PpvAt(e, n, g), Denormalised(u, g.f.exp);
    ExcitationSmall(u, g);
    FlatStep(act, s[n], ppv + uq, g);
    FlatStep(zir, s[n], ppv, g);
    FlatZeroStep(zero, x, g);
    FlatSearch(zir, act, s[n], LtfvAt(e, n, g), uq, ZeroOut(zero, x, g), c, g);
  }

  // ---------------------------------------------------------------- noise feedback

  /** What noise feedback coding does to the coding error of a sample: it is the newest sample
      of the zero section plus that of the pole section, the error shaped by the short-term
      filter; and the former is the long-term noise plus its own feedback. */
  lemma ErrorIsShapedNoise(e: Enc, s: int16, u: int16, ppv: int32, ltfv: int32, g: Shaping)
    requires EncFits(e)
    requires var uq := Denormalised(u, g.f.exp);
             && -0x8000_0000 <= ppv + uq <= 0x7fff_ffff && StepExact(e.sh, s, ppv + uq, g)
             && -0x8000_0000 <= TargetOf(e.sh, s, g) - ltfv <= 0x7fff_ffff && Roundable(TargetOf(e.sh, s, g) - ltfv - uq)
    ensures var y, n := EncStep(e, s, u, ppv, ltfv, g), |e.sh.st|;
            && Abs(Int(s) - y.sh.st[n] - (Int(y.sh.z[n]) + y.sh.p[n])) <= 1
            && Abs(0x1_0000 * (Int(y.sh.z[n]) - y.ltn[|e.ltn|]) - (Int32(ltfv) - ppv)) <= 0x1_0000
  {
    hide StepExact, ShortStep, TargetOf, Round, Denormalised, Prediction, NoiseFed;
    var uq := Denormalised(u, g.f.exp);
    StepNear(e.sh, s, ppv + uq, g);
    TargetIs(e.sh, s, ppv + uq, g);
    RoundNear(TargetOf(e.sh, s, g) - ltfv - uq);
  }

  lemma TargetIs(x: Short, s: int16, vq: int32, g: Shaping)
    requires ShortFits(x) && StepExact(x, s, vq, g)
    ensures TargetOf(x, s, g) == 0x1_0000 * Int(s) - Prediction(x, g) - NoiseFed(x, g)
  {
    StepIsExact(x, s, vq, g);
  }
}
