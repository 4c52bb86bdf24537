/** The two prediction filters of the BroadVoice16 encoder, short-term (azfilter) and long-term
    (the residual loop of pitchtapquan), and the proof that the synthesis of Bv16Excitation
    undoes them. */
module Bv16Analysis {
  import opened FixedPoint
  import opened Bv16Basop
  import opened Bv16Excitation
  import opened Bv16Superposition

  // ---------------------------------------------------------------- short-term residual

  /** The first k feedback terms of the all-zero filter at sample n, after the direct one. */
  function AllZeroSum(a: Lpc, x: seq<int16>, n: nat, k: nat): int32
    requires k <= 8 <= n < |x|
  {
    if k == 0 then LMult0(a[0], x[n]) else LMac0(AllZeroSum(a, x, n, k - 1), a[k], x[n - k])
  }

  function AllZero(a: Lpc, x: seq<int16>, n: nat): int16
    requires 8 <= n < |x|
  {
    Round(LShl(AllZeroSum(a, x, n, 8), 4))
  }

  function Filtered(a: Lpc, x: seq<int16>, xs: nat, lg: nat): (y: seq<int16>)
    requires 8 <= xs && xs + lg <= |x|
    ensures |y| == lg
  {
    if lg == 0 then [] else Filtered(a, x, xs, lg - 1) + [AllZero(a, x, xs + lg - 1)]
  }

  /** azfilter: lg samples of x from sample xs on, into y from ys on. */
  method AzFilter(a: Lpc, x: array<int16>, xs: nat, y: array<int16>, ys: nat, lg: nat)
    requires x != y && 8 <= xs && xs + lg <= x.Length && ys + lg <= y.Length
    modifies y
    ensures y[..] == old(y[..ys]) + Filtered(a, x[..], xs, lg) + old(y[ys + lg..])
  {
    hide LShl, Round, AllZeroSum;
    for n := 0 to lg
      invariant y[..ys] == old(y[..ys]) && y[ys..ys + n] == Filtered(a, x[..], xs, n)
      invariant y[ys + lg..] == old(y[ys + lg..])
    {
      ghost var done := y[ys..ys + n];
      var a0 := AllZeroAt(a, x, xs + n);
      y[ys + n] := Round(LShl(a0, 4));
      assert y[ys..ys + n + 1] == done + [y[ys + n]];
    }
    assert y[..] == y[..ys] + y[ys..ys + lg] + y[ys + lg..];
  }

  method AllZeroAt(a: Lpc, x: array<int16>, n: nat) returns (a0: int32)
    requires 8 <= n < x.Length
    ensures a0 == AllZeroSum(a, x[..], n, 8)
  {
    hide LMult0, LMac0;
    a0 := LMult0(a[0], x[n]);
    for i := 1 to 9
      invariant a0 == AllZeroSum(a, x[..], n, i - 1)
    {
      a0 := LMac0(a0, a[i], x[n - i]);
    }
  }

  /** The same sum without saturation. */
  function AllZeroIdeal(a: Lpc, x: seq<int16>, n: nat, k: nat): int
    requires k <= 8 <= n < |x|
  {
    if k == 0 then Int(a[0]) * x[n] else AllZeroIdeal(a, x, n, k - 1) + Int(a[k]) * x[n - k]
  }

  /** The terms of the short-term prediction are those of the all-zero filter, negated and
      taken from the other end. */
  lemma {:induction false} PredictionTerms(a: Lpc, x: seq<int16>, n: nat, k: nat)
    requires k <= 8 <= n < |x|
    ensures ShortIdeal(x, n - 8, a, 8)
            == ShortIdeal(x, n - 8, a, 8 - k) - 2 * (AllZeroIdeal(a, x, n, k) - AllZeroIdeal(a, x, n, 0))
  {
    if k == 0 {
    } else {
      PredictionTerms(a, x, n, k - 1);
      var j := 8 - (k - 1);
      assert ShortIdeal(x, n - 8, a, j) == ShortIdeal(x, n - 8, a, j - 1) - Term(x[n - 8 + j - 1], a[9 - j]);
      assert n - 8 + j - 1 == n - k && 9 - j == k;
      Swapped(x[n - k], a[k]);
    }
  }

  lemma Swapped(x: int, c: int)
    ensures Term(x, c) == 2 * (c * x)
  {
  }

  ghost predicate AllZeroFitsTo(a: Lpc, x: seq<int16>, n: nat, k: nat)
    requires k <= 8 <= n < |x|
  {
    Fits32(AllZeroIdeal(a, x, n, k)) && (k > 0 ==> AllZeroFitsTo(a, x, n, k - 1))
  }

  lemma {:induction false} AllZeroSumExact(a: Lpc, x: seq<int16>, n: nat, k: nat)
    requires k <= 8 <= n < |x| && AllZeroFitsTo(a, x, n, k)
    ensures AllZeroSum(a, x, n, k) == AllZeroIdeal(a, x, n, k)
  {
    hide Mul;
    if k == 0 {
      MulIsProduct(a[0], x[n]);
    } else {
      AllZeroSumExact(a, x, n, k - 1);
      MulIsProduct(a[k], x[n - k]);
    }
  }

  /** No sum saturates at sample n, in either filter. */
  ghost predicate ShortExact(a: Lpc, x: seq<int16>, n: nat)
    requires 8 <= n < |x|
  {
    && AllZeroFitsTo(a, x, n, 8) && Roundable(16 * AllZeroIdeal(a, x, n, 8))
    && ShortFitsTo(x, n - 8, a, 8) && Fits32(8 * ShortIdeal(x, n - 8, a, 8))
  }

  lemma ShiftFour(x: int32)
    requires Fits32(16 * x)
    ensures LShl(x, 4) == 16 * x
  {
    Pow2Table();
    DoubledIsShift(x, 4);
  }

  /** Short-term synthesis from the samples before, excited by the residual, gives the sample
      the residual was taken from, or the next one. */
  lemma ShortTermUndone(a: Lpc, x: seq<int16>, n: nat)
    requires 8 <= n < |x| && a[0] == 4096 && ShortExact(a, x, n)
    ensures var y := Round(LAdd(ShortPrediction(x, n - 8, a), DepositH(AllZero(a, x, n))));
            x[n] <= y <= Int(x[n]) + 1
  {
    hide ShortIdeal, AllZeroSum, AllZeroIdeal, ShortSum, Round, LShl, AllZeroFitsTo, ShortFitsTo;
    AllZeroSumExact(a, x, n, 8);
    ShiftFour(AllZeroIdeal(a, x, n, 8));
    ShortSumExact(x, n - 8, a, 8);
    ShiftExact(ShortIdeal(x, n - 8, a, 8));
    PredictionTerms(a, x, n, 8);
    NoTerms(a, x, n);
    RoundsBack(8 * ShortIdeal(x, n - 8, a, 8), 16 * AllZeroIdeal(a, x, n, 8), x[n]);
  }

  lemma NoTerms(a: Lpc, x: seq<int16>, n: nat)
    requires 8 <= n < |x|
    ensures ShortIdeal(x, n - 8, a, 0) == 0 && AllZeroIdeal(a, x, n, 0) == Int(a[0]) * x[n]
  {
  }

  /** A prediction p, the difference d of a sample and it, rounded: their sum rounds to the
      sample, or to the next one when the difference was half way. */
  lemma RoundsBack(p: int32, d: int32, x: int16)
    requires p + d == 0x1_0000 * Int(x) && Roundable(d)
    ensures x <= Round(LAdd(p, DepositH(Round(d)))) <= Int(x) + 1
    ensures (d + 0x8000) % 0x1_0000 != 0 ==> Round(LAdd(p, DepositH(Round(d)))) == x
  {
    var r: int := Round(d);
    assert r == (d + 0x8000) / 0x1_0000;
    assert 0x1_0000 * r == d + 0x8000 - (d + 0x8000) % 0x1_0000;
  }

  // ---------------------------------------------------------------- long-term residual

  /** The residual of the three tap predictor of period pp at sample n. */
  function PitchResidual(x: seq<int16>, n: nat, pp: nat, b: Taps): int16
    requires 2 <= pp < n < |x|
  {
    Round(LMsu(LMsu(LMsu(DepositH(x[n]), b[0], x[n - pp + 1]), b[1], x[n - pp]), b[2], x[n - pp - 1]))
  }

  /** Its energy over the first k samples of a frame that starts at sample start. */
  function ResidualEnergy(x: seq<int16>, start: nat, pp: nat, b: Taps, k: nat): int32
    requires 2 <= pp < start && start + k <= |x|
  {
    if k == 0 then 0
    else
      var s := PitchResidual(x, start + k - 1, pp, b);
      LMac(ResidualEnergy(x, start, pp, b, k - 1), s, s)
  }

  /** The last loop of pitchtapquan: the energy of the pitch prediction residual. */
  method PitchResidualEnergy(x: array<int16>, pp: nat, b: Taps) returns (re: int32)
    requires x.Length == MAXPP1 + 40 && MINPP <= pp < MAXPP1
    ensures re == ResidualEnergy(x[..], MAXPP1, pp, b, 40)
  {
    hide LMsu, LMac, Round;
    re := 0;
    for i := 0 to 40
      invariant re == ResidualEnergy(x[..], MAXPP1, pp, b, i)
    {
      var sp1 := MAXPP1 + i - pp + 1;
      var t := DepositH(x[MAXPP1 + i]);
      t := LMsu(t, b[0], x[sp1]);
      t := LMsu(t, b[1], x[sp1 - 1]);
      t := LMsu(t, b[2], x[sp1 - 2]);
      var s := Round(t);
      re := LMac(re, s, s);
    }
  }

  function PitchIdeal(x: seq<int16>, at: nat, b: Taps): int
    requires 1 <= at && at + 1 < |x|
  {
    2 * (Int(x[at + 1]) * b[0]) + 2 * (Int(x[at]) * b[1]) + 2 * (Int(x[at - 1]) * b[2])
  }

  /** No sum saturates at sample n: of the three products u, v and w, not one of them, not
      their sums from either side of the prediction, and not what is left of the sample. */
  ghost predicate PitchExact(x: seq<int16>, n: nat, pp: nat, b: Taps)
    requires 2 <= pp < n < |x|
  {
    var at, t := n - pp, 0x1_0000 * Int(x[n]);
    var u, v, w := Term(x[at + 1], b[0]), Term(x[at], b[1]), Term(x[at - 1], b[2]);
    && Fits32(u) && Fits32(v) && Fits32(w) && Fits32(u + v) && Fits32(u + v + w)
    && Fits32(t - u) && Fits32(t - u - v) && Roundable(t - u - v - w)
  }

  lemma PitchIsExact(x: seq<int16>, n: nat, pp: nat, b: Taps)
    requires 2 <= pp < n < |x| && PitchExact(x, n, pp, b)
    ensures var p := PitchIdeal(x, n - pp, b);
            && PitchPrediction(x, n - pp, b) == p && Roundable(0x1_0000 * Int(x[n]) - p)
            && LMsu(LMsu(LMsu(DepositH(x[n]), b[0], x[n - pp + 1]), b[1], x[n - pp]), b[2], x[n - pp - 1])
               == 0x1_0000 * Int(x[n]) - p
  {
    hide Mul;
    var at := n - pp;
    ProductIs(x[at + 1], b[0]);
    ProductIs(x[at], b[1]);
    ProductIs(x[at - 1], b[2]);
  }

  lemma ProductIs(x: int16, c: int16)
    requires Fits32(Term(x, c))
    ensures LMult(x, c) == LMult(c, x) == Term(x, c) == 2 * (Int(x) * c)
  {
    hide Mul;
    MulIsProduct(x, c);
    MulIsProduct(c, x);
  }

  /** Long-term synthesis from the samples before, excited by the residual, gives the sample
      the residual was taken from, or the next one. */
  lemma LongTermUndone(x: seq<int16>, n: nat, pp: nat, b: Taps)
    requires 2 <= pp < n < |x| && PitchExact(x, n, pp, b)
    ensures var y := Round(LAdd(PitchPrediction(x, n - pp, b), DepositH(PitchResidual(x, n, pp, b))));
            x[n] <= y <= Int(x[n]) + 1
  {
    hide PitchIdeal, LMsu, Round, PitchPrediction, PitchExact;
    PitchIsExact(x, n, pp, b);
    RoundsBack(PitchIdeal(x, n - pp, b), 0x1_0000 * Int(x[n]) - PitchIdeal(x, n - pp, b), x[n]);
  }

  /** Both filters are exact on small samples. */
  lemma SmallIsExact(x: seq<int16>, n: nat, pp: nat, b: Taps)
    requires 2 <= pp < n < |x| && (forall i :: 0 <= i < |x| ==> -8192 <= x[i] <= 8192)
    requires Abs(b[0]) + Abs(b[1]) + Abs(b[2]) <= 0x7fff
    ensures PitchExact(x, n, pp, b)
  {
    var at := n - pp;
    TapBound(x[at + 1], b[0]);
    TapBound(x[at], b[1]);
    TapBound(x[at - 1], b[2]);
    SmallSums(x[n], Term(x[at + 1], b[0]), Term(x[at], b[1]), Term(x[at - 1], b[2]));
  }

  lemma TapBound(x: int16, c: int16)
    requires -8192 <= x <= 8192
    ensures Abs(Term(x, c)) <= 16384 * Abs(c)
  {
    MulBound(x, c, 8192, Abs(c));
  }

  lemma SmallSums(x: int16, u: int, v: int, w: int)
    requires -8192 <= x <= 8192 && Abs(u) + Abs(v) + Abs(w) <= 16384 * 0x7fff
    ensures var t := 0x1_0000 * Int(x);
            && Fits32(u) && Fits32(v) && Fits32(w) && Fits32(u + v) && Fits32(u + v + w)
            && Fits32(t - u) && Fits32(t - u - v) && Roundable(t - u - v - w)
  {
  }
}
