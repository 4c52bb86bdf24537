/** The two mirror filters of G.722 against each other: with the sub-bands passed on unchanged,
    the receive filter gives back what entered the transmit filter eleven pairs before. */
module G722Mirror {
  import opened FixedPoint
  import opened G722Quant
  import opened G722Qmf
  import opened G722Codec
  import opened G722Objects

  /** The product of qmf_coeffs_fwd with the twelve samples from j on. */
  function Forward(x: seq<int>, j: nat): int
    requires j + 12 <= |x|
  {
    3 * x[j] - 11 * x[j + 1] + 12 * x[j + 2] + 32 * x[j + 3] - 210 * x[j + 4] + 951 * x[j + 5]
    + 3876 * x[j + 6] - 805 * x[j + 7] + 362 * x[j + 8] - 156 * x[j + 9] + 53 * x[j + 10] - 11 * x[j + 11]
  }

  function Backward(x: seq<int>, j: nat): int
    requires j + 12 <= |x|
  {
    -11 * x[j] + 53 * x[j + 1] - 156 * x[j + 2] + 362 * x[j + 3] - 805 * x[j + 4] + 3876 * x[j + 5]
    + 951 * x[j + 6] - 210 * x[j + 7] + 32 * x[j + 8] + 12 * x[j + 9] - 11 * x[j + 10] + 3 * x[j + 11]
  }

  lemma DotNext(w: Window, rev: bool, i: nat)
    requires i < 12
    ensures Dot(w, rev, 0, i + 1) == Dot(w, rev, 0, i) + w[i] * Int(Coef(rev, i))
  {
    MulIsProduct(w[i], Coef(rev, i));
  }

  lemma DotIs(w: Window, rev: bool)
    ensures Dot(w, rev, 0, 12) == if rev then Backward(w, 0) else Forward(w, 0)
  {
    hide Dot, Mul;
    assert Dot(w, rev, 0, 0) == 0 by { DotNothing(w, rev); }
    DotNext(w, rev, 0);
    DotNext(w, rev, 1);
    DotNext(w, rev, 2);
    DotNext(w, rev, 3);
    DotNext(w, rev, 4);
    DotNext(w, rev, 5);
    DotNext(w, rev, 6);
    DotNext(w, rev, 7);
    DotNext(w, rev, 8);
    DotNext(w, rev, 9);
    DotNext(w, rev, 10);
    DotNext(w, rev, 11);
  }

  lemma DotNothing(w: Window, rev: bool)
    ensures Dot(w, rev, 0, 0) == 0
  {
  }

  /** Both filters in a row, in either order: a symmetric response of 23 samples, nearly all
      of it at its centre. */
  function Response(x: seq<int>): int
    requires |x| == 23
  {
    16779510 * x[11] + 2952 * (x[10] + x[12]) - 2325 * (x[9] + x[13]) - 141 * (x[8] + x[14]) - 432 * (x[7] + x[15])
    + 2668 * (x[6] + x[16]) - 1756 * (x[5] + x[17]) - 4263 * (x[4] + x[18]) + 3086 * (x[3] + x[19])
    - 1183 * (x[2] + x[20]) + 280 * (x[1] + x[21]) - 33 * (x[0] + x[22])
  }

  lemma ForwardSum(x: seq<int>)
    requires |x| == 23
    ensures -11 * Forward(x, 0) + 53 * Forward(x, 1) - 156 * Forward(x, 2) + 362 * Forward(x, 3) - 805 * Forward(x, 4)
            + 3876 * Forward(x, 5) + 951 * Forward(x, 6) - 210 * Forward(x, 7) + 32 * Forward(x, 8) + 12 * Forward(x, 9)
            - 11 * Forward(x, 10) + 3 * Forward(x, 11) == Response(x)
  {
  }

  lemma BackwardSum(x: seq<int>)
    requires |x| == 23
    ensures 3 * Backward(x, 0) - 11 * Backward(x, 1) + 12 * Backward(x, 2) + 32 * Backward(x, 3) - 210 * Backward(x, 4)
            + 951 * Backward(x, 5) + 3876 * Backward(x, 6) - 805 * Backward(x, 7) + 362 * Backward(x, 8)
            - 156 * Backward(x, 9) + 53 * Backward(x, 10) - 11 * Backward(x, 11) == Response(x)
  {
  }

  /** Windows that are, up to the factor 8192, a filter output f and an error below it. */
  ghost predicate Near(w: seq<int>, f: seq<int>, e: seq<int>) {
    |w| == |f| == |e| == 12 && forall j :: 0 <= j < 12 ==> 8192 * w[j] == f[j] + e[j] && -16384 < e[j] < 16384
  }

  lemma BackwardNear(w: seq<int>, f: seq<int>, e: seq<int>)
    requires Near(w, f, e)
    ensures 8192 * Backward(w, 0) == Backward(f, 0) + Backward(e, 0) && Abs(Backward(e, 0)) <= 6482 * 16384
  {
  }

  lemma ForwardNear(w: seq<int>, f: seq<int>, e: seq<int>)
    requires Near(w, f, e)
    ensures 8192 * Forward(w, 0) == Forward(f, 0) + Forward(e, 0) && Abs(Forward(e, 0)) <= 6482 * 16384
  {
  }

  function Forwards(x: seq<int>): (f: seq<int>)
    requires |x| == 23
    ensures |f| == 12
  {
    seq(12, j requires 0 <= j < 12 => Forward(x, j))
  }

  function Backwards(x: seq<int>): (f: seq<int>)
    requires |x| == 23
    ensures |f| == 12
  {
    seq(12, j requires 0 <= j < 12 => Backward(x, j))
  }

  lemma ForwardThenBackward(x: seq<int>)
    requires |x| == 23
    ensures Backward(Forwards(x), 0) == Response(x)
  {
    hide Forward, Response;
    ForwardSum(x);
  }

  lemma BackwardThenForward(x: seq<int>)
    requires |x| == 23
    ensures Forward(Backwards(x), 0) == Response(x)
  {
    hide Backward, Response;
    BackwardSum(x);
  }

  /** On samples within 16350 the response is the centre sample times 2^24, up to 40532 times
      the bound. */
  lemma ResponseBound(x: seq<int>)
    requires |x| == 23 && forall k :: 0 <= k < 23 ==> -16350 <= x[k] <= 16350
    ensures Abs(Response(x) - 0x100_0000 * x[11]) <= 40532 * 16350
  {
  }

  // ---------------------------------------------------------------- windows

  /** What the receive side pushes for a pair of windows: sum and difference of the bands. */
  function Plus(x: Window, y: Window): int16 { Wrap16(Int(LowBand(x, y)) + HighBand(x, y)) }

  function Minus(x: Window, y: Window): int16 { Wrap16(Int(LowBand(x, y)) - HighBand(x, y)) }

  /** Sum and difference take the two filters apart again. */
  lemma BandsSeparate(x: Window, y: Window)
    requires Within(x, 16350) && Within(y, 16350)
    ensures -16384 < 8192 * Plus(x, y) - Backward(y, 0) < 16384
    ensures -8192 < 8192 * Minus(x, y) - Forward(x, 0) < 8192
  {
    hide Dot, Within, Forward, Backward, LowBand, HighBand, Gain;
    DotIs(x, false);
    DotIs(y, true);
    AnalysisExact(x, y);
    DotBound(x, false, 16350, 12);
    DotBound(y, true, 16350, 12);
    GainIs(false);
    GainIs(true);
    SumAndDifference(Dot(x, false, 0, 12), Dot(y, true, 0, 12));
  }

  lemma SumAndDifference(f: int, b: int)
    requires Abs(f) <= 16350 * 6482 && Abs(b) <= 16350 * 6482
    ensures var l, h := (b + f) / 0x4000, (b - f) / 0x4000;
            && -16384 < 8192 * Wrap16(l + h) - b <= 0
            && -8192 < 8192 * Wrap16(l - h) - f < 8192
  {
    FitsExact((b + f) / 0x4000 + (b - f) / 0x4000);
    FitsExact((b + f) / 0x4000 - (b - f) / 0x4000);
  }

  ghost predicate AllLimited(x: seq<int16>) {
    forall k :: 0 <= k < |x| ==> -16350 <= x[k] <= 16350
  }

  lemma WindowLimited(x: seq<int16>, j: nat)
    requires AllLimited(x) && j + 12 <= |x|
    ensures Within(x[j..j + 12], 16350)
  {
  }

  lemma WindowFilters(x: seq<int16>, j: nat)
    requires j + 12 <= |x|
    ensures Forward(x[j..j + 12], 0) == Forward(x, j) && Backward(x[j..j + 12], 0) == Backward(x, j)
  {
  }

  lemma Separated(x: seq<int16>, y: seq<int16>, j: nat)
    requires AllLimited(x) && AllLimited(y) && j + 12 <= |x| == |y|
    ensures -16384 < 8192 * Plus(x[j..j + 12], y[j..j + 12]) - Backward(y, j) < 16384
    ensures -8192 < 8192 * Minus(x[j..j + 12], y[j..j + 12]) - Forward(x, j) < 8192
  {
    hide Plus, Minus, Forward, Backward, Within, AllLimited;
    WindowLimited(x, j);
    WindowLimited(y, j);
    WindowFilters(x, j);
    WindowFilters(y, j);
    BandsSeparate(x[j..j + 12], y[j..j + 12]);
  }

  /** The final shift of a filter sum that is the response up to the errors of its window. */
  lemma CentreSample(dot: int, response: int, error: int, centre: int)
    requires 8192 * dot == response + error && Abs(error) <= 6482 * 16384
    requires Abs(response - 0x100_0000 * centre) <= 40532 * 16350
    ensures Abs(dot / 2048 - centre) <= 46
  {
  }

  /** The first output sample, from the 23 limited pairs that reach it. */
  lemma FirstSample(x: seq<int16>, y: seq<int16>, w: Window)
    requires |x| == |y| == 23 && AllLimited(x) && AllLimited(y)
    requires forall j :: 0 <= j < 12 ==> w[j] == Minus(x[j..j + 12], y[j..j + 12])
    ensures Abs(Dot(w, true, 0, 12) / 2048 - x[11]) <= 46
  {
    hide Dot, Minus, Forward, Backward, Response;
    var e := seq(12, j requires 0 <= j < 12 => 8192 * Int(w[j]) - Forward(x, j));
    forall j | 0 <= j < 12 ensures -16384 < e[j] < 16384 {
      Separated(x, y, j);
    }
    BackwardNear(w, Forwards(x), e);
    ForwardThenBackward(x);
    ResponseBound(x);
    DotIs(w, true);
    CentreSample(Dot(w, true, 0, 12), Response(x), Backward(e, 0), x[11]);
  }

  lemma SecondSample(x: seq<int16>, y: seq<int16>, w: Window)
    requires |x| == |y| == 23 && AllLimited(x) && AllLimited(y)
    requires forall j :: 0 <= j < 12 ==> w[j] == Plus(x[j..j + 12], y[j..j + 12])
    ensures Abs(Dot(w, false, 0, 12) / 2048 - y[11]) <= 46
  {
    hide Dot, Plus, Forward, Backward, Response;
    var e := seq(12, j requires 0 <= j < 12 => 8192 * Int(w[j]) - Backward(y, j));
    forall j | 0 <= j < 12 ensures -16384 < e[j] < 16384 {
      Separated(x, y, j);
    }
    ForwardNear(w, Backwards(y), e);
    BackwardThenForward(y);
    ResponseBound(y);
    DotIs(w, false);
    CentreSample(Dot(w, false, 0, 12), Response(y), Forward(e, 0), y[11]);
  }

  // ---------------------------------------------------------------- runs

  /** The rings of both sides. */
  datatype Rings = Rings(ex: Window, ey: Window, dx: Window, dy: Window)

  /** The rings after a reset. */
  ghost predicate Silent(r: Rings) {
    forall i :: 0 <= i < 12 ==> r.ex[i] == r.ey[i] == r.dx[i] == r.dy[i] == 0
  }

  lemma ResetIsSilent(r: Rings)
    requires r.ex == CODEC_RESET.x && r.ey == CODEC_RESET.y && r.dx == CODEC_RESET.x && r.dy == CODEC_RESET.y
    ensures Silent(r)
  {
  }

  /** One pair of samples through both filters. */
  function Passed(cfg: Config, r: Rings, a: seq<int16>): (Rings, seq<int16>)
    requires !Single(cfg) && |a| == 2
  {
    var (ex, ey, p) := Analyse(cfg, r.ex, r.ey, a);
    var (dx, dy, out) := Synthesise(cfg, r.dx, r.dy, p.low, p.high);
    (Rings(ex, ey, dx, dy), out)
  }

  function PassedRun(cfg: Config, r: Rings, amp: seq<int16>): (y: (Rings, seq<int16>))
    requires !Single(cfg) && |amp| % 2 == 0
    ensures |y.1| == |amp|
  {
    if amp == [] then (r, [])
    else
      var n := |amp| - 2;
      var (before, out) := PassedRun(cfg, r, amp[..n]);
      var (next, more) := Passed(cfg, before, amp[n..]);
      (next, out + more)
  }

  /** The first or the second sample of every pair, limited, after 23 zeros. */
  function Phase(amp: seq<int16>, k: nat): (x: seq<int16>)
    requires |amp| % 2 == 0 && k < 2
    ensures |x| == 23 + |amp| / 2
  {
    if amp == [] then seq(23, _ => 0) else Phase(amp[..|amp| - 2], k) + [Limited(amp[|amp| - 2 + k])]
  }

  /** Position j of the receive rings holds what the bands of windows j to j + 11 of the last
      23 pairs give. */
  ghost predicate HeldAt(r: Rings, x: seq<int16>, y: seq<int16>, j: nat)
    requires 23 <= |x| == |y| && j < 12
  {
    var i := |x| - 23 + j;
    r.dx[j] == Plus(x[i..i + 12], y[i..i + 12]) && r.dy[j] == Minus(x[i..i + 12], y[i..i + 12])
  }

  /** The rings hold the last of the phases x and y, and what the bands of them give. */
  ghost predicate Held(r: Rings, x: seq<int16>, y: seq<int16>) {
    && 23 <= |x| == |y| && AllLimited(x) && AllLimited(y)
    && r.ex == x[|x| - 12..] && r.ey == y[|y| - 12..]
    && forall j :: 0 <= j < 12 ==> HeldAt(r, x, y, j)
  }

  lemma HeldReset(r: Rings, x: seq<int16>)
    requires Silent(r) && |x| == 23 && forall k :: 0 <= k < 23 ==> x[k] == 0
    ensures Held(r, x, x)
  {
    hide Plus, Minus;
    forall j | 0 <= j < 12 ensures HeldAt(r, x, x, j) {
      ZeroBands(x[j..j + 12], x[j..j + 12]);
    }
  }

  lemma ZeroBands(x: Window, y: Window)
    requires forall k :: 0 <= k < 12 ==> x[k] == y[k] == 0
    ensures Plus(x, y) == Minus(x, y) == 0
  {
    hide Dot;
    DotIs(x, false);
    DotIs(y, true);
  }

  lemma HeldNext(cfg: Config, r: Rings, x: seq<int16>, y: seq<int16>, a: seq<int16>)
    requires !Single(cfg) && |a| == 2 && Held(r, x, y)
    ensures Held(Passed(cfg, r, a).0, x + [Limited(a[0])], y + [Limited(a[1])])
  {
    hide Plus, Minus, LowBand, HighBand, Limited, Dot;
    var next := Passed(cfg, r, a).0;
    var x', y' := x + [Limited(a[0])], y + [Limited(a[1])];
    assert next.ex == x'[|x'| - 12..] && next.ey == y'[|y'| - 12..];
    forall j | 0 <= j < 12 ensures HeldAt(next, x', y', j) {
      var i := |x'| - 23 + j;
      if j < 11 {
        assert HeldAt(r, x, y, j + 1);
        assert x'[i..i + 12] == x[i..i + 12] && y'[i..i + 12] == y[i..i + 12];
      } else {
        PushedLast(cfg, r, a);
        assert x'[i..i + 12] == next.ex && y'[i..i + 12] == next.ey;
      }
    }
  }

  lemma PushedLast(cfg: Config, r: Rings, a: seq<int16>)
    requires !Single(cfg) && |a| == 2
    ensures var next := Passed(cfg, r, a).0;
            && next.dx[11] == Plus(next.ex, next.ey) && next.dy[11] == Minus(next.ex, next.ey)
            && next.dx[..11] == r.dx[1..] && next.dy[..11] == r.dy[1..]
  {
    hide LowBand, HighBand, Limited, Wrap16, Dot;
  }

  lemma {:induction false} RunHeld(cfg: Config, r: Rings, amp: seq<int16>)
    requires Silent(r) && !Single(cfg) && |amp| % 2 == 0
    ensures Held(PassedRun(cfg, r, amp).0, Phase(amp, 0), Phase(amp, 1))
    decreases |amp|
  {
    hide Passed, Held, Limited, Silent;
    if amp == [] {
      HeldReset(r, Phase(amp, 0));
      assert Phase(amp, 0) == Phase(amp, 1);
    } else {
      var n := |amp| - 2;
      RunHeld(cfg, r, amp[..n]);
      HeldNext(cfg, PassedRun(cfg, r, amp[..n]).0, Phase(amp[..n], 0), Phase(amp[..n], 1), amp[n..]);
    }
  }

  lemma {:induction false} PhaseAt(amp: seq<int16>, k: nat, i: nat)
    requires |amp| % 2 == 0 && k < 2 && 2 * i + k < |amp|
    ensures Phase(amp, k)[23 + i] == Limited(amp[2 * i + k])
    decreases |amp|
  {
    if 2 * i + 2 == |amp| {
    } else {
      PhaseAt(amp[..|amp| - 2], k, i);
    }
  }

  /** The pair the receive filter puts out, from what its rings have just become. */
  lemma PassedSamples(cfg: Config, r: Rings, a: seq<int16>, x: seq<int16>, y: seq<int16>)
    requires !Single(cfg) && |a| == 2 && Held(Passed(cfg, r, a).0, x, y)
    ensures var out := Passed(cfg, r, a).1;
            && |out| == 2
            && Abs(Int(out[0]) - x[|x| - 12]) <= 46 && Abs(Int(out[1]) - y[|y| - 12]) <= 46
  {
    hide Dot, Plus, Minus, LowBand, HighBand, Limited, AllLimited;
    var next := Passed(cfg, r, a).0;
    var last, last' := x[|x| - 23..], y[|y| - 23..];
    forall j | 0 <= j < 12
      ensures next.dx[j] == Plus(last[j..j + 12], last'[j..j + 12])
      ensures next.dy[j] == Minus(last[j..j + 12], last'[j..j + 12])
    {
      assert HeldAt(next, x, y, j);
      LastWindow(x, j);
      LastWindow(y, j);
    }
    TailLimited(x);
    TailLimited(y);
    FirstSample(last, last', next.dy);
    SecondSample(last, last', next.dx);
  }

  lemma LastWindow(x: seq<int16>, j: nat)
    requires 23 <= |x| && j < 12
    ensures x[|x| - 23..][j..j + 12] == x[|x| - 23 + j..|x| - 23 + j + 12]
  {
  }

  lemma TailLimited(x: seq<int16>)
    requires 23 <= |x| && AllLimited(x)
    ensures AllLimited(x[|x| - 23..]) && x[|x| - 23..][11] == x[|x| - 12]
  {
  }

  /** Transmit and receive filter in a row delay every input by 22 samples and change it by
      at most 46, limiting apart: from reset, for every input, when the bands are passed on
      as they are. */
  lemma MirrorDelay(cfg: Config, r: Rings, amp: seq<int16>, k: nat)
    requires Silent(r) && !Single(cfg) && |amp| % 2 == 0 && |amp| >= 24 && k < 2
    ensures Abs(Int(PassedRun(cfg, r, amp).1[|amp| - 2 + k]) - Limited(amp[|amp| - 24 + k])) <= 46
  {
    hide Passed, Held, Limited, Phase, Silent;
    var n := |amp| - 2;
    RunHeld(cfg, r, amp);
    PassedSamples(cfg, PassedRun(cfg, r, amp[..n]).0, amp[n..], Phase(amp, 0), Phase(amp, 1));
    PhaseAt(amp, k, |amp| / 2 - 12);
  }

  /** A constant pair of samples comes out as it went in, up to three, without the ripple. */
  lemma ConstantPair(cfg: Config, r: Rings, a: int16, b: int16)
    requires !Single(cfg) && -16350 <= a <= 16350 && -16350 <= b <= 16350
    requires forall i :: 0 <= i < 12 ==> r.ex[i] == a && r.ey[i] == b
    requires forall i :: 0 <= i < 12 ==> r.dx[i] == Plus(r.ex, r.ey) && r.dy[i] == Minus(r.ex, r.ey)
    ensures var out := Passed(cfg, r, [a, b]).1;
            |out| == 2 && Abs(Int(out[0]) - a) <= 3 && Abs(Int(out[1]) - b) <= 3
  {
    hide Dot, Plus, Minus, Limited;
    var next := Passed(cfg, r, [a, b]).0;
    assert Limited(a) == a && Limited(b) == b by { LimitedKeeps(a); LimitedKeeps(b); }
    assert next.ex == r.ex && next.ey == r.ey;
    PushedLast(cfg, r, [a, b]);
    ConstantBands(r.ex, r.ey, a, b);
    forall i | 0 <= i < 12 ensures next.dx[i] == r.dx[0] && next.dy[i] == r.dy[0] {
      if i < 11 { assert next.dx[i] == next.dx[..11][i] && next.dy[i] == next.dy[..11][i]; }
    }
    DotConstant(next.dx, false, r.dx[0]);
    DotConstant(next.dy, true, r.dy[0]);
  }

  lemma LimitedKeeps(a: int16)
    requires -16350 <= a <= 16350
    ensures Limited(a) == a
  {
  }

  /** The coefficients add up to 4096. */
  lemma DotConstant(w: Window, rev: bool, c: int16)
    requires forall i :: 0 <= i < 12 ==> w[i] == c
    ensures Dot(w, rev, 0, 12) == 4096 * Int(c)
  {
    hide Dot;
    DotIs(w, rev);
  }

  lemma ConstantBands(x: Window, y: Window, a: int16, b: int16)
    requires -16350 <= a <= 16350 && -16350 <= b <= 16350
    requires forall i :: 0 <= i < 12 ==> x[i] == a && y[i] == b
    ensures 2 * Int(b) - 6 <= 4 * Int(Plus(x, y)) <= 2 * Int(b) && Abs(4 * Int(Minus(x, y)) - 2 * Int(a)) <= 3
  {
    hide Dot, Wrap16;
    DotConstant(x, false, a);
    DotConstant(y, true, b);
    FitsExact((Int(b) + a) / 4);
    FitsExact((Int(b) - a) / 4);
    FitsExact((Int(b) + a) / 4 + (Int(b) - a) / 4);
    FitsExact((Int(b) + a) / 4 - (Int(b) - a) / 4);
    assert (4096 * Int(b) + 4096 * Int(a)) / 0x4000 == (Int(b) + a) / 4;
    assert (4096 * Int(b) - 4096 * Int(a)) / 0x4000 == (Int(b) - a) / 4;
  }
}
