/** One sub-band of the G.722 codec: the adaptive predictor of block4 (section 6.2 of ITU-T
    G.722), its stability limits, and the object that updates it in place. */
module G722Band {
  import opened FixedPoint

  type Delays = s: seq<int16> | |s| == 7 witness [0, 0, 0, 0, 0, 0, 0]
  type Zeros = s: seq<int16> | |s| == 6 witness [0, 0, 0, 0, 0, 0]

  /** g722_band_t: the predictor's signals and coefficients, and the scale factor. */
  datatype Band = Band(s: int16, sz: int16, r: int16, a0: int16, a1: int16, p0: int16, p1: int16,
                       d: Delays, b: Zeros, nb: int16, det: int16)

  /** ((a ^ b) & 0x8000) != 0 */
  predicate SignsDiffer(a: int16, b: int16) { (a < 0) != (b < 0) }

  // ---------------------------------------------------------------- pole section

  /** A coefficient times 255/256. */
  function Leaked(x: int16): (y: int)
    ensures -32640 <= y <= 32639
  {
    x * 32640 / 0x8000
  }

  /** The second pole coefficient before its conversion to 16 bits. */
  function Pole2Sum(st: Band, p: int16): int {
    var w: int := Saturate(4 * st.a0);
    (if SignsDiffer(p, st.p1) then -128 else 128)
    + Min(if SignsDiffer(p, st.p0) then w else -w, 32767) / 128
    + st.a1 * 32512 / 0x8000
  }

  /** x limited to -m..m */
  function Clip(x: int, m: int): (y: int)
    ensures m >= 0 ==> -m <= y <= m
    ensures -m <= x <= m ==> y == x
  {
    if Abs(x) > m then (if x < 0 then -m else m) else x
  }

  function Pole2(st: Band, p: int16): (a: int16)
    ensures -12288 <= a <= 12288
  {
    Clip(Wrap16(Pole2Sum(st, p)), 12288)
  }

  function Pole1(st: Band, p: int16, a1: int16): (a: int16)
    requires -12288 <= a1 <= 12288
    ensures -(15360 - a1) <= a <= 15360 - a1
  {
    Clip(SatAdd16(if SignsDiffer(p, st.p0) then -192 else 192, Wrap16(Leaked(st.a0))), SatSub16(15360, a1))
  }

  /** Coefficient times sample, in Q15. */
  function Tap(a: int16, x: int16): int16 { Wrap16(Mul(a, x) / 0x8000) }

  // ---------------------------------------------------------------- zero section

  /** Zero coefficient b with delayed difference d, after the difference dx. */
  function NextZero(b: int16, d: int16, dx: int16): int16 {
    var w := if dx == 0 then 0 else 128;
    SatAdd16(if SignsDiffer(d, dx) then -w else w, Wrap16(Leaked(b)))
  }

  function NextZeros(b: Zeros, d: Delays, dx: int16): Zeros {
    seq(6, i requires 0 <= i < 6 => NextZero(b[i], d[i + 1], dx))
  }

  /** The delay line after dx has entered twice, at d[0] and d[1]. */
  function NextDelays(d: Delays, dx: int16): Delays {
    seq(7, i requires 0 <= i < 7 => if i <= 1 then dx else d[i - 1])
  }

  /** What coefficients k to 5 predict from the delay line. */
  function ZeroSum(b: Zeros, d: Delays, k: nat): int
    requires k <= 6
    decreases 6 - k
  {
    if k == 6 then 0 else ZeroSum(b, d, k + 1) + Mul(b[k], SatAdd16(d[k + 1], d[k + 1])) / 0x8000
  }

  // ---------------------------------------------------------------- block4

  /** The predictor after the quantised difference dx: all coefficients move at once. */
  function Block4(st: Band, dx: int16): Band {
    var r := SatAdd16(st.s, dx);
    var p := SatAdd16(st.sz, dx);
    var a1 := Pole2(st, p);
    var a0 := Pole1(st, p, a1);
    var sp := SatAdd16(Tap(a0, SatAdd16(r, r)), Tap(a1, SatAdd16(st.r, st.r)));
    var b := NextZeros(st.b, st.d, dx);
    var d := NextDelays(st.d, dx);
    var sz := Saturate(ZeroSum(b, d, 0));
    Band(SatAdd16(sp, sz), sz, r, a0, a1, p, st.p0, d, b, st.nb, st.det)
  }

  /** The stability triangle of the pole section. */
  ghost predicate Stable(st: Band) {
    -12288 <= st.a1 <= 12288 && -(15360 - st.a1) <= st.a0 <= 15360 - st.a1
  }

  /** A stable coefficient is never -1.0, so its tap needs no more than 16 bits. */
  lemma TapExact(a: int16, x: int16)
    requires a != MIN16
    ensures Fits16(Mul(a, x) / 0x8000) && Tap(a, x) == Mul(a, x) / 0x8000
  {
    hide Mul;
    Q15Bound(a, x);
  }

  /** The adaptation of a zero coefficient needs no saturation and no truncation: leakage
      balances the largest step exactly at the ends of the range. */
  lemma NextZeroExact(b: int16, d: int16, dx: int16)
    ensures var w := if dx == 0 then 0 else 128;
            NextZero(b, d, dx) == (if SignsDiffer(d, dx) then -w else w) + Leaked(b)
  {
    FitsExact(Leaked(b));
  }

  lemma {:induction false} ZeroSumBound(b: Zeros, d: Delays, k: nat)
    requires k <= 6
    ensures -0x8000 * (6 - k) <= ZeroSum(b, d, k) <= 0x8000 * (6 - k)
    decreases 6 - k
  {
    hide Mul, SatAdd16;
    if k >= 6 {
    } else {
      ZeroSumBound(b, d, k + 1);
      Q15Bound(b[k], SatAdd16(d[k + 1], d[k + 1]));
    }
  }

  /** Whatever the state, one step puts the poles into the stability triangle; and from a
      stable state no conversion to 16 bits truncates and the zero section's sum stays far
      inside 32 bits. */
  lemma Block4Exact(st: Band, dx: int16)
    ensures Stable(Block4(st, dx))
    ensures Stable(st) ==> Fits16(Pole2Sum(st, SatAdd16(st.sz, dx)))
    ensures var st' := Block4(st, dx);
            && Fits16(Mul(st'.a0, SatAdd16(st'.r, st'.r)) / 0x8000)
            && Fits16(Mul(st'.a1, SatAdd16(st.r, st.r)) / 0x8000)
            && -0x3_0000 <= ZeroSum(st'.b, st'.d, 0) <= 0x3_0000
  {
    hide NextZeros, NextDelays, ZeroSum, Mul, Pole1, Pole2, Pole2Sum, Saturate, SatAdd16, Wrap16;
    var st' := Block4(st, dx);
    if Stable(st) { Pole2SumFits(st, SatAdd16(st.sz, dx)); }
    assert Stable(st');
    assert Fits16(Mul(st'.a0, SatAdd16(st'.r, st'.r)) / 0x8000) by { TapExact(st'.a0, SatAdd16(st'.r, st'.r)); }
    assert Fits16(Mul(st'.a1, SatAdd16(st.r, st.r)) / 0x8000) by { TapExact(st'.a1, SatAdd16(st.r, st.r)); }
    ZeroSumBound(st'.b, st'.d, 0);
  }

  lemma Pole2SumFits(st: Band, p: int16)
    requires Stable(st)
    ensures Fits16(Pole2Sum(st, p))
  {
  }

  // ---------------------------------------------------------------- what adaptation does

  /** Each zero coefficient moves so that the prediction from the same delayed difference
      follows dx: by one step, on top of the leakage. */
  lemma ZeroFollows(b: int16, d: int16, dx: int16)
    ensures var move := Int(NextZero(b, d, dx)) - Leaked(b);
            && (dx > 0 ==> move * d == 128 * Abs(d))
            && (dx < 0 ==> move * d == -128 * Abs(d))
            && (dx == 0 ==> move == 0)
  {
    NextZeroExact(b, d, dx);
  }

  /** The first pole coefficient moves with the agreement of the last two partial signals, by
      one step on top of the leakage, as long as it keeps to its limit. */
  lemma PoleFollows(st: Band, p: int16, a1: int16)
    requires Stable(st) && -12288 <= a1 <= 12288
    ensures var a, goal := Pole1(st, p, a1), Leaked(st.a0) + if SignsDiffer(p, st.p0) then -192 else 192;
            && (Abs(goal) <= 15360 - a1 ==> a == goal)
            && (goal > 15360 - a1 ==> a == 15360 - Int(a1)) && (goal < -(15360 - a1) ==> a == -(15360 - Int(a1)))
  {
  }

  /** The second moves with the agreement of the partial signal and the one before the last, and
      against what the first has already taken up, four times a0 in 128ths. */
  lemma SecondPoleFollows(st: Band, p: int16)
    requires Stable(st) && -8191 <= st.a0 <= 8191
    ensures var step := if SignsDiffer(p, st.p1) then -128 else 128;
            var pull := if SignsDiffer(p, st.p0) then 4 * Int(st.a0) else -4 * Int(st.a0);
            && 128 * step + pull + 127 * Int(st.a1) - 256 < 128 * Pole2Sum(st, p) <= 128 * step + pull + 127 * Int(st.a1)
            && (-12288 <= Pole2Sum(st, p) <= 12288 ==> Int(Pole2(st, p)) == Pole2Sum(st, p))
  {
  }

  /** What the coefficients k to 5 predict, in Q15 and without rounding. */
  function Convolution(b: Zeros, d: Delays, k: nat): int
    requires k <= 6
    decreases 6 - k
  {
    if k == 6 then 0 else Convolution(b, d, k + 1) + 2 * (Int(b[k]) * d[k + 1])
  }

  /** The zero section is the convolution of its coefficients with the delayed differences,
      each product rounded down. */
  lemma {:induction false} ZeroSumIsConvolution(b: Zeros, d: Delays, k: nat)
    requires k <= 6 && forall i :: 0 <= i < 7 ==> -16384 <= d[i] <= 16383
    ensures Convolution(b, d, k) - 0x8000 * (6 - k) <= 0x8000 * ZeroSum(b, d, k) <= Convolution(b, d, k)
    decreases 6 - k
  {
    hide Mul;
    if k == 6 {
    } else {
      ZeroSumIsConvolution(b, d, k + 1);
      var x: int := d[k + 1];
      MulIsProduct(b[k], 2 * x);
      assert Int(b[k]) * (2 * x) == 2 * (Int(b[k]) * x);
    }
  }

  function Poles(a0: int, r0: int, a1: int, r1: int): int { 2 * (a0 * r0) + 2 * (a1 * r1) }

  /** The prediction for the next sample is the linear one: poles on the last two
      reconstructed samples, zeros on the last six differences, the newest included, rounded
      down by less than eight units, as long as nothing is clipped. */
  lemma PredictsLinearly(st: Band, dx: int16)
    requires Stable(st) && -16384 <= Int(st.s) + dx <= 16383 && -16384 <= st.r <= 16383
    requires var n := Block4(st, dx);
             && (forall i :: 0 <= i < 7 ==> -16384 <= n.d[i] <= 16383)
             && var sp := Int(Tap(n.a0, SatAdd16(n.r, n.r))) + Tap(n.a1, SatAdd16(st.r, st.r));
                Fits16(sp) && Fits16(ZeroSum(n.b, n.d, 0)) && Fits16(sp + ZeroSum(n.b, n.d, 0))
    ensures var n := Block4(st, dx);
            var sum := Poles(n.a0, Int(st.s) + dx, n.a1, st.r) + Convolution(n.b, n.d, 0);
            sum - 0x4_0000 < 0x8000 * Int(n.s) <= sum
  {
    hide NextZeros, NextDelays, ZeroSum, Convolution, Mul, Pole1, Pole2, Tap;
    var n := Block4(st, dx);
    ZeroSumIsConvolution(n.b, n.d, 0);
    TapIs(n.a0, n.r);
    TapIs(n.a1, st.r);
  }

  lemma TapIs(a: int16, r: int16)
    requires a != MIN16 && -16384 <= r <= 16383
    ensures 2 * (Int(a) * r) - 0x8000 < 0x8000 * Int(Tap(a, SatAdd16(r, r))) <= 2 * (Int(a) * r)
  {
    hide Mul, Tap;
    var x: int16 := 2 * Int(r);
    TapExact(a, x);
    MulIsProduct(a, x);
    assert Int(a) * (2 * Int(r)) == 2 * (Int(a) * r);
  }

  // ---------------------------------------------------------------- in place

  lemma ZeroSumEnd(b: Zeros, d: Delays)
    ensures ZeroSum(b, d, 6) == 0
  {
  }

  /** What the pass does at coefficient i, on the way from i = 5 down to 0. */
  lemma ZeroStep(b: Zeros, d: Delays, dx: int16, i: nat)
    requires i < 6
    ensures NextZeros(b, d, dx)[i] == NextZero(b[i], d[i + 1], dx)
    ensures NextDelays(d, dx)[i + 1] == if i == 0 then dx else d[i]
    ensures NextDelays(d, dx)[0] == dx
    ensures var b1, d1 := NextZeros(b, d, dx), NextDelays(d, dx);
            ZeroSum(b1, d1, i) == ZeroSum(b1, d1, i + 1) + Mul(b1[i], SatAdd16(d1[i + 1], d1[i + 1])) / 0x8000
  {
    hide Mul, SatAdd16, NextZero;
  }

  class BandObject {
    var s: int16
    var sz: int16
    var r: int16
    var a0: int16
    var a1: int16
    var p0: int16
    var p1: int16
    var nb: int16
    var det: int16
    const d: array<int16>
    const b: array<int16>

    ghost predicate Valid()
      reads this
    {
      d.Length == 7 && b.Length == 6 && d != b
    }

    ghost function View(): Band
      reads this, d, b
      requires Valid()
    {
      Band(s, sz, r, a0, a1, p0, p1, d[..], b[..], nb, det)
    }

    constructor (det: int16)
      ensures Valid() && fresh(d) && fresh(b)
      ensures View() == Reset(det)
    {
      this.det := det;
      s, sz, r, a0, a1, p0, p1, nb := 0, 0, 0, 0, 0, 0, 0, 0;
      d := new int16[7](_ => 0);
      b := new int16[6](_ => 0);
    }

    /** The zero section: coefficients adapt, the sum collects and the delay line moves in
        one descending pass over the arrays. */
    method UpdateZeros(dx: int16) returns (sum: int32)
      requires Valid()
      modifies d, b
      ensures b[..] == NextZeros(old(b[..]), old(d[..]), dx) && d[..] == NextDelays(old(d[..]), dx)
      ensures sum == ZeroSum(b[..], d[..], 0)
    {
      hide Mul, SatAdd16, Leaked, Wrap16, NextZeros, NextDelays, ZeroSum;
      ghost var b0: Zeros, d0: Delays := b[..], d[..];
      ghost var b1, d1 := NextZeros(b0, d0, dx), NextDelays(d0, dx);
      ZeroSumEnd(b1, d1);
      var wd1 := if dx == 0 then 0 else 128;
      d[0] := dx;
      sum := 0;
      var i := 6;
      while i > 0
        invariant 0 <= i <= 6
        invariant forall k :: 1 <= k <= i ==> d[k] == d0[k]
        invariant forall k :: i < k < 7 ==> d[k] == d1[k]
        invariant d[0] == dx
        invariant forall k :: 0 <= k < i ==> b[k] == b0[k]
        invariant forall k :: i <= k < 6 ==> b[k] == b1[k]
        invariant sum == ZeroSum(b1, d1, i)
      {
        i := i - 1;
        ZeroSumBound(b1, d1, i);
        ZeroStep(b0, d0, dx, i);
        var wd2 := if SignsDiffer(d[i + 1], dx) then -wd1 else wd1;
        var wd3 := Wrap16(Leaked(b[i]));
        b[i] := SatAdd16(wd2, wd3);
        wd3 := SatAdd16(d[i], d[i]);
        sum := sum + Mul(b[i], wd3) / 0x8000;
        d[i + 1] := d[i];
      }
      ZeroStep(b0, d0, dx, 0);
      assert b[..] == b1 && d[..] == d1;
    }

    /** block4 */
    method Update(dx: int16)
      requires Valid()
      modifies this, d, b
      ensures Valid() && View() == Block4(old(View()), dx)
    {
      hide NextZeros, NextDelays, ZeroSum, Mul, SatAdd16, Wrap16;
      ghost var st := View();
      var rr := SatAdd16(s, dx);
      var p := SatAdd16(sz, dx);
      var ap1 := UpdatePole2(p);
      var ap0 := UpdatePole1(p, ap1);
      var wd1 := SatAdd16(rr, rr);
      wd1 := Tap(ap0, wd1);
      var wd2 := SatAdd16(r, r);
      wd2 := Tap(ap1, wd2);
      var sp := SatAdd16(wd1, wd2);
      r := rr;
      a1 := ap1;
      a0 := ap0;
      p1 := p0;
      p0 := p;
      var sum := UpdateZeros(dx);
      sz := Saturate(sum);
      s := SatAdd16(sp, sz);
    }

    method UpdatePole2(p: int16) returns (ap: int16)
      requires Valid()
      ensures ap == Pole2(View(), p)
    {
      var wd1: int := Saturate(a0 * 4);
      var wd32 := if SignsDiffer(p, p0) then wd1 else -wd1;
      if wd32 > 32767 {
        wd32 := 32767;
      }
      var sum := (if SignsDiffer(p, p1) then -128 else 128) + wd32 / 128 + a1 * 32512 / 0x8000;
      var wd3: int := Wrap16(sum);
      if Abs(wd3) > 12288 {
        wd3 := if wd3 < 0 then -12288 else 12288;
      }
      ap := wd3;
    }

    method UpdatePole1(p: int16, ap1: int16) returns (ap: int16)
      requires Valid() && -12288 <= ap1 <= 12288
      ensures ap == Pole1(View(), p, ap1)
    {
      var wd1 := if SignsDiffer(p, p0) then -192 else 192;
      var wd2 := Wrap16(Leaked(a0));
      var sum: int := SatAdd16(wd1, wd2);
      var wd3: int := SatSub16(15360, ap1);
      if Abs(sum) > wd3 {
        sum := if sum < 0 then -wd3 else wd3;
      }
      ap := sum;
    }
  }

  /** A band after reset. */
  function Reset(det: int16): Band {
    Band(0, 0, 0, 0, 0, 0, 0, seq(7, _ => 0), seq(6, _ => 0), 0, det)
  }
}
