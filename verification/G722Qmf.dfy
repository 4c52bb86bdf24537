/** The quadrature mirror filters of G.722 over ring buffers, and the vector routines they
    call. */
module G722Qmf {
  import opened FixedPoint
  import opened G722Quant

  /** The last twelve samples, oldest first. */
  type Window = s: seq<int16> | |s| == 12 witness [0, 0, 0, 0, 0, 0, 0, 0, 0, 0, 0, 0]

  /** qmf_coeffs_fwd, or qmf_coeffs_rev when reversed. */
  function Coef(rev: bool, i: nat): (c: int16)
    requires i < 12
    ensures -3876 <= c <= 3876
  {
    match if rev then 11 - i else i
    case 0 => 3
    case 1 => -11
    case 2 => 12
    case 3 => 32
    case 4 => -210
    case 5 => 951
    case 6 => 3876
    case 7 => -805
    case 8 => 362
    case 9 => -156
    case 10 => 53
    case _ => -11
  }

  /** Terms lo to hi - 1 of the product of window and coefficients. */
  function Dot(w: Window, rev: bool, lo: nat, hi: nat): int
    requires lo <= hi <= 12
  {
    if lo == hi then 0 else Dot(w, rev, lo, hi - 1) + Mul(w[hi - 1], Coef(rev, hi - 1))
  }

  lemma {:induction false} DotSplit(w: Window, rev: bool, mid: nat, hi: nat)
    requires mid <= hi <= 12
    ensures Dot(w, rev, 0, hi) == Dot(w, rev, 0, mid) + Dot(w, rev, mid, hi)
  {
    hide Mul, Coef;
    if mid >= hi {
    } else {
      DotSplit(w, rev, mid, hi - 1);
    }
  }

  /** The magnitudes of the first n coefficients, summed. */
  function Gain(rev: bool, n: nat): (g: nat)
    requires n <= 12
  {
    if n == 0 then 0 else Gain(rev, n - 1) + Abs(Coef(rev, n - 1))
  }

  lemma GainIs(rev: bool)
    ensures Gain(rev, 12) == 6482
  {
    assert Gain(rev, 1) == if rev then 11 else 3;
    assert Gain(rev, 2) == if rev then 64 else 14;
    assert Gain(rev, 4) == if rev then 582 else 58;
    assert Gain(rev, 6) == if rev then 5263 else 1219;
    assert Gain(rev, 8) == if rev then 6424 else 5900;
    assert Gain(rev, 10) == if rev then 6468 else 6418;
  }

  ghost predicate Within(w: Window, bound: int) {
    forall i :: 0 <= i < 12 ==> -bound <= w[i] <= bound
  }

  lemma {:induction false} DotBound(w: Window, rev: bool, bound: int, n: nat)
    requires n <= 12 && 0 <= bound && Within(w, bound)
    ensures -(bound * Gain(rev, n)) <= Dot(w, rev, 0, n) <= bound * Gain(rev, n)
  {
    hide Mul, Coef, Within;
    if n == 0 {
    } else {
      DotBound(w, rev, bound, n - 1);
      assert -bound <= w[n - 1] <= bound by { WithinAt(w, bound, n - 1); }
      TermBound(w[n - 1], Coef(rev, n - 1), bound, Gain(rev, n - 1), Dot(w, rev, 0, n - 1));
    }
  }

  lemma WithinAt(w: Window, bound: int, i: nat)
    requires Within(w, bound) && i < 12
    ensures -bound <= w[i] <= bound
  {
  }

  /** One more term of a bounded sum. */
  lemma TermBound(x: int, c: int, bound: int, g: nat, sum: int)
    requires -bound <= x <= bound && -(bound * g) <= sum <= bound * g
    ensures -(bound * (g + Abs(c))) <= sum + Mul(x, c) <= bound * (g + Abs(c))
  {
    hide Mul;
    MulIsProduct(x, c);
    MulBound(x, c, bound, Abs(c));
    Distribute(bound, g, Abs(c));
  }

  lemma Distribute(a: int, b: int, c: int)
    ensures a * (b + c) == a * b + a * c
  {
  }

  lemma {:induction false} DotFits(w: Window, rev: bool, lo: nat, hi: nat)
    requires lo <= hi <= 12
    ensures -0x800_0000 * (hi - lo) <= Dot(w, rev, lo, hi) <= 0x800_0000 * (hi - lo)
  {
    hide Mul, Coef;
    if lo >= hi {
    } else {
      DotFits(w, rev, lo, hi - 1);
      var c := Coef(rev, hi - 1);
      MulIsProduct(w[hi - 1], c);
      MulBound(w[hi - 1], c, 0x8000, 3876);
    }
  }

  // ---------------------------------------------------------------- analysis and synthesis

  /** A sample enters, the oldest leaves. */
  function Pushed(w: Window, x: int16): Window { w[1..] + [x] }

  /** The input limiter of the encoder. */
  function Limited(x: int16): (y: int16)
    ensures -16350 <= y <= 16350
  {
    if x > 16350 then 16350 else if x < -16350 then -16350 else x
  }

  function LowBand(x: Window, y: Window): int16 {
    Wrap16((Dot(y, true, 0, 12) + Dot(x, false, 0, 12)) / 0x4000)
  }

  function HighBand(x: Window, y: Window): int16 {
    Wrap16((Dot(y, true, 0, 12) - Dot(x, false, 0, 12)) / 0x4000)
  }

  /** On limited input the filter sums stay inside 32 bits and neither band is truncated. */
  lemma AnalysisExact(x: Window, y: Window)
    requires Within(x, 16350) && Within(y, 16350)
    ensures -0x4000_0000 <= Dot(y, true, 0, 12) <= 0x4000_0000
    ensures -0x4000_0000 <= Dot(x, false, 0, 12) <= 0x4000_0000
    ensures LowBand(x, y) == (Dot(y, true, 0, 12) + Dot(x, false, 0, 12)) / 0x4000
    ensures HighBand(x, y) == (Dot(y, true, 0, 12) - Dot(x, false, 0, 12)) / 0x4000
  {
    hide Dot, Gain, Within;
    DotBound(x, false, 16350, 12);
    DotBound(y, true, 16350, 12);
    GainIs(false);
    GainIs(true);
  }

  /** saturate15 */
  function Saturate15(x: int): (y: int16)
    ensures -16384 <= y <= 16383
  {
    if x > 16383 then 16383 else if x < -16384 then -16384 else x
  }

  // ---------------------------------------------------------------- ring buffers

  /** The window a ring buffer holds when position p is to be written next. */
  function Unrolled(s: Window, p: nat): Window
    requires p < 12
  {
    s[p..] + s[..p]
  }

  lemma UnrolledPush(s: Window, p: nat, x: int16)
    requires p < 12
    ensures Unrolled(s[p := x], if p + 1 >= 12 then 0 else p + 1) == Pushed(Unrolled(s, p), x)
  {
  }

  lemma UnrolledReset(p: nat)
    requires p < 12
    ensures Unrolled(seq(12, _ => 0), p) == seq(12, _ => 0)
  {
  }

  /** vec_dot_prodi16 over x[xs..xs + n] and the coefficients from cs on. */
  method DotProduct(x: array<int16>, xs: nat, rev: bool, cs: nat, n: nat, ghost w: Window) returns (z: int32)
    requires xs + n <= x.Length && cs + n <= 12
    requires x[xs..xs + n] == w[cs..cs + n]
    ensures z == Dot(w, rev, cs, cs + n)
  {
    hide Mul, Coef;
    z := 0;
    for i := 0 to n
      invariant z == Dot(w, rev, cs, cs + i)
    {
      DotFits(w, rev, cs, cs + i + 1);
      assert x[xs + i] == x[xs..xs + n][i] == w[cs + i];
      z := z + Mul(x[xs + i], Coef(rev, cs + i));
    }
  }

  /** vec_circular_dot_prodi16: two straight pieces give the product of the window. */
  method CircularDotProduct(x: array<int16>, rev: bool, pos: nat) returns (z: int32)
    requires x.Length == 12 && pos < 12
    ensures z == Dot(Unrolled(x[..], pos), rev, 0, 12)
  {
    hide Dot;
    ghost var w := Unrolled(x[..], pos);
    z := DotProduct(x, pos, rev, 0, 12 - pos, w);
    var z2: int32 := DotProduct(x, 0, rev, 12 - pos, pos, w);
    DotSplit(w, rev, 12 - pos, 12);
    DotFits(w, rev, 0, 12);
    z := z + z2;
  }
}
