/** GSM 06.10 LPC analysis: autocorrelation with block scaling, the Schur recursion for
    the reflection coefficients, and the coding of the log area ratios
    (sections 4.2.4 to 4.2.7 of GSM 06.10). */
module GsmLpc {
  import opened FixedPoint
  import opened GsmArith
  import opened GsmShortTerm

  const FRAME_LEN: nat := 160

  // ---------------------------------------------------------------- division

  /** What gsm_div is for: num / denom in Q15, rounded down and kept below 1.0. */
  function Quotient(num: int16, denom: int16): (q: int16)
    requires 0 <= num <= denom
    ensures 0 <= q
  {
    if num == 0 then 0 else (QuotientFits(num, denom); Min(0x7fff, num * 0x8000 / denom))
  }

  lemma QuotientMeans(num: int16, denom: int16)
    requires 0 <= num <= denom && denom > 0
    ensures Quotient(num, denom) as int == Min(0x7fff, num as int * 0x8000 / denom)
  {
    if num == 0 { DivIs(0, denom, 0, 0); }
  }

  lemma QuotientFits(num: int, denom: int)
    requires 0 <= num && 0 < denom
    ensures num * 0x8000 / denom >= 0
  {
  }

  /** The state of the bit-by-bit division after k steps: num * 2^k in terms of the
      quotient bits found so far and the remainder. */
  ghost predicate Divided(num: int, denom: int, k: nat, div: int, rem: int) {
    && num * Pow2(k) == div * denom + rem
    && (if num < denom then 0 <= rem < denom else rem == denom && div == Pow2(k) - 1)
    && 0 <= div < Pow2(k)
  }

  lemma DividedStep(num: int, denom: int, k: nat, div: int, rem: int)
    requires 0 < num <= denom && Divided(num, denom, k, div, rem)
    ensures 2 * rem >= denom ==> Divided(num, denom, k + 1, 2 * div + 1, 2 * rem - denom)
    ensures 2 * rem < denom ==> Divided(num, denom, k + 1, 2 * div, 2 * rem)
  {
    var p, q := Pow2(k), Pow2(k + 1);
    assert q == 2 * p;
    hide Pow2;
    DoubledProduct(num, p, q);
    DoubledProduct(denom, div, 2 * div);
    assert (2 * div + 1) * denom == 2 * div * denom + denom;
  }

  lemma DoubledProduct(a: int, b: int, c: int)
    requires c == 2 * b
    ensures a * c == 2 * (a * b) && c * a == 2 * (b * a)
  {
  }

  lemma DividedQuotient(num: int16, denom: int16, div: int, rem: int)
    requires 0 < num <= denom && Divided(num, denom, 15, div, rem)
    ensures div == Quotient(num, denom)
  {
    Pow2Table();
    if num < denom {
      DivIs(num * 0x8000, denom, div, rem);
    } else {
      DivIs(num * 0x8000, denom, 0x8000, 0);
    }
  }

  method GsmDiv(num: int16, denom: int16) returns (div: int16)
    requires 0 <= num <= denom
    ensures div == Quotient(num, denom)
  {
    if num == 0 {
      return 0;
    }
    var num32: int32 := num;
    div := 0;
    var k := 15;
    while k > 0
      invariant 0 <= k <= 15
      invariant Divided(num, denom, 15 - k, div, num32)
    {
      DividedStep(num, denom, 15 - k, div, num32);
      Pow2Mono(16 - k, 15);
      Pow2Table();
      k := k - 1;
      div := div * 2;
      num32 := num32 * 2;
      if num32 >= denom {
        num32 := num32 - denom;
        div := div + 1;
      }
    }
    DividedQuotient(num, denom, div, num32);
  }

  // ---------------------------------------------------------------- autocorrelation

  /** The number of bits the frame is scaled down by; not positive when it needs none. */
  function ScalAuto(peak: int16): int
    requires 0 <= peak
  {
    if peak == 0 then 0 else 4 - Norm(peak * 0x1_0000)
  }

  /** 4 - norm is at most 4, and says how many bits the peak has above the eleventh. */
  lemma ScalAutoBounds(peak: int16)
    requires 0 <= peak
    ensures ScalAuto(peak) <= 4
    ensures ScalAuto(peak) <= 0 ==> peak < 2048
    ensures ScalAuto(peak) > 0 ==> peak < 2048 * Pow2(ScalAuto(peak))
  {
    if peak > 0 {
      var x := peak * 0x1_0000;
      NormShifts(x);
      var n := Norm(x);
      if n >= 4 {
        Pow2Mono(4, n);
        Pow2Table();
        MulMono(16, Pow2(n), x);
      } else {
        Pow2Table();
      }
    }
  }

  /** One sample scaled down by sc bits with rounding. */
  function Scaled(x: int16, sc: int): int16
    requires sc <= 4
  {
    if sc > 0 then MultR(x, ScaleFactor(sc)) else x
  }

  /** 16384 >> (sc - 1) */
  function ScaleFactor(sc: nat): (f: int16)
    requires 1 <= sc <= 4
  {
    match sc case 1 => 16384 case 2 => 8192 case 3 => 4096 case _ => 2048
  }

  function ScaledFrame(s: seq<int16>, sc: int): (t: seq<int16>)
    requires sc <= 4
    ensures |t| == |s|
  {
    seq(|s|, i requires 0 <= i < |s| => Scaled(s[i], sc))
  }

  lemma ScaledBy1(x: int16)
    ensures Scaled(x, 1) == (x + 1) / 2
  {
    hide Mul;
    MulIsProduct(x, 16384);
    MultRIsRound15(x, 16384);
  }

  lemma ScaledBy2(x: int16)
    ensures Scaled(x, 2) == (x + 2) / 4
  {
    hide Mul;
    MulIsProduct(x, 8192);
    MultRIsRound15(x, 8192);
  }

  lemma ScaledBy3(x: int16)
    ensures Scaled(x, 3) == (x + 4) / 8
  {
    hide Mul;
    MulIsProduct(x, 4096);
    MultRIsRound15(x, 4096);
  }

  lemma ScaledBy4(x: int16)
    ensures Scaled(x, 4) == (x + 8) / 16
  {
    hide Mul;
    MulIsProduct(x, 2048);
    MultRIsRound15(x, 2048);
  }

  /** The scaled sample is x / 2^sc rounded to the nearest. */
  lemma ScaledIsRounded(x: int16, sc: nat)
    requires 1 <= sc <= 4
    ensures Scaled(x, sc) == (x + Pow2(sc - 1)) / Pow2(sc)
  {
    hide Scaled, Pow2;
    Pow2Table();
    match sc {
      case 1 => ScaledBy1(x);
      case 2 => ScaledBy2(x);
      case 3 => ScaledBy3(x);
      case 4 => ScaledBy4(x);
    }
  }

  /** Twelve bits remain after scaling. */
  lemma ScaledBound(x: int16, peak: int16)
    requires 0 <= SatAbs16(x) <= peak
    ensures ScalAuto(peak) <= 4
    ensures -2048 <= Scaled(x, ScalAuto(peak)) <= 2048
  {
    hide Pow2, MultR, ScalAuto;
    ScalAutoBounds(peak);
    var sc := ScalAuto(peak);
    if sc > 0 {
      ScaledIsRounded(x, sc);
      Pow2Table();
      match sc {
        case 1 =>
        case 2 =>
        case 3 =>
        case 4 =>
      }
    }
  }

  /** The first n terms of the autocorrelation at lag k. */
  function Acf(s: seq<int16>, k: nat, n: nat): int
    requires n <= |s|
  {
    if n <= k then 0 else Acf(s, k, n - 1) + Mul(s[n - 1], s[n - 1 - k])
  }

  ghost predicate TwelveBits(s: seq<int16>) {
    forall i :: 0 <= i < |s| ==> -2048 <= s[i] <= 2048
  }

  lemma CrossTerm(a: int, b: int)
    ensures 2 * (a * b) <= a * a + b * b
  {
    var d := a - b;
    if d >= 0 { MulMono(0, d, d); } else { MulMono(0, -d, -d); }
    SquareOfDifference(a, b, d);
  }

  lemma SquareOfDifference(a: int, b: int, d: int)
    requires d == a - b
    ensures d * d == a * a - 2 * (a * b) + b * b && -d * -d == d * d
  {
    assert d * d == d * a - d * b;
    assert d * a == a * a - b * a && d * b == a * b - b * b;
  }

  lemma SquareBounds(a: int, b: int)
    ensures 0 <= Mul(a, a)
    ensures 2 * Abs(Mul(a, b)) <= Mul(a, a) + Mul(b, b)
    ensures -2048 <= a <= 2048 ==> Mul(a, a) <= 0x40_0000
  {
    hide Mul;
    MulIsProduct(a, a);
    MulIsProduct(b, b);
    MulIsProduct(a, b);
    CrossTerm(a, b);
    CrossTerm(a, -b);
    assert a * -b == -(a * b) && -b * -b == b * b;
    if -2048 <= a <= 2048 { MulBound(a, a, 2048, 2048); }
  }

  lemma {:induction false} AcfEnergy(s: seq<int16>, m: nat, n: nat)
    requires m <= n <= |s|
    ensures 0 <= Acf(s, 0, m) <= Acf(s, 0, n)
    ensures TwelveBits(s) ==> Acf(s, 0, n) <= n * 0x40_0000
    decreases n
  {
    hide Mul;
    if n == 0 {
    } else {
      SquareBounds(s[n - 1], s[n - 1]);
      AcfEnergy(s, if m < n then m else n - 1, n - 1);
    }
  }

  /** Twice a correlation is at most the energy of the two windows it pairs. */
  lemma {:induction false} AcfWindows(s: seq<int16>, k: nat, n: nat)
    requires k <= n <= |s|
    ensures 2 * Abs(Acf(s, k, n)) <= Acf(s, 0, n) - Acf(s, 0, k) + Acf(s, 0, n - k)
    decreases n
  {
    hide Mul;
    if n <= k {
    } else {
      AcfWindows(s, k, n - 1);
      SquareBounds(s[n - 1], s[n - 1 - k]);
    }
  }

  /** No lag correlates more strongly than the frame with itself, and on scaled input
      no partial sum comes near 2^31, doubled or not. */
  lemma AcfBounds(s: seq<int16>, k: nat, n: nat)
    requires n <= |s|
    ensures Abs(Acf(s, k, n)) <= Acf(s, 0, n)
    ensures TwelveBits(s) && |s| == FRAME_LEN ==> 0 <= Acf(s, 0, n) <= 0x2800_0000
  {
    AcfEnergy(s, n, n);
    if k <= n {
      AcfWindows(s, k, n);
      AcfEnergy(s, k, n);
      AcfEnergy(s, n - k, n);
    }
  }

  /** Sample n adds one term to the sum at lag k, and the new sum still fits. */
  ghost predicate RowFits(s: seq<int16>, k: nat, n: nat) {
    k <= n < |s| ==>
      && Acf(s, k, n + 1) == (if n == k then 0 else Acf(s, k, n)) + Mul(s[n], s[n - k])
      && -0x2800_0000 <= Acf(s, k, n + 1) <= 0x2800_0000
  }

  lemma RowFitsAt(s: seq<int16>, k: nat, n: nat)
    requires |s| == FRAME_LEN && TwelveBits(s)
    ensures RowFits(s, k, n)
  {
    hide Mul, TwelveBits;
    if k <= n < |s| { AcfBounds(s, k, n + 1); }
  }

  lemma AcfRow(s: seq<int16>, n: nat)
    requires |s| == FRAME_LEN && TwelveBits(s)
    ensures RowFits(s, 0, n) && RowFits(s, 1, n) && RowFits(s, 2, n) && RowFits(s, 3, n) && RowFits(s, 4, n)
    ensures RowFits(s, 5, n) && RowFits(s, 6, n) && RowFits(s, 7, n) && RowFits(s, 8, n)
  {
    forall k: nat ensures RowFits(s, k, n) { RowFitsAt(s, k, n); }
  }

  /** The unrolled start of the correlation loop: the first nine samples. */
  method AcfPrologue(s: seq<int16>) returns (l0: int32, l1: int32, l2: int32, l3: int32, l4: int32, l5: int32, l6: int32, l7: int32, l8: int32)
    requires |s| == FRAME_LEN && TwelveBits(s)
    ensures l0 == Acf(s, 0, 9)
    ensures l1 == Acf(s, 1, 9)
    ensures l2 == Acf(s, 2, 9)
    ensures l3 == Acf(s, 3, 9)
    ensures l4 == Acf(s, 4, 9)
    ensures l5 == Acf(s, 5, 9)
    ensures l6 == Acf(s, 6, 9)
    ensures l7 == Acf(s, 7, 9)
    ensures l8 == Acf(s, 8, 9)
  {
    hide Mul, TwelveBits, Acf;
    var sp := 0;
    var sl := s[sp];
    AcfRow(s, 0);
    l0 := Mul(sl, s[sp]);
    sp := sp + 1;
    sl := s[sp];
    AcfRow(s, sp);
    l0 := l0 + Mul(sl, s[sp]);
    l1 := Mul(sl, s[sp - 1]);
    sp := sp + 1;
    sl := s[sp];
    AcfRow(s, sp);
    l0 := l0 + Mul(sl, s[sp]);
    l1 := l1 + Mul(sl, s[sp - 1]);
    l2 := Mul(sl, s[sp - 2]);
    sp := sp + 1;
    sl := s[sp];
    AcfRow(s, sp);
    l0 := l0 + Mul(sl, s[sp]);
    l1 := l1 + Mul(sl, s[sp - 1]);
    l2 := l2 + Mul(sl, s[sp - 2]);
    l3 := Mul(sl, s[sp - 3]);
    sp := sp + 1;
    sl := s[sp];
    AcfRow(s, sp);
    l0 := l0 + Mul(sl, s[sp]);
    l1 := l1 + Mul(sl, s[sp - 1]);
    l2 := l2 + Mul(sl, s[sp - 2]);
    l3 := l3 + Mul(sl, s[sp - 3]);
    l4 := Mul(sl, s[sp - 4]);
    sp := sp + 1;
    sl := s[sp];
    AcfRow(s, sp);
    l0 := l0 + Mul(sl, s[sp]);
    l1 := l1 + Mul(sl, s[sp - 1]);
    l2 := l2 + Mul(sl, s[sp - 2]);
    l3 := l3 + Mul(sl, s[sp - 3]);
    l4 := l4 + Mul(sl, s[sp - 4]);
    l5 := Mul(sl, s[sp - 5]);
    sp := sp + 1;
    sl := s[sp];
    AcfRow(s, sp);
    l0 := l0 + Mul(sl, s[sp]);
    l1 := l1 + Mul(sl, s[sp - 1]);
    l2 := l2 + Mul(sl, s[sp - 2]);
    l3 := l3 + Mul(sl, s[sp - 3]);
    l4 := l4 + Mul(sl, s[sp - 4]);
    l5 := l5 + Mul(sl, s[sp - 5]);
    l6 := Mul(sl, s[sp - 6]);
    sp := sp + 1;
    sl := s[sp];
    AcfRow(s, sp);
    l0 := l0 + Mul(sl, s[sp]);
    l1 := l1 + Mul(sl, s[sp - 1]);
    l2 := l2 + Mul(sl, s[sp - 2]);
    l3 := l3 + Mul(sl, s[sp - 3]);
    l4 := l4 + Mul(sl, s[sp - 4]);
    l5 := l5 + Mul(sl, s[sp - 5]);
    l6 := l6 + Mul(sl, s[sp - 6]);
    l7 := Mul(sl, s[sp - 7]);
    sp := sp + 1;
    sl := s[sp];
    AcfRow(s, sp);
    l0 := l0 + Mul(sl, s[sp]);
    l1 := l1 + Mul(sl, s[sp - 1]);
    l2 := l2 + Mul(sl, s[sp - 2]);
    l3 := l3 + Mul(sl, s[sp - 3]);
    l4 := l4 + Mul(sl, s[sp - 4]);
    l5 := l5 + Mul(sl, s[sp - 5]);
    l6 := l6 + Mul(sl, s[sp - 6]);
    l7 := l7 + Mul(sl, s[sp - 7]);
    l8 := Mul(sl, s[sp - 8]);
  }

  /** The sums over the whole frame, every intermediate one held in 32 bits. */
  method AcfSums(s: seq<int16>, acf: array<int32>)
    requires |s| == FRAME_LEN && TwelveBits(s) && acf.Length == 9
    modifies acf
    ensures forall k :: 0 <= k < 9 ==> acf[k] == Acf(s, k, FRAME_LEN)
  {
    hide Mul, TwelveBits, Acf;
    var l0: int32, l1: int32, l2: int32, l3: int32, l4: int32, l5: int32, l6: int32, l7: int32, l8: int32 := AcfPrologue(s);
    var sp := 8;
    for i := 9 to FRAME_LEN
      invariant sp == i - 1
      invariant l0 == Acf(s, 0, i)
      invariant l1 == Acf(s, 1, i)
      invariant l2 == Acf(s, 2, i)
      invariant l3 == Acf(s, 3, i)
      invariant l4 == Acf(s, 4, i)
      invariant l5 == Acf(s, 5, i)
      invariant l6 == Acf(s, 6, i)
      invariant l7 == Acf(s, 7, i)
      invariant l8 == Acf(s, 8, i)
    {
      AcfRow(s, i);
      sp := sp + 1;
      var sl := s[sp];
      l0 := l0 + Mul(sl, s[sp]);
      l1 := l1 + Mul(sl, s[sp - 1]);
      l2 := l2 + Mul(sl, s[sp - 2]);
      l3 := l3 + Mul(sl, s[sp - 3]);
      l4 := l4 + Mul(sl, s[sp - 4]);
      l5 := l5 + Mul(sl, s[sp - 5]);
      l6 := l6 + Mul(sl, s[sp - 6]);
      l7 := l7 + Mul(sl, s[sp - 7]);
      l8 := l8 + Mul(sl, s[sp - 8]);
    }
    acf[0], acf[1], acf[2], acf[3], acf[4], acf[5], acf[6], acf[7], acf[8] := l0, l1, l2, l3, l4, l5, l6, l7, l8;
  }

  /** amp[k] <<= scalauto, in 16 bits. */
  function Rescaled(x: int16, sc: int): int16
    requires sc <= 4
  {
    if sc > 0 then Wrap16(Scaled(x, sc) * Pow2(sc)) else x
  }

  lemma RescaledBy1(x: int16)
    requires -4096 <= x < 4096
    ensures Abs(Rescaled(x, 1) - x) <= 1
  {
    hide Scaled, Pow2;
    ScaledBy1(x);
    Pow2Table();
  }

  lemma RescaledBy2(x: int16)
    requires -8192 <= x < 8192
    ensures Abs(Rescaled(x, 2) - x) <= 2
  {
    hide Scaled, Pow2;
    ScaledBy2(x);
    Pow2Table();
  }

  lemma RescaledBy3(x: int16)
    requires -16384 <= x < 16384
    ensures Abs(Rescaled(x, 3) - x) <= 4
  {
    hide Scaled, Pow2;
    ScaledBy3(x);
    Pow2Table();
  }

  lemma RescaledBy4(x: int16)
    ensures Abs(Rescaled(x, 4) - x) <= 8 <==> x < 32760
    ensures x >= 32760 ==> Rescaled(x, 4) == MIN16
  {
    hide Scaled, Pow2;
    ScaledBy4(x);
    Pow2Table();
  }

  /** Undoing the scaling restores a sample to within half a step, except that in a frame
      scaled by four bits the samples from 32760 up come back as -32768: 2048 << 4 does
      not fit. */
  lemma RescaledError(x: int16, peak: int16)
    requires 0 <= SatAbs16(x) <= peak
    ensures ScalAuto(peak) <= 4
    ensures Abs(Rescaled(x, ScalAuto(peak)) - x) <= 8 <==> ScalAuto(peak) < 4 || x < 32760
    ensures ScalAuto(peak) == 4 && x >= 32760 ==> Rescaled(x, ScalAuto(peak)) == MIN16
  {
    hide ScalAuto, Pow2, Wrap16, Scaled;
    ScalAutoBounds(peak);
    Pow2Table();
    var sc := ScalAuto(peak);
    if sc == 1 {
      RescaledBy1(x);
    } else if sc == 2 {
      RescaledBy2(x);
    } else if sc == 3 {
      RescaledBy3(x);
    } else if sc == 4 {
      RescaledBy4(x);
    }
  }

  /** The autocorrelation values the frame is analysed with. */
  function FrameAcf(s: seq<int16>): (acf: seq<int>)
    requires |s| == FRAME_LEN
    ensures |acf| == 9
  {
    ScalAutoBounds(PeakAbs(s));
    var t := ScaledFrame(s, ScalAuto(PeakAbs(s)));
    seq(9, k requires 0 <= k < 9 => 2 * Acf(t, k, FRAME_LEN))
  }

  function RescaledFrame(s: seq<int16>): (t: seq<int16>)
    ensures |t| == |s|
  {
    ScalAutoBounds(PeakAbs(s));
    seq(|s|, i requires 0 <= i < |s| => Rescaled(s[i], ScalAuto(PeakAbs(s))))
  }

  lemma ScaledFrameBits(s: seq<int16>)
    requires |s| == FRAME_LEN
    ensures ScalAuto(PeakAbs(s)) <= 4 && TwelveBits(ScaledFrame(s, ScalAuto(PeakAbs(s))))
  {
    hide Scaled, ScalAuto;
    ScalAutoBounds(PeakAbs(s));
    forall i | 0 <= i < |s| ensures -2048 <= Scaled(s[i], ScalAuto(PeakAbs(s))) <= 2048 {
      ScaledBound(s[i], PeakAbs(s));
    }
  }

  /** The answer to the overflow question in the source: after scaling, every lag is at most
      lag 0 in magnitude and lag 0 fits, so the shift that normalises lag 0 fits every lag. */
  lemma FrameAcfNormalises(s: seq<int16>, k: nat)
    requires |s| == FRAME_LEN && k < 9
    ensures Abs(FrameAcf(s)[k]) <= FrameAcf(s)[0] <= 0x5000_0000
    ensures FrameAcf(s)[0] != 0 ==>
              var n := Norm(FrameAcf(s)[0]);
              && n >= 0
              && 0x4000_0000 <= FrameAcf(s)[0] * Pow2(n)
              && -0x7fff_ffff <= FrameAcf(s)[k] * Pow2(n) <= 0x7fff_ffff
  {
    hide Mul, Norm, Scaled, ScalAuto, Acf, TwelveBits;
    ScaledFrameBits(s);
    var t := ScaledFrame(s, ScalAuto(PeakAbs(s)));
    AcfBounds(t, k, FRAME_LEN);
    AcfBounds(t, 0, FRAME_LEN);
    var a0, ak := FrameAcf(s)[0], FrameAcf(s)[k];
    if a0 != 0 {
      NormShifts(a0);
      ShiftedBound(ak, a0, Pow2(Norm(a0)));
    }
  }

  lemma ShiftedBound(x: int, m: int, p: nat)
    requires Abs(x) <= m
    ensures -(m * p) <= x * p <= m * p
  {
    MulMono(x, m, p);
    MulMono(-m, x, p);
  }

  method Autocorrelation(amp: array<int16>, acf: array<int32>)
    requires amp.Length == FRAME_LEN && acf.Length == 9
    modifies amp, acf
    ensures acf[..] == FrameAcf(old(amp[..]))
    ensures amp[..] == RescaledFrame(old(amp[..]))
  {
    hide Mul, Scaled, ScalAuto, TwelveBits, Acf;
    var s := amp[..];
    var smax := FindPeak(s);
    ScalAutoBounds(smax);
    ScaledFrameBits(s);
    var scalauto := ScalAuto(smax);
    ScaleInPlace(amp, scalauto);
    AcfSums(amp[..], acf);
    ShiftSums(amp[..], acf);
    RescaleInPlace(amp, scalauto, s);
  }

  method ScaleInPlace(amp: array<int16>, scalauto: int)
    requires scalauto <= 4
    modifies amp
    ensures amp[..] == ScaledFrame(old(amp[..]), scalauto)
  {
    hide Mul;
    if scalauto > 0 {
      for k := 0 to amp.Length
        invariant forall i :: 0 <= i < k ==> amp[i] == Scaled(old(amp[i]), scalauto)
        invariant forall i :: k <= i < amp.Length ==> amp[i] == old(amp[i])
      {
        amp[k] := MultR(amp[k], ScaleFactor(scalauto));
      }
    }
  }

  method ShiftSums(s: seq<int16>, acf: array<int32>)
    requires |s| == FRAME_LEN && TwelveBits(s) && acf.Length == 9
    requires forall k :: 0 <= k < 9 ==> acf[k] == Acf(s, k, FRAME_LEN)
    modifies acf
    ensures forall k :: 0 <= k < 9 ==> acf[k] == 2 * Acf(s, k, FRAME_LEN)
  {
    hide Mul, TwelveBits, Acf;
    for k := 0 to 9
      invariant forall i :: 0 <= i < k ==> acf[i] == 2 * Acf(s, i, FRAME_LEN)
      invariant forall i :: k <= i < 9 ==> acf[i] == Acf(s, i, FRAME_LEN)
    {
      AcfBounds(s, k, FRAME_LEN);
      acf[k] := acf[k] * 2;
    }
  }

  method RescaleInPlace(amp: array<int16>, scalauto: int, ghost s: seq<int16>)
    requires scalauto <= 4 && amp[..] == ScaledFrame(s, scalauto)
    modifies amp
    ensures forall i :: 0 <= i < |s| ==> amp[..][i] == Rescaled(s[i], scalauto)
  {
    hide MultR, Pow2, ScaleFactor;
    if scalauto > 0 {
      for k := 0 to amp.Length
        invariant forall i :: 0 <= i < k ==> amp[i] == Rescaled(s[i], scalauto)
        invariant forall i :: k <= i < amp.Length ==> amp[i] == Scaled(s[i], scalauto)
      {
        amp[k] := Wrap16(amp[k] * Pow2(scalauto));
      }
    }
  }

  // ---------------------------------------------------------------- Schur recursion

  /** The arrays P and K of the recursion; K[0] and K[8] are never read. */
  datatype Schur = Schur(p: Vec9, k: Vec9)

  function NormShift(x: int): (n: nat)
    requires 0 < x <= 0x7fff_ffff
    ensures 0x4000_0000 <= x * Pow2(n) <= 0x7fff_ffff
  {
    NormShifts(x);
    Norm(x)
  }

  /** (L_ACF[i] << temp) >> 16, as a 16 bit value. */
  function NormalisedAcf(acf: seq<int>): Vec9
    requires |acf| == 9 && 0 < acf[0] <= 0x7fff_ffff
  {
    seq(9, i requires 0 <= i < 9 => Wrap16(acf[i] * Pow2(NormShift(acf[0])) / 0x1_0000))
  }

  function SchurStart(acf: Vec9): Schur {
    Schur(acf, acf[0 := 0][8 := 0])
  }

  /** One reflection coefficient, of the sign opposite to P[1]. */
  function Reflection(p: Vec9): (r: int16)
    requires p[0] >= SatAbs16(p[1])
    ensures r != MIN16
  {
    var q := Quotient(SatAbs16(p[1]), p[0]);
    if p[1] > 0 then -q else q
  }

  function NextP(s: Schur, n: nat, r: int16, m: nat): int16
    requires 1 <= n <= 7 && m < 9
  {
    if m == 0 then SatAdd16(s.p[0], MultR(s.p[1], r))
    else if m <= 8 - n then SatAdd16(s.p[m + 1], MultR(s.k[m], r))
    else s.p[m]
  }

  function NextK(s: Schur, n: nat, r: int16, m: nat): int16
    requires 1 <= n <= 7 && m < 9
  {
    if 1 <= m <= 8 - n then SatAdd16(s.k[m], MultR(s.p[m + 1], r)) else s.k[m]
  }

  /** All cells of a recursion step, from the old cells. */
  function SchurStep(s: Schur, n: nat, r: int16): Schur
    requires 1 <= n <= 7
  {
    Schur(seq(9, m requires 0 <= m < 9 => NextP(s, n, r, m)),
          seq(9, m requires 0 <= m < 9 => NextK(s, n, r, m)))
  }

  function Zeros(n: nat): (z: seq<int16>)
    ensures |z| == n
  {
    seq(n, _ => 0)
  }

  /** The coefficients n to 8; zero from the step on at which P[0] < |P[1]|. */
  function Reflections(s: Schur, n: nat): (r: seq<int16>)
    requires 1 <= n <= 8
    ensures |r| == 9 - n
    decreases 8 - n
  {
    if s.p[0] < SatAbs16(s.p[1]) then Zeros(9 - n)
    else if n == 8 then [Reflection(s.p)]
    else [Reflection(s.p)] + Reflections(SchurStep(s, n, Reflection(s.p)), n + 1)
  }

  function FrameReflections(acf: seq<int>): (r: seq<int16>)
    requires |acf| == 9 && 0 <= acf[0] <= 0x7fff_ffff
    ensures |r| == 8
  {
    if acf[0] == 0 then Zeros(8) else Reflections(SchurStart(NormalisedAcf(acf)), 1)
  }

  /** The test that ends the recursion: P[0] < |P[1]|. */
  predicate Stops(s: Schur) { s.p[0] < SatAbs16(s.p[1]) }

  /** The states the recursion passes through from coefficient n on, until it ends. */
  ghost function Trail(s: Schur, n: nat): (t: seq<Schur>)
    requires 1 <= n <= 8
    ensures 1 <= |t| <= 9 - n && t[0] == s
    decreases 8 - n
  {
    if Stops(s) || n == 8 then [s] else [s] + Trail(SchurStep(s, n, Reflection(s.p)), n + 1)
  }

  lemma GainBound(a: nat, r: nat, p: int)
    requires a <= 0x8000 && r <= 0x7fff && p >= 0 && (a <= p || a == p + 1 == 0x8000)
    ensures -p <= (-(a * r) + 0x4000) / 0x8000 <= 0
  {
    MulMono(r, 0x7fff, a);
    MulMono(0, r, a);
  }

  /** What a coefficient takes off the prediction error never exceeds it. */
  lemma ReflectionGain(p: Vec9)
    requires p[0] >= SatAbs16(p[1])
    ensures -p[0] <= MultR(p[1], Reflection(p)) <= 0
  {
    hide Mul, Quotient;
    var p1: int, r: int := p[1], Reflection(p);
    MulIsProduct(p1, r);
    MultRIsRound15(p1, r);
    GainBound(Abs(p1), Abs(r), p[0]);
    if p1 > 0 {
      assert p1 * r == -(p1 * -r);
    } else {
      assert p1 * r == -(-p1 * r);
    }
  }

  /** The prediction error P[0] stays non-negative and never grows, through every step. */
  lemma {:induction false} EnergiesFall(s: Schur, n: nat, i: nat)
    requires 1 <= n <= 8 && 0 <= s.p[0] && i < |Trail(s, n)|
    ensures 0 <= Trail(s, n)[i].p[0] <= s.p[0]
    ensures i > 0 ==> Trail(s, n)[i].p[0] <= Trail(s, n)[i - 1].p[0]
    decreases 8 - n
  {
    hide MultR, Quotient, Reflection;
    if i == 0 {
    } else {
      var r := Reflection(s.p);
      ReflectionGain(s.p);
      var t := SchurStep(s, n, r);
      assert t.p[0] == NextP(s, n, r, 0);
      EnergiesFall(t, n + 1, i - 1);
    }
  }

  /** Coefficient i of the recursion: as long as no state has had P[0] < |P[1]| it is the
      quotient of that step's state with the sign opposite to P[1], and from the first such
      state on it is zero. */
  ghost predicate CoefficientAt(t: seq<Schur>, r: int16, i: nat) {
    && (i < |t| && !Stops(t[i]) ==> r == Reflection(t[i].p))
    && (forall j :: 0 <= j <= i && j < |t| && Stops(t[j]) ==> r == 0)
    && (i >= |t| ==> |t| > 0 && Stops(t[|t| - 1]))
  }

  lemma StopsIs(s: Schur)
    ensures Stops(s) <==> s.p[0] < SatAbs16(s.p[1])
  {
  }

  lemma CoefficientStopped(s: Schur, i: nat)
    requires Stops(s)
    ensures CoefficientAt([s], 0, i)
  {
    hide Stops, Reflection;
  }

  lemma CoefficientFirst(t: seq<Schur>, r: int16)
    requires t != [] && !Stops(t[0]) && r == Reflection(t[0].p)
    ensures CoefficientAt(t, r, 0)
  {
    hide Stops, Reflection;
  }

  lemma CoefficientNext(s: Schur, rest: seq<Schur>, r: int16, i: nat)
    requires !Stops(s) && i > 0 && CoefficientAt(rest, r, i - 1)
    ensures CoefficientAt([s] + rest, r, i)
  {
    hide Stops, Reflection;
    var t := [s] + rest;
    forall j | 0 <= j <= i && j < |t| && Stops(t[j]) ensures r == 0 {
      assert t[j] == rest[j - 1];
    }
  }

  lemma {:induction false} ReflectionsAt(s: Schur, n: nat, i: nat)
    requires 1 <= n <= 8 && i < 9 - n
    ensures CoefficientAt(Trail(s, n), Reflections(s, n)[i], i)
    decreases 8 - n
  {
    hide Reflection, SchurStep, Stops, CoefficientAt;
    StopsIs(s);
    if Stops(s) {
      CoefficientStopped(s, i);
    } else if i == 0 {
      CoefficientFirst(Trail(s, n), Reflections(s, n)[0]);
    } else {
      var next := SchurStep(s, n, Reflection(s.p));
      ReflectionsAt(next, n + 1, i - 1);
      assert Reflections(s, n)[i] == Reflections(next, n + 1)[i - 1];
      CoefficientNext(s, Trail(next, n + 1), Reflections(s, n)[i], i);
    }
  }

  /** What a coefficient means: magnitude min(32767, floor(|P[1]| * 2^15 / P[0])), from a
      division with 0 <= num <= denom, and the sign opposite to P[1]. */
  lemma ReflectionMeans(p: Vec9)
    requires p[0] >= SatAbs16(p[1])
    ensures var r: int, a: int, e: int := Reflection(p), SatAbs16(p[1]), p[0];
            && 0 <= a <= e && -32767 <= r <= 32767
            && (e > 0 ==> Abs(r) == Min(32767, a * 0x8000 / e))
            && (p[1] > 0 ==> r <= 0) && (p[1] <= 0 ==> r >= 0)
  {
    if p[0] > 0 { QuotientMeans(SatAbs16(p[1]), p[0]); }
  }

  /** Starting values: lag 0 is normalised and no lag is truncated. */
  lemma NormalisedAcfFits(s: seq<int16>, i: nat)
    requires |s| == FRAME_LEN && i < 9
    ensures 0 <= FrameAcf(s)[0] <= 0x7fff_ffff
    ensures FrameAcf(s)[0] != 0 ==>
              var a := NormalisedAcf(FrameAcf(s));
              && a[0] >= 0x4000
              && a[i] == FrameAcf(s)[i] * Pow2(NormShift(FrameAcf(s)[0])) / 0x1_0000
  {
    hide Norm, Pow2, FrameAcf;
    FrameAcfNormalises(s, 0);
    FrameAcfNormalises(s, i);
  }

  /** On every frame the recursion starts from a positive energy that only falls. */
  lemma FrameEnergies(s: seq<int16>, i: nat)
    requires |s| == FRAME_LEN
    ensures 0 <= FrameAcf(s)[0] <= 0x7fff_ffff
    ensures FrameAcf(s)[0] != 0 ==>
              var t := Trail(SchurStart(NormalisedAcf(FrameAcf(s))), 1);
              && t[0].p[0] >= 0x4000
              && (i < |t| ==> 0 <= t[i].p[0] <= t[0].p[0] && (i > 0 ==> t[i].p[0] <= t[i - 1].p[0]))
  {
    hide FrameAcf, NormalisedAcf, Trail;
    NormalisedAcfFits(s, 0);
    if FrameAcf(s)[0] != 0 {
      var st := SchurStart(NormalisedAcf(FrameAcf(s)));
      if i < |Trail(st, 1)| { EnergiesFall(st, 1, i); }
    }
  }

  /** The eight coefficients of every frame: quotients until P[0] falls below |P[1]|, zero
      from there on, and all zero for a silent frame. */
  lemma FrameReflectionsAt(s: seq<int16>, i: nat)
    requires |s| == FRAME_LEN && i < 8
    ensures 0 <= FrameAcf(s)[0] <= 0x7fff_ffff
    ensures FrameAcf(s)[0] == 0 ==> FrameReflections(FrameAcf(s))[i] == 0
    ensures FrameAcf(s)[0] != 0 ==>
              CoefficientAt(Trail(SchurStart(NormalisedAcf(FrameAcf(s))), 1), FrameReflections(FrameAcf(s))[i], i)
  {
    hide FrameAcf, NormalisedAcf, Trail, CoefficientAt, Reflections;
    NormalisedAcfFits(s, 0);
    if FrameAcf(s)[0] != 0 {
      ReflectionsAt(SchurStart(NormalisedAcf(FrameAcf(s))), 1, i);
    }
  }

  /** One step of the recursion on the arrays, cell by cell from the left. */
  lemma NextIs(s: Schur, n: nat, r: int16, m: nat)
    requires 1 <= n <= 7 && m < 9
    ensures m == 0 ==> NextP(s, n, r, m) == SatAdd16(s.p[0], MultR(s.p[1], r)) && NextK(s, n, r, m) == s.k[m]
    ensures 1 <= m <= 8 - n ==> NextP(s, n, r, m) == SatAdd16(s.p[m + 1], MultR(s.k[m], r))
                                && NextK(s, n, r, m) == SatAdd16(s.k[m], MultR(s.p[m + 1], r))
    ensures m > 8 - n ==> NextP(s, n, r, m) == s.p[m] && NextK(s, n, r, m) == s.k[m]
  {
  }

  method SchurStepInPlace(p: array<int16>, k: array<int16>, n: nat, r: int16)
    requires p.Length == k.Length == 9 && p != k && 1 <= n <= 7
    modifies p, k
    ensures Schur(p[..], k[..]) == SchurStep(Schur(old(p[..]), old(k[..])), n, r)
  {
    hide MultR, SatAdd16, NextP, NextK;
    ghost var s := Schur(p[..], k[..]);
    forall i | 0 <= i < 9 {
      NextIs(s, n, r, i);
    }
    var temp := MultR(p[1], r);
    p[0] := SatAdd16(p[0], temp);
    for m := 1 to 9 - n
      invariant forall i :: 0 <= i < m ==> p[i] == NextP(s, n, r, i) && k[i] == NextK(s, n, r, i)
      invariant forall i :: m <= i < 9 ==> p[i] == s.p[i] && k[i] == s.k[i]
    {
      temp := MultR(k[m], r);
      p[m] := SatAdd16(p[m + 1], temp);
      temp := MultR(p[m + 1], r);
      k[m] := SatAdd16(k[m], temp);
    }
  }

  method NormaliseAcf(acf: array<int32>, a: array<int16>)
    requires acf.Length == a.Length == 9
    requires 0 < acf[0] && forall i :: 0 <= i < 9 ==> Abs(acf[i]) <= acf[0]
    modifies a
    ensures a[..] == NormalisedAcf(acf[..])
  {
    hide NormShift, Pow2, Wrap16;
    var temp := NormShift(acf[0]);
    ghost var start := NormalisedAcf(acf[..]);
    for i := 0 to 9
      invariant forall j :: 0 <= j < i ==> a[j] == start[j]
    {
      ShiftedBound(acf[i], acf[0], Pow2(temp));
      var shifted: int32 := acf[i] * Pow2(temp);
      a[i] := Wrap16(shifted / 0x1_0000);
    }
  }

  method SchurStartInPlace(a: array<int16>, p: array<int16>, k: array<int16>)
    requires a.Length == p.Length == k.Length == 9 && p != k && a != p && a != k
    modifies p, k
    ensures Schur(p[..], k[..]) == SchurStart(a[..])
  {
    k[0], k[8] := 0, 0;
    for i := 1 to 8
      invariant k[0] == k[8] == 0 && forall j :: 1 <= j < i ==> k[j] == a[j]
    {
      k[i] := a[i];
    }
    for i := 0 to 9
      invariant k[..] == a[..][0 := 0][8 := 0]
      invariant forall j :: 0 <= j < i ==> p[j] == a[j]
    {
      p[i] := a[i];
    }
  }

  method ZeroFrom(r: array<int16>, n: nat)
    requires r.Length == 8 && n <= 8
    modifies r
    ensures r[..] == old(r[..n]) + Zeros(8 - n)
  {
    for i := n to 8
      invariant forall j :: 0 <= j < n ==> r[j] == old(r[j])
      invariant forall j :: n <= j < i ==> r[j] == 0
    {
      r[i] := 0;
    }
  }

  /** The bit-serial division and the sign make one coefficient. */
  method Reflect(p: array<int16>) returns (r: int16)
    requires p.Length == 9 && p[0] >= SatAbs16(p[1])
    ensures r == Reflection(p[..])
  {
    hide Quotient;
    r := GsmDiv(SatAbs16(p[1]), p[0]);
    if p[1] > 0 {
      r := -r;
    }
  }

  lemma ReflectionsUnfold(done: seq<int16>, s: Schur, n: nat)
    requires 1 <= n <= 8
    ensures s.p[0] < SatAbs16(s.p[1]) ==> Reflections(s, n) == Zeros(9 - n)
    ensures s.p[0] >= SatAbs16(s.p[1]) && n == 8 ==> Reflections(s, n) == [Reflection(s.p)]
    ensures s.p[0] >= SatAbs16(s.p[1]) && n < 8 ==>
              done + Reflections(s, n)
              == done + [Reflection(s.p)] + Reflections(SchurStep(s, n, Reflection(s.p)), n + 1)
  {
    hide SchurStep, Reflection;
  }

  method ReflectionCoefficients(acf: array<int32>, r: array<int16>)
    requires acf.Length == 9 && r.Length == 8
    requires 0 <= acf[0] && forall k :: 0 <= k < 9 ==> Abs(acf[k]) <= acf[0]
    modifies r
    ensures r[..] == FrameReflections(acf[..])
  {
    hide NormalisedAcf, SchurStep, Reflection, Reflections, SatAbs16;
    if acf[0] == 0 {
      ZeroFrom(r, 0);
      return;
    }
    var a, p, k := new int16[9], new int16[9], new int16[9];
    NormaliseAcf(acf, a);
    SchurStartInPlace(a, p, k);
    ghost var full := Reflections(Schur(p[..], k[..]), 1);
    var n := 1;
    while n <= 8
      invariant 1 <= n <= 8
      invariant r[..n - 1] + Reflections(Schur(p[..], k[..]), n) == full
      decreases 8 - n
    {
      ghost var s := Schur(p[..], k[..]);
      ghost var done := r[..n - 1];
      ReflectionsUnfold(done, s, n);
      if p[0] < SatAbs16(p[1]) {
        ZeroFrom(r, n - 1);
        return;
      }
      r[n - 1] := Reflect(p);
      assert r[..n] == done + [Reflection(s.p)];
      if n == 8 {
        assert r[..] == r[..n];
        return;
      }
      SchurStepInPlace(p, k, n, r[n - 1]);
      n := n + 1;
    }
  }

  // ---------------------------------------------------------------- coding

  /** Log area ratio from a reflection coefficient. */
  function LogAreaRatio(r: int16): (lar: int16)
    ensures -26620 <= lar <= 26620
  {
    var t := SatAbs16(r);
    var m := if t < 22118 then t / 2 else if t < 31130 then t - 11059 else (t - 26112) * 4;
    if r < 0 then -m else m
  }

  const CODE_A: Vec8 := [20480, 20480, 20480, 20480, 13964, 15360, 8534, 9036]
  const CODE_MAC: Vec8 := [31, 31, 15, 15, 7, 7, 3, 3]

  /** The STEP macro of quantization_and_coding. */
  function CodeStep(lar: int16, a: int16, b: int16, mac: int16, mic: int16): (c: int16)
    requires -32 <= mic <= 0 <= mac <= 31
    ensures 0 <= c <= mac - mic
  {
    var t := SatAdd16(SatAdd16(SatMul16(a, lar), b), 256) / 512;
    if t > mac then mac - mic else if t < mic then 0 else t - mic
  }

  function CodedLar(lar: int16, i: nat): (c: int16)
    requires i < 8
    ensures 0 <= c <= CODE_MAC[i] - LAR_MIC[i]
  {
    CodeStep(lar, CODE_A[i], LAR_B[i], CODE_MAC[i], LAR_MIC[i])
  }

  function CodedLars(r: seq<int16>): (c: Vec8)
    requires |r| == 8
  {
    seq(8, i requires 0 <= i < 8 => CodedLar(LogAreaRatio(r[i]), i))
  }

  method TransformToLogAreaRatios(r: array<int16>)
    requires r.Length == 8
    modifies r
    ensures forall i :: 0 <= i < 8 ==> r[i] == LogAreaRatio(old(r[i]))
  {
    for i := 0 to 8
      invariant forall k :: 0 <= k < i ==> r[k] == LogAreaRatio(old(r[k]))
      invariant forall k :: i <= k < 8 ==> r[k] == old(r[k])
    {
      var temp := SatAbs16(r[i]);
      if temp < 22118 {
        temp := temp / 2;
      } else if temp < 31130 {
        temp := temp - 11059;
      } else {
        temp := temp - 26112;
        temp := temp * 4;
      }
      r[i] := if r[i] < 0 then -temp else temp;
    }
  }

  method QuantizationAndCoding(lar: array<int16>)
    requires lar.Length == 8
    modifies lar
    ensures forall i :: 0 <= i < 8 ==> lar[i] == CodedLar(old(lar[i]), i)
  {
    hide CodedLar;
    for i := 0 to 8
      invariant forall k :: 0 <= k < i ==> lar[k] == CodedLar(old(lar[k]), k)
      invariant forall k :: i <= k < 8 ==> lar[k] == old(lar[k])
    {
      lar[i] := CodedLar(lar[i], i);
    }
  }

  /** Half a quantisation step of each of the eight ratios, rounded up. */
  const HALF_STEP: seq<nat> := [410, 410, 410, 410, 601, 547, 983, 929]

  /** The code of a ratio decodes to within half a step of it, unless the ratio lies beyond
      the first or the last code: then it lies on the outer side of what that decodes to, or
      within half a step. */
  ghost predicate LarMatches(lar: int16, i: nat)
    requires i < 8
  {
    hide CodeStep, LarStep;
    var c := CodedLar(lar, i);
    && (c > 0 ==> Int(DecodedLar(c, i)) - lar <= HALF_STEP[i])
    && (c < Int(CODE_MAC[i]) - LAR_MIC[i] ==> Int(lar) - DecodedLar(c, i) <= HALF_STEP[i])
  }

  /** The ratios a code stands for, by the product with the scale of the ratio. */
  lemma CodeCell(lar: int16, a: int16, b: int16, mac: int16, mic: int16, c: int)
    requires a > 0 && -32 <= mic <= 0 <= mac <= 31 && -0x4000 <= b < 0x4000
    requires c == CodeStep(lar, a, b, mac, mic)
    ensures 0 <= c <= Int(mac) - mic
    ensures c > 0 ==> 0x8000 * (512 * (c + mic) - b - 256) <= Int(a) * lar
    ensures c < Int(mac) - mic ==> Int(a) * lar < 0x8000 * (512 * (c + mic + 1) - b - 256)
  {
    hide Mul;
    MulIsProduct(a, lar);
    Q15Bound(a, lar);
    assert SatMul16(a, lar) == Int(a) * lar / 0x8000;
  }

  lemma StepTerm(c: int16, b: int16, mic: int16)
    requires -0x4000 <= b < 0x4000 && -32 <= Int(c) + mic <= 31 && Fits16(1024 * (Int(c) + mic) - 2 * Int(b))
    ensures Int(SatSub16(Wrap16(SatAdd16(c, mic) * 1024), 2 * b)) == 1024 * (Int(c) + mic) - 2 * Int(b)
  {
    FitsExact(1024 * (Int(c) + mic));
  }

  /** What a code decodes to, as long as nothing saturates. */
  lemma StepValue(c: int16, b: int16, mic: int16, inva: int16, t: int)
    requires inva > 0 && -0x4000 <= b < 0x4000 && -32 <= Int(c) + mic <= 31
    requires t == 1024 * (Int(c) + mic) - 2 * Int(b) && Fits16(t) && -0x2000_0000 <= Int(inva) * t <= 0x1fff_8000
    ensures LarStep(c, b, mic, inva) == 2 * ((Int(inva) * t + 0x4000) / 0x8000)
  {
    hide Mul, Wrap16, SatSub16, MultR;
    StepTerm(c, b, mic);
    RoundedProduct(inva, t);
  }

  lemma RoundedProduct(inva: int16, t: int16)
    requires inva > 0
    ensures Int(MultR(inva, t)) == (Int(inva) * t + 0x4000) / 0x8000
  {
    hide Mul;
    MulIsProduct(inva, t);
    MultRIsRound15(inva, t);
  }

  lemma LarMatches0(lar: int16)
    ensures LarMatches(lar, 0)
  {
    hide CodeStep, LarStep;
    var c: int := CodedLar(lar, 0);
    CodeCell(lar, 20480, 0, 31, -32, c);
    StepValue(c, 0, -32, 13107, 1024 * (c - 32) - 0);
  }

  lemma LarMatches1(lar: int16)
    ensures LarMatches(lar, 1)
  {
    hide CodeStep, LarStep;
    var c: int := CodedLar(lar, 1);
    CodeCell(lar, 20480, 0, 31, -32, c);
    StepValue(c, 0, -32, 13107, 1024 * (c - 32) - 0);
  }

  lemma LarMatches2(lar: int16)
    ensures LarMatches(lar, 2)
  {
    hide CodeStep, LarStep;
    var c: int := CodedLar(lar, 2);
    CodeCell(lar, 20480, 2048, 15, -16, c);
    StepValue(c, 2048, -16, 13107, 1024 * (c - 16) - 4096);
  }

  lemma LarMatches3(lar: int16)
    ensures LarMatches(lar, 3)
  {
    hide CodeStep, LarStep;
    var c: int := CodedLar(lar, 3);
    CodeCell(lar, 20480, -2560, 15, -16, c);
    StepValue(c, -2560, -16, 13107, 1024 * (c - 16) + 5120);
  }

  lemma LarMatches4(lar: int16)
    ensures LarMatches(lar, 4)
  {
    hide CodeStep, LarStep;
    var c: int := CodedLar(lar, 4);
    CodeCell(lar, 13964, 94, 7, -8, c);
    StepValue(c, 94, -8, 19223, 1024 * (c - 8) - 188);
  }

  lemma LarMatches5(lar: int16)
    ensures LarMatches(lar, 5)
  {
    hide CodeStep, LarStep;
    var c: int := CodedLar(lar, 5);
    CodeCell(lar, 15360, -1792, 7, -8, c);
    StepValue(c, -1792, -8, 17476, 1024 * (c - 8) + 3584);
  }

  lemma LarMatches6(lar: int16)
    ensures LarMatches(lar, 6)
  {
    hide CodeStep, LarStep;
    var c: int := CodedLar(lar, 6);
    CodeCell(lar, 8534, -341, 3, -4, c);
    StepValue(c, -341, -4, 31454, 1024 * (c - 4) + 682);
  }

  lemma LarMatches7(lar: int16)
    ensures LarMatches(lar, 7)
  {
    hide CodeStep, LarStep;
    var c: int := CodedLar(lar, 7);
    CodeCell(lar, 9036, -1144, 3, -4, c);
    StepValue(c, -1144, -4, 29708, 1024 * (c - 4) + 2288);
  }

  /** Quantising any log area ratio and decoding its code. */
  lemma LarQuantisation(lar: int16, i: nat)
    requires i < 8
    ensures LarMatches(lar, i)
  {
    hide LarMatches;
    match i
    case 0 => LarMatches0(lar);
    case 1 => LarMatches1(lar);
    case 2 => LarMatches2(lar);
    case 3 => LarMatches3(lar);
    case 4 => LarMatches4(lar);
    case 5 => LarMatches5(lar);
    case 6 => LarMatches6(lar);
    case _ => LarMatches7(lar);
  }

  /** The three pieces of the log area ratio are undone by the three pieces of the expansion,
      to within one. */
  lemma RatioUndone(r: int16)
    ensures Abs(Int(LarToRp(LogAreaRatio(r))) - r) <= 1
  {
  }

  /** The expansion is steepest near zero, where it doubles. */
  lemma ExpansionSlope(a: int16, b: int16)
    requires a <= b
    ensures 0 <= Int(LarToRp(b)) - LarToRp(a) <= 2 * (Int(b) - a) + 2
  {
  }

  /** From a reflection coefficient to the code that is sent, and back: the coefficient both
      sides filter with misses it by at most a step and three, unless it has an end code. */
  lemma CoefficientQuantisation(r: int16, i: nat)
    requires i < 8 && 0 < CodedLar(LogAreaRatio(r), i) < Int(CODE_MAC[i]) - LAR_MIC[i]
    ensures Abs(Int(LarToRp(DecodedLar(CodedLar(LogAreaRatio(r), i), i))) - r) <= 2 * HALF_STEP[i] + 3
  {
    hide LarToRp, LogAreaRatio, DecodedLar, CodedLar;
    var lar := LogAreaRatio(r);
    var y := DecodedLar(CodedLar(lar, i), i);
    LarQuantisation(lar, i);
    RatioUndone(r);
    if y <= lar { ExpansionSlope(y, lar); } else { ExpansionSlope(lar, y); }
  }

  /** The coded log area ratios of a preprocessed frame. */
  function AnalysedLars(s: seq<int16>): (c: Vec8)
    requires |s| == FRAME_LEN
  {
    FrameAcfNormalises(s, 0);
    CodedLars(FrameReflections(FrameAcf(s)))
  }

  /** Every coded ratio fits the bits the frame formats give it. */
  lemma AnalysedLarsFit(s: seq<int16>, i: nat)
    requires |s| == FRAME_LEN && i < 8
    ensures 0 <= AnalysedLars(s)[i] < Pow2(LAR_BITS[i])
  {
    hide FrameAcf, FrameReflections, LogAreaRatio, CodedLar;
    FrameAcfNormalises(s, 0);
    CodedLarFits(LogAreaRatio(FrameReflections(FrameAcf(s))[i]), i);
  }

  const LAR_BITS: seq<nat> := [6, 6, 5, 5, 4, 4, 3, 3]

  lemma CodedLarFits(lar: int16, i: nat)
    requires i < 8
    ensures 0 <= CodedLar(lar, i) < Pow2(LAR_BITS[i])
  {
    hide CodeStep, Pow2;
    assert CODE_MAC[i] - LAR_MIC[i] < Pow2(LAR_BITS[i]) by { Pow2Table(); }
  }

  method LpcAnalysis(amp: array<int16>, larc: array<int16>)
    requires amp.Length == FRAME_LEN && larc.Length == 8 && amp != larc
    modifies amp, larc
    ensures amp[..] == RescaledFrame(old(amp[..]))
    ensures larc[..] == AnalysedLars(old(amp[..]))
  {
    hide FrameAcf, RescaledFrame, FrameReflections, LogAreaRatio, CodedLar;
    ghost var s := amp[..];
    var acf := new int32[9];
    Autocorrelation(amp, acf);
    forall k | 0 <= k < 9 ensures Abs(acf[k]) <= acf[0] {
      FrameAcfNormalises(s, k);
      assert acf[..][k] == acf[k] && acf[..][0] == acf[0];
    }
    ReflectionCoefficients(acf, larc);
    ghost var r := larc[..];
    TransformToLogAreaRatios(larc);
    QuantizationAndCoding(larc);
    forall i | 0 <= i < 8 ensures larc[i] == AnalysedLars(s)[i] {
      assert larc[i] == CodedLar(LogAreaRatio(r[i]), i);
    }
  }
}
