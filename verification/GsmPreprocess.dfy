/** GSM 06.10 preprocessing: downscaling, offset compensation and pre-emphasis
    (sections 4.2.1 to 4.2.3 of GSM 06.10). */
module GsmPreprocess {
  import opened FixedPoint
  import opened GsmArith

  /** The fields z1, L_z2 and mp of the codec state. */
  datatype Pre = Pre(z1: int16, lz2: int32, mp: int16)

  const PRE_RESET: Pre := Pre(0, 0, 0)

  /** (amp >> 1) & ~3 */
  function Downscaled(x: int16): (so: int16)
    ensures -16384 <= so <= 16380
  {
    x / 8 * 4
  }

  /** The recursive part of the high-pass filter, in 64 bits before the shift. */
  function Decayed(lz2: int32): int32 {
    (lz2 * 32735 + 0x4000) / 0x8000
  }

  function PreStep(st: Pre, x: int16): (Pre, int16) {
    var so := Downscaled(x);
    var s1 := Wrap16(so - st.z1);
    var lz2 := SatAdd32(Decayed(st.lz2), s1 * 0x8000);
    var mp := Wrap16(SatAdd32(lz2, 16384) / 0x8000);
    (Pre(so, lz2, mp), SatAdd16(mp, MultR(st.mp, -28180)))
  }

  function Preprocessed(st: Pre, xs: seq<int16>): (r: (Pre, seq<int16>))
    ensures |r.1| == |xs|
  {
    if xs == [] then (st, [])
    else
      var (st1, ys) := Preprocessed(st, xs[..|xs| - 1]);
      var (st2, y) := PreStep(st1, xs[|xs| - 1]);
      (st2, ys + [y])
  }

  /** The filter removes a running mean of the input; the mean stays inside the range of
      the input. */
  ghost predicate MeanInRange(st: Pre) {
    && -16384 <= st.z1 <= 16380
    && -16384 * 0x8000 <= st.z1 * 0x8000 - st.lz2 <= 16380 * 0x8000
  }

  /** While the mean is in range the step is exact: none of its saturations and 16 bit
      conversions changes a value, and the difference is never INT16_MIN. */
  lemma PreStepExact(st: Pre, x: int16)
    requires MeanInRange(st)
    ensures MeanInRange(PreStep(st, x).0)
    ensures MIN16 < Downscaled(x) - st.z1 <= MAX16
    ensures PreStep(st, x).0.lz2 == Decayed(st.lz2) + (Downscaled(x) - st.z1) * 0x8000
    ensures PreStep(st, x).0.mp == (PreStep(st, x).0.lz2 + 16384) / 0x8000
  {
    hide MultR, Decayed, Downscaled;
    DecayShrinks(st.lz2);
    var so: int := Downscaled(x);
    FitsExact(so - st.z1);
    var lz2 := Decayed(st.lz2) + (so - st.z1) * 0x8000;
    assert so * 0x8000 - 16380 * 0x8000 <= lz2 <= so * 0x8000 + 16384 * 0x8000;
    FitsExact((lz2 + 16384) / 0x8000);
  }

  lemma DecayShrinks(x: int32)
    ensures x >= 0 ==> 0 <= Decayed(x) <= x
    ensures x < 0 ==> x <= Decayed(x) <= 0
  {
  }

  /** From reset no input stream, however long, makes the offset compensation saturate
      or truncate: the invariant behind PreStepExact always holds. */
  lemma {:induction false} MeanStaysInRange(xs: seq<int16>)
    ensures MeanInRange(Preprocessed(PRE_RESET, xs).0)
  {
    hide PreStep;
    if xs == [] {
    } else {
      var st := Preprocessed(PRE_RESET, xs[..|xs| - 1]).0;
      MeanStaysInRange(xs[..|xs| - 1]);
      PreStepExact(st, xs[|xs| - 1]);
    }
  }

  /** The state holds the compensated value of the sample x: x downscaled, less the running
      mean, rounded. */
  ghost predicate Compensates(st: Pre, x: int16) {
    var z: int := st.lz2;
    MeanInRange(st) && st.z1 == Downscaled(x) && Int(st.mp) == (z + 16384) / 0x8000
  }

  lemma StepCompensates(st: Pre, x: int16)
    requires MeanInRange(st)
    ensures Compensates(PreStep(st, x).0, x)
  {
    hide MultR, Decayed, Downscaled, SatAdd32;
    PreStepExact(st, x);
  }

  /** After any input from reset the last value is compensated by a mean that stays inside
      the range of the input. */
  lemma Compensated(xs: seq<int16>, x: int16)
    ensures Compensates(Preprocessed(PRE_RESET, xs + [x]).0, x)
  {
    hide PreStep, MeanInRange, Compensates;
    assert (xs + [x])[..|xs|] == xs;
    MeanStaysInRange(xs);
    StepCompensates(Preprocessed(PRE_RESET, xs).0, x);
  }

  method Preprocess(st: Pre, amp: seq<int16>, so: array<int16>) returns (st': Pre)
    requires so.Length == |amp|
    modifies so
    ensures (st', so[..]) == Preprocessed(st, amp)
  {
    hide MultR, Downscaled, Decayed, SatAdd32, Wrap16;
    var z1: int16, lz2: int32, mp: int16 := st.z1, st.lz2, st.mp;
    for k := 0 to |amp|
      invariant (Pre(z1, lz2, mp), so[..k]) == Preprocessed(st, amp[..k])
    {
      assert amp[..k + 1][..k] == amp[..k];
      ghost var done := so[..k];
      var SO: int := Downscaled(amp[k]);
      var s1: int := Wrap16(SO - z1);
      z1 := SO;
      var ls2: int32 := s1 * 0x8000;
      lz2 := Decayed(lz2);
      lz2 := SatAdd32(lz2, ls2);
      var temp: int32 := SatAdd32(lz2, 16384);
      var msp := MultR(mp, -28180);
      mp := Wrap16(temp / 0x8000);
      so[k] := SatAdd16(mp, msp);
      assert so[..k + 1] == done + [so[k]];
    }
    assert amp[..|amp|] == amp && so[..|amp|] == so[..];
    st' := Pre(z1, lz2, mp);
  }
}
