/** The GSM 06.10 full rate codec: what one frame and one stream do to the encoder and to the
    decoder, the proof that the two stay in step, and the codec object itself. */
module GsmCodec {
  import opened FixedPoint
  import opened Bits
  import opened GsmArith
  import opened GsmPreprocess
  import opened GsmLpc
  import opened GsmShortTerm
  import opened GsmLongTerm
  import opened GsmRpe
  import opened GsmPacking

  /** 160 samples. */
  type Block = s: seq<int16> | |s| == 160 witness seq(160, _ => 0)

  /** The two LARpp buffers and the index j of the one to overwrite next. */
  datatype Lars = Lars(pp0: Vec8, pp1: Vec8, j: nat) {
    /** The ratios decoded last. */
    function Latest(): Vec8 { if j == 0 then pp1 else pp0 }

    function Store(larpp: Vec8): Lars {
      if j == 0 then Lars(larpp, pp1, 1) else Lars(pp0, larpp, 0)
    }
  }

  datatype EncState = EncState(pre: Pre, lars: Lars, u: Vec8, hist: Hist)

  datatype DecState = DecState(lars: Lars, v: Vec9, hist: Hist, nrp: nat, msr: int16)

  // ---------------------------------------------------------------- sub-segments

  /** The residual between the five zero guard samples on either side. */
  function Guarded(r: Seg): (e: seq<int16>)
    ensures |e| == 50
  {
    seq(50, i requires 0 <= i < 50 => if 5 <= i < 45 then r[i - 5] else 0)
  }

  /** One sub-segment at the encoder: the new history and the parameters sent. */
  function EncodeSub(hist: Hist, d: Seg): (Hist, SubFrame) {
    hide Predicted, LtpRestored, LtpResidual, NextHist;
    var (nc, bc) := LtpParameters(d, hist);
    var dpp := Predicted(hist, nc, bc);
    var p := Encoded(Guarded(LtpResidual(d, dpp)));
    (NextHist(hist, LtpRestored(Decoded(p), dpp)), SubFrame(nc, bc, p))
  }

  /** The lag used: the one received if it is in range, otherwise the last valid one. */
  function LagUsed(nc: int16, nrp: nat): nat {
    if nc < 40 || nc > 120 then nrp else nc
  }

  /** One sub-segment at the decoder: the reconstructed residual. */
  function DecodeSub(hist: Hist, nrp: nat, s: SubFrame): Seg
    requires SubDecodes(s) && 40 <= nrp <= 120
  {
    LtpRestored(Decoded(s.p), Predicted(hist, LagUsed(s.nc, nrp), s.bc))
  }

  /** The decoder rebuilds the encoder's history, whatever the signal. */
  lemma SubLockstep(hist: Hist, nrp: nat, d: Seg)
    requires 40 <= nrp <= 120
    ensures var (next, s) := EncodeSub(hist, d);
            && SubFits(s) && SubDecodes(s) && LagUsed(s.nc, nrp) == s.nc && 40 <= s.nc <= 120
            && NextHist(hist, DecodeSub(hist, nrp, s)) == next
  {
    hide LtpParameters, Predicted, Encoded, Decoded, ExcitationFits, LtpRestored, LtpResidual, NextHist, Guarded;
  }

  /** The residual that enters the history and the signal, sample by sample: where the
      prediction error fits 16 bits, the one misses the other by at most what the excitation
      quantiser misses the prediction error by. */
  ghost predicate Tracks(d: Seg, dpp: Seg, erp: Seg, seg: Seg) {
    forall k :: 0 <= k < 40 ==> Fits16(Int(d[k]) - dpp[k]) ==>
      Abs(Int(seg[k]) - d[k]) <= Abs(Int(erp[k]) - LtpResidual(d, dpp)[k])
  }

  lemma RestoredTracks(d: Seg, dpp: Seg, erp: Seg)
    ensures Tracks(d, dpp, erp, LtpRestored(erp, dpp))
  {
    hide LtpRestored, LtpResidual, Fits16;
    forall k | 0 <= k < 40 && Fits16(Int(d[k]) - dpp[k])
      ensures Abs(Int(LtpRestored(erp, dpp)[k]) - d[k]) <= Abs(Int(erp[k]) - LtpResidual(d, dpp)[k])
    {
      ReconstructionError(d, dpp, erp, k);
    }
  }

  /** The 40 samples a sub-segment adds to the history track its signal. */
  lemma SubTracksSignal(hist: Hist, d: Seg)
    ensures var (next, s) := EncodeSub(hist, d);
            && 40 <= s.nc <= 120 && 0 <= s.bc < 4 && ExcitationFits(s.p)
            && s.p == Encoded(Guarded(LtpResidual(d, Predicted(hist, s.nc, s.bc))))
            && Tracks(d, Predicted(hist, s.nc, s.bc), Decoded(s.p), next[80..])
  {
    hide LtpParameters, Predicted, Encoded, Decoded, ExcitationFits, LtpRestored, LtpResidual, Guarded, Tracks;
    var s := EncodeSub(hist, d).1;
    var dpp := Predicted(hist, s.nc, s.bc);
    var erp := Decoded(s.p);
    RestoredTracks(d, dpp, erp);
    HistoryEnd(hist, LtpRestored(erp, dpp));
  }

  lemma HistoryEnd(hist: Hist, seg: Seg)
    ensures NextHist(hist, seg)[80..] == seg
  {
  }

  function EncodeSubs(hist: Hist, d: Block, n: nat): (r: (Hist, seq<SubFrame>))
    requires n <= 4
    ensures |r.1| == n
  {
    hide EncodeSub;
    if n == 0 then (hist, [])
    else
      var (h, subs) := EncodeSubs(hist, d, n - 1);
      var (next, s) := EncodeSub(h, d[40 * (n - 1)..40 * n]);
      (next, subs + [s])
  }

  function DecodeSubs(hist: Hist, nrp: nat, subs: seq<SubFrame>): (r: (Hist, nat, seq<int16>))
    requires 40 <= nrp <= 120 && forall i :: 0 <= i < |subs| ==> SubDecodes(subs[i])
    ensures |r.2| == 40 * |subs| && 40 <= r.1 <= 120
  {
    if subs == [] then (hist, nrp, [])
    else
      var n := |subs| - 1;
      var (h, nr, wt) := DecodeSubs(hist, nrp, subs[..n]);
      var seg := DecodeSub(h, nr, subs[n]);
      (NextHist(h, seg), LagUsed(subs[n].nc, nr), wt + seg)
  }

  lemma {:induction false} SubsLockstep(hist: Hist, nrp: nat, d: Block, n: nat)
    requires n <= 4 && 40 <= nrp <= 120
    ensures var (next, subs) := EncodeSubs(hist, d, n);
            && (forall i :: 0 <= i < n ==> SubFits(subs[i]) && SubDecodes(subs[i]) && 40 <= subs[i].nc <= 120)
            && DecodeSubs(hist, nrp, subs).0 == next
  {
    hide EncodeSub, DecodeSub, SubFits, SubDecodes, NextHist, LagUsed;
    if n == 0 {
    } else {
      SubsLockstep(hist, nrp, d, n - 1);
      var (h, subs) := EncodeSubs(hist, d, n - 1);
      var nr := DecodeSubs(hist, nrp, subs).1;
      SubLockstep(h, nr, d[40 * (n - 1)..40 * n]);
      var s := EncodeSub(h, d[40 * (n - 1)..40 * n]).1;
      assert (subs + [s])[..n - 1] == subs;
    }
  }

  // ---------------------------------------------------------------- short term filters of a frame

  /** The coefficients of the 160 samples of a frame: four segments of 13, 14, 13 and 120. */
  function Schedule(prev: Vec8, cur: Vec8): (cs: seq<Vec8>)
    ensures |cs| == 160
  {
    Constant(SegmentRp(0, prev, cur), 13) + Constant(SegmentRp(1, prev, cur), 14)
    + Constant(SegmentRp(2, prev, cur), 13) + Constant(SegmentRp(3, prev, cur), 120)
  }

  lemma ScheduleStable(prev: Vec8, cur: Vec8)
    ensures forall i :: 0 <= i < 160 ==> Stable(Schedule(prev, cur)[i])
  {
    hide SegmentRp, Stable;
    SegmentRpStable(0, prev, cur);
    SegmentRpStable(1, prev, cur);
    SegmentRpStable(2, prev, cur);
    SegmentRpStable(3, prev, cur);
  }

  lemma {:induction false} AnalysedConcat(c1: seq<Vec8>, c2: seq<Vec8>, u: Vec8, x1: seq<int16>, x2: seq<int16>)
    requires |c1| == |x1| && |c2| == |x2|
    ensures var (u1, d1) := Analysed(c1, u, x1);
            var (u2, d2) := Analysed(c2, u1, x2);
            Analysed(c1 + c2, u, x1 + x2) == (u2, d1 + d2)
  {
    hide NextU, Residual;
    if x2 == [] {
      assert c1 + c2 == c1 && x1 + x2 == x1;
      var empty: seq<int16> := [];
      assert Analysed(c1, u, x1).1 + empty == Analysed(c1, u, x1).1;
    } else {
      var n := |x2| - 1;
      AnalysedConcat(c1, c2[..n], u, x1, x2[..n]);
      AnalysedSnoc(c1 + c2[..n], c2[n], u, x1 + x2[..n], x2[n]);
      assert c1 + c2 == c1 + c2[..n] + [c2[n]] && x1 + x2 == x1 + x2[..n] + [x2[n]];
      var (u1, d1) := Analysed(c1, u, x1);
      var (u2, d2) := Analysed(c2[..n], u1, x2[..n]);
      var y := Residual(c2[n], u2, x2[n], 8);
      assert d1 + (d2 + [y]) == d1 + d2 + [y];
    }
  }

  lemma {:induction false} SynthesisedConcat(c1: seq<Vec8>, c2: seq<Vec8>, v: Vec9, d1: seq<int16>, d2: seq<int16>)
    requires |c1| == |d1| && |c2| == |d2|
    ensures var (v1, x1) := Synthesised(c1, v, d1);
            var (v2, x2) := Synthesised(c2, v1, d2);
            Synthesised(c1 + c2, v, d1 + d2) == (v2, x1 + x2)
  {
    hide NextV;
    if d2 == [] {
      assert c1 + c2 == c1 && d1 + d2 == d1;
      var empty: seq<int16> := [];
      assert Synthesised(c1, v, d1).1 + empty == Synthesised(c1, v, d1).1;
    } else {
      var n := |d2| - 1;
      SynthesisedConcat(c1, c2[..n], v, d1, d2[..n]);
      SynthesisedSnoc(c1 + c2[..n], c2[n], v, d1 + d2[..n], d2[n]);
      assert c1 + c2 == c1 + c2[..n] + [c2[n]] && d1 + d2 == d1 + d2[..n] + [d2[n]];
      var (v1, x1) := Synthesised(c1, v, d1);
      var (v2, x2) := Synthesised(c2[..n], v1, d2[..n]);
      var y := NextV(c2[n], v2, d2[n])[0];
      assert x1 + (x2 + [y]) == x1 + x2 + [y];
    }
  }

  // ---------------------------------------------------------------- frames

  /** De-emphasis, doubling and truncation of the decoder output. */
  function Postprocessed(msr: int16, xs: seq<int16>): (r: (int16, seq<int16>))
    ensures |r.1| == |xs|
  {
    if xs == [] then (msr, [])
    else
      var n := |xs| - 1;
      var (m, ys) := Postprocessed(msr, xs[..n]);
      var next := SatAdd16(xs[n], MultR(m, 28180));
      (next, ys + [Truncated(SatAdd16(next, next))])
  }

  /** x & 0xFFF8 */
  function Truncated(x: int16): (y: int16)
    ensures y % 8 == 0 && y <= x < y + 8
  {
    x / 8 * 8
  }

  /** One emphasised sample through the de-emphasis, from a memory that is off by at most
      seven: the two rounded products move it by at most one. */
  lemma EmphasisUndone(mp: int16, last: int16, msr: int16)
    requires Abs(Int(msr) - last) <= 7 && Fits16(Int(mp) + MultR(last, -28180))
    ensures Abs(Int(SatAdd16(SatAdd16(mp, MultR(last, -28180)), MultR(msr, 28180))) - mp) <= 7
  {
    hide Mul, MultR;
    MulIsProduct(last, -28180);
    MulIsProduct(msr, 28180);
    MultRIsRound15(last, -28180);
    MultRIsRound15(msr, 28180);
    assert Int(MultR(last, -28180)) == (Int(last) * -28180 + 0x4000) / 0x8000;
    assert Int(MultR(msr, 28180)) == (Int(msr) * 28180 + 0x4000) / 0x8000;
  }

  /** No pre-emphasis of the run saturates. */
  ghost predicate EmphasisFits(st: Pre, xs: seq<int16>) {
    xs != [] ==>
      var n := |xs| - 1;
      var before := Preprocessed(st, xs[..n]).0;
      EmphasisFits(st, xs[..n]) && Fits16(Int(PreStep(before, xs[n]).0.mp) + MultR(before.mp, -28180))
  }

  /** The decoder's de-emphasis undoes the encoder's pre-emphasis: its memory stays within
      seven of the compensated sample, over any run in which no pre-emphasis saturates. */
  lemma {:induction false} DeemphasisTracks(st: Pre, msr: int16, xs: seq<int16>)
    requires Abs(Int(msr) - st.mp) <= 7 && EmphasisFits(st, xs)
    ensures Abs(Int(Postprocessed(msr, Preprocessed(st, xs).1).0) - Preprocessed(st, xs).0.mp) <= 7
  {
    hide PreStep, MultR, SatAdd16, Truncated, Fits16;
    if xs == [] {
    } else {
      var n := |xs| - 1;
      DeemphasisTracks(st, msr, xs[..n]);
      var (before, ys) := Preprocessed(st, xs[..n]);
      var (after, y) := PreStep(before, xs[n]);
      assert (ys + [y])[..n] == ys;
      var m := Postprocessed(msr, ys).0;
      EmphasisUndone(after.mp, before.mp, m);
      EmphasisIs(before, xs[n]);
    }
  }

  lemma EmphasisIs(st: Pre, x: int16)
    ensures PreStep(st, x).1 == SatAdd16(PreStep(st, x).0.mp, MultR(st.mp, -28180))
  {
    hide MultR, SatAdd16;
  }

  /** From reset, whatever came before it, the last output sample is twice the compensated
      value of the last input sample, to within 21, unless that is clipped. */
  lemma OutputFollowsInput(xs: seq<int16>, mp: int16, out: seq<int16>)
    requires xs != [] && EmphasisFits(PRE_RESET, xs) && mp == Preprocessed(PRE_RESET, xs).0.mp
    requires out == Postprocessed(0, Preprocessed(PRE_RESET, xs).1).1
    ensures -16376 <= mp <= 16376 ==> Abs(Int(out[|xs| - 1]) - 2 * Int(mp)) <= 21
  {
    hide EmphasisFits, Preprocessed, Postprocessed, SatAdd16, Truncated;
    DeemphasisTracks(PRE_RESET, 0, xs);
    var ys := Preprocessed(PRE_RESET, xs).1;
    LastOutput(0, ys);
    if -16376 <= mp <= 16376 { OutputNear(Postprocessed(0, ys).0, mp); }
  }

  lemma OutputNear(m: int16, mp: int16)
    requires Abs(Int(m) - mp) <= 7 && -16376 <= mp <= 16376
    ensures Abs(Int(Truncated(SatAdd16(m, m))) - 2 * Int(mp)) <= 21
  {
  }

  lemma LastOutput(msr: int16, ys: seq<int16>)
    requires ys != []
    ensures var (m, out) := Postprocessed(msr, ys);
            out[|ys| - 1] == Truncated(SatAdd16(m, m))
  {
    hide MultR;
  }

  function EncodeFrame(st: EncState, amp: Block): (EncState, Frame) {
    var (pre, so) := Preprocessed(st.pre, amp);
    var larc := AnalysedLars(so);
    var cur := DecodedLars(larc);
    var (u, d) := Analysed(Schedule(st.lars.Latest(), cur), st.u, RescaledFrame(so));
    var (hist, subs) := EncodeSubs(st.hist, d, 4);
    (EncState(pre, st.lars.Store(cur), u, hist), Frame(larc, subs))
  }

  function DecodeFrame(st: DecState, f: Frame): (r: (DecState, Block))
    requires FrameDecodes(f) && 40 <= st.nrp <= 120
    ensures 40 <= r.0.nrp <= 120
  {
    hide DecodeSubs, Synthesised, Schedule, DecodedLars, Postprocessed, SubDecodes;
    var (hist, nrp, wt) := DecodeSubs(st.hist, st.nrp, f.subs);
    var cur := DecodedLars(f.larc);
    var (v, sr) := Synthesised(Schedule(st.lars.Latest(), cur), st.v, wt);
    var (msr, amp) := Postprocessed(st.msr, sr);
    (DecState(st.lars.Store(cur), v, hist, nrp, msr), amp)
  }

  /** What encoder and decoder share: the reconstructed residual the next predictions read,
      the decoded log area ratios and the buffer index. */
  predicate InStep(e: EncState, d: DecState) {
    e.hist == d.hist && e.lars == d.lars
  }

  lemma LarsOfFrameFit(so: seq<int16>)
    requires |so| == FRAME_LEN
    ensures LarsFit(AnalysedLars(so))
  {
    hide AnalysedLars, Pow2;
    Pow2Table();
    AnalysedLarsFit(so, 0);
    AnalysedLarsFit(so, 1);
    AnalysedLarsFit(so, 2);
    AnalysedLarsFit(so, 3);
    AnalysedLarsFit(so, 4);
    AnalysedLarsFit(so, 5);
    AnalysedLarsFit(so, 6);
    AnalysedLarsFit(so, 7);
  }

  /** One frame: every parameter fits its field, every lag is valid, and a decoder in step
      with the encoder stays in step. */
  lemma FrameLockstep(e: EncState, d: DecState, amp: Block)
    requires InStep(e, d) && 40 <= d.nrp <= 120
    ensures var (e', f) := EncodeFrame(e, amp);
            && FrameFits(f) && FrameDecodes(f)
            && (forall i :: 0 <= i < 4 ==> 40 <= f.subs[i].nc <= 120)
            && InStep(e', DecodeFrame(d, f).0)
  {
    hide Preprocessed, AnalysedLars, DecodedLars, Analysed, Schedule, RescaledFrame, EncodeSubs;
    hide DecodeSubs, Synthesised, Postprocessed, LarsFit, SubFits, SubDecodes;
    var so := Preprocessed(e.pre, amp).1;
    LarsOfFrameFit(so);
    var cur := DecodedLars(AnalysedLars(so));
    SubsLockstep(e.hist, d.nrp, Analysed(Schedule(e.lars.Latest(), cur), e.u, RescaledFrame(so)).1, 4);
  }

  // ---------------------------------------------------------------- runs

  function EncodeRun(st: EncState, amps: seq<Block>): (r: (EncState, seq<Frame>))
    ensures |r.1| == |amps|
  {
    if amps == [] then (st, [])
    else
      var (st1, fs) := EncodeRun(st, amps[..|amps| - 1]);
      var (st2, f) := EncodeFrame(st1, amps[|amps| - 1]);
      (st2, fs + [f])
  }

  ghost predicate AllFit(fs: seq<Frame>) {
    forall i :: 0 <= i < |fs| ==> FrameFits(fs[i])
  }

  ghost predicate AllDecode(fs: seq<Frame>) {
    forall i :: 0 <= i < |fs| ==> FrameDecodes(fs[i])
  }

  function DecodeRun(st: DecState, fs: seq<Frame>): (r: (DecState, seq<int16>))
    requires AllDecode(fs) && 40 <= st.nrp <= 120
    ensures 40 <= r.0.nrp <= 120 && |r.1| == 160 * |fs|
  {
    if fs == [] then (st, [])
    else
      var (st1, xs) := DecodeRun(st, fs[..|fs| - 1]);
      var (st2, ys) := DecodeFrame(st1, fs[|fs| - 1]);
      (st2, xs + ys)
  }

  /** Over every run of frames encoder and decoder stay in step. */
  lemma {:induction false} RunLockstep(e: EncState, d: DecState, amps: seq<Block>)
    requires InStep(e, d) && 40 <= d.nrp <= 120
    ensures AllFit(EncodeRun(e, amps).1) && AllDecode(EncodeRun(e, amps).1)
    ensures InStep(EncodeRun(e, amps).0, DecodeRun(d, EncodeRun(e, amps).1).0)
  {
    hide EncodeFrame, DecodeFrame, FrameFits, FrameDecodes, InStep;
    if amps == [] {
    } else {
      var n := |amps| - 1;
      RunLockstep(e, d, amps[..n]);
      var (e1, fs) := EncodeRun(e, amps[..n]);
      FrameLockstep(e1, DecodeRun(d, fs).0, amps[n]);
      var f := EncodeFrame(e1, amps[n]).1;
      assert (fs + [f])[..n] == fs;
    }
  }

  // ---------------------------------------------------------------- streams

  datatype Packing = PackingNone | PackingWav49 | PackingVoip

  /** Bytes of one packed unit, and frames in it. */
  function UnitBytes(p: Packing): (b: nat)
    ensures b > 0
  {
    match p case PackingNone => 76 case PackingWav49 => 65 case PackingVoip => 33
  }

  function UnitFrames(p: Packing): (m: nat)
    ensures m > 0
  {
    if p == PackingWav49 then 2 else 1
  }

  /** The unit carries the frames. */
  ghost predicate UnitCarries(p: Packing, unit: seq<byte>, fs: seq<Frame>) {
    && |unit| == UnitBytes(p) && |fs| == UnitFrames(p)
    && match p
       case PackingNone => IsPlain(unit, fs[0])
       case PackingWav49 => IsWav49(unit, fs[0], fs[1])
       case PackingVoip => exists m: nat :: CarriesVoip(unit, m, fs[0])
  }

  lemma UnitUnique(p: Packing, unit: seq<byte>, fs: seq<Frame>, gs: seq<Frame>)
    requires UnitCarries(p, unit, fs) && UnitCarries(p, unit, gs)
    ensures fs == gs
  {
    hide IsPlain, IsWav49, CarriesVoip, FrameFits;
    match p
    case PackingNone => PlainBijective(unit, fs[0], unit, gs[0]);
    case PackingWav49 => Wav49Bijective(unit, fs[0], fs[1], unit, gs[0], gs[1]);
    case PackingVoip =>
      var m: nat :| CarriesVoip(unit, m, fs[0]);
      var n: nat :| CarriesVoip(unit, n, gs[0]);
      VoipBijective(unit, m, fs[0], unit, n, gs[0]);
  }

  /** The bit formats leave no room for a parameter that does not fit. */
  lemma UnitFits(p: Packing, unit: seq<byte>, fs: seq<Frame>)
    requires UnitCarries(p, unit, fs) && p != PackingNone
    ensures AllFit(fs)
  {
  }

  lemma UnitDecodes(p: Packing, unit: seq<byte>, fs: seq<Frame>)
    requires UnitCarries(p, unit, fs)
    ensures AllDecode(fs) <==> (p == PackingNone ==> PlainUnitDecodes(unit))
  {
    hide IsPlain, FrameFits, FrameDecodes, PlainUnitDecodes;
    if p == PackingNone {
      PlainUnitDecodesIff(unit, fs[0]);
    } else {
      UnitFits(p, unit, fs);
      forall i | 0 <= i < |fs| ensures FrameDecodes(fs[i]) {
        FittingDecodes(fs[i]);
      }
    }
  }

  /** The stream is a sequence of units that carry the frames between them. */
  ghost predicate Carries(p: Packing, code: seq<byte>, fs: seq<Frame>)
    decreases |code|
  {
    if code == [] then fs == []
    else
      var b, m := UnitBytes(p), UnitFrames(p);
      && |code| >= b && |fs| >= m
      && Carries(p, code[..|code| - b], fs[..|fs| - m])
      && UnitCarries(p, code[|code| - b..], fs[|fs| - m..])
  }

  lemma UnitSize(p: Packing, unit: seq<byte>, gs: seq<Frame>)
    requires UnitCarries(p, unit, gs)
    ensures |unit| == UnitBytes(p) && |gs| == UnitFrames(p)
  {
    hide IsPlain, IsWav49, CarriesVoip, FrameFits;
  }

  lemma CarriesSnoc(p: Packing, code: seq<byte>, fs: seq<Frame>, unit: seq<byte>, gs: seq<Frame>)
    requires Carries(p, code, fs) && UnitCarries(p, unit, gs)
    ensures Carries(p, code + unit, fs + gs)
  {
    UnitSize(p, unit, gs);
    hide UnitCarries, UnitBytes, UnitFrames;
    var b, m := UnitBytes(p), UnitFrames(p);
    assert |unit| == b && |gs| == m;
    assert (code + unit)[..|code|] == code && (code + unit)[|code|..] == unit;
    assert (fs + gs)[..|fs|] == fs && (fs + gs)[|fs|..] == gs;
  }

  /** A stream determines the frames it carries. */
  lemma {:induction false} CarriesUnique(p: Packing, code: seq<byte>, fs: seq<Frame>, gs: seq<Frame>)
    requires Carries(p, code, fs) && Carries(p, code, gs)
    ensures fs == gs
    decreases |code|
  {
    hide UnitCarries, UnitBytes, UnitFrames;
    if code == [] {
    } else {
      var b, m := UnitBytes(p), UnitFrames(p);
      var f, g := fs[|fs| - m..], gs[|gs| - m..];
      UnitUnique(p, code[|code| - b..], f, g);
      CarriesUnique(p, code[..|code| - b], fs[..|fs| - m], gs[..|gs| - m]);
      assert fs == fs[..|fs| - m] + f;
      assert gs == gs[..|gs| - m] + g;
    }
  }

  /** Every parameter read out of a stream of either bit format fits its field. */
  lemma {:induction false} CarriesFits(p: Packing, code: seq<byte>, fs: seq<Frame>)
    requires Carries(p, code, fs) && p != PackingNone
    ensures AllFit(fs)
    decreases |code|
  {
    hide UnitCarries, UnitBytes, UnitFrames, FrameFits;
    if code == [] {
    } else {
      var b, m := UnitBytes(p), UnitFrames(p);
      var front, gs := fs[..|fs| - m], fs[|fs| - m..];
      CarriesFits(p, code[..|code| - b], front);
      UnitFits(p, code[|code| - b..], gs);
      assert fs == front + gs;
    }
  }

  /** The bytes the decoder reads when told there are len of them. */
  function BytesRead(p: Packing, len: int): (n: nat)
    ensures len <= n
  {
    LoopEnd(0, len, UnitBytes(p))
  }

  /** The samples the encoder reads when told there are len of them. */
  function SamplesRead(p: Packing, len: int): (n: nat)
    ensures len <= n
  {
    LoopEnd(0, len, 160 * UnitFrames(p))
  }

  /** The codec stays inside an input of len elements if and only if it is a whole number of
      units. */
  lemma ReadsInside(p: Packing, len: nat)
    ensures BytesRead(p, len) <= len <==> Aligned(p, len)
    ensures SamplesRead(p, len) <= len <==> len % (if p == PackingWav49 then 320 else 160) == 0
  {
    LoopEndWhole(0, len, UnitBytes(p));
    LoopEndWhole(0, len, 160 * UnitFrames(p));
  }

  /** n bytes are a whole number of units. */
  predicate Aligned(p: Packing, n: nat) {
    match p case PackingNone => n % 76 == 0 case PackingWav49 => n % 65 == 0 case PackingVoip => n % 33 == 0
  }

  /** The index bytes of the 76 from i on are in range. */
  predicate PlainDecodesAt(code: seq<byte>, i: nat) {
    i + 76 <= |code| ==> PlainUnitDecodes(code[i..i + 76])
  }

  /** The index bytes of every unit of a stream in the plain format are in range. */
  ghost predicate PlainDecodes(code: seq<byte>) {
    forall i: nat :: i % 76 == 0 ==> PlainDecodesAt(code, i)
  }

  /** The decoder can use the stream. */
  ghost predicate StreamDecodes(p: Packing, code: seq<byte>) {
    p == PackingNone ==> PlainDecodes(code)
  }

  lemma PlainSnocAt(code: seq<byte>, unit: seq<byte>, i: nat)
    requires |unit| == 76 && |code| % 76 == i % 76 == 0
    ensures PlainDecodesAt(code + unit, i)
            <==> PlainDecodesAt(code, i) && (i == |code| ==> PlainUnitDecodes(unit))
  {
    hide PlainUnitDecodes;
    var whole := code + unit;
    assert whole[|code|..|code| + 76] == unit;
    if i + 76 <= |code| { assert whole[i..i + 76] == code[i..i + 76]; }
  }

  lemma PlainDecodesSnoc(code: seq<byte>, unit: seq<byte>)
    requires |unit| == 76 && |code| % 76 == 0
    ensures PlainDecodes(code + unit) <==> PlainDecodes(code) && PlainUnitDecodes(unit)
  {
    hide PlainUnitDecodes, PlainDecodesAt;
    PlainSnocAt(code, unit, |code|);
    if PlainDecodes(code + unit) {
      forall i: nat | i % 76 == 0 ensures PlainDecodesAt(code, i) {
        PlainSnocAt(code, unit, i);
      }
    }
    if PlainDecodes(code) && PlainUnitDecodes(unit) {
      forall i: nat | i % 76 == 0 ensures PlainDecodesAt(code + unit, i) {
        PlainSnocAt(code, unit, i);
      }
    }
  }

  lemma StreamDecodesSnoc(p: Packing, code: seq<byte>, unit: seq<byte>)
    requires Aligned(p, |code|) && |unit| == UnitBytes(p)
    ensures Aligned(p, |code| + |unit|)
    ensures StreamDecodes(p, code + unit)
            <==> StreamDecodes(p, code) && (p == PackingNone ==> PlainUnitDecodes(unit))
  {
    hide PlainUnitDecodes, PlainDecodes;
    ModStep(|code|, UnitBytes(p));
    if p == PackingNone { PlainDecodesSnoc(code, unit); }
  }

  /** A stream of whole units gives frames the decoder can use if and only if its index bytes
      are in range; the packed formats have no other. */
  lemma {:induction false} CarriedDecode(p: Packing, code: seq<byte>, fs: seq<Frame>)
    requires Carries(p, code, fs)
    ensures Aligned(p, |code|)
    ensures AllDecode(fs) <==> StreamDecodes(p, code)
    decreases |code|
  {
    hide Carries, UnitCarries, AllDecode, StreamDecodes, Aligned, PlainUnitDecodes;
    if code == [] {
      CarriesNothing(p, code, fs);
      EmptyStreamDecodes(p, code, fs);
    } else {
      var n, m := CarriesLast(p, code, fs);
      CarriedDecode(p, code[..n], fs[..m]);
      CarriedNext(p, code, fs, n, m);
    }
  }

  lemma CarriesNothing(p: Packing, code: seq<byte>, fs: seq<Frame>)
    requires code == [] && Carries(p, code, fs)
    ensures fs == []
  {
  }

  /** The last unit starts at byte n, and its frames at frame m. */
  lemma CarriesLast(p: Packing, code: seq<byte>, fs: seq<Frame>) returns (n: nat, m: nat)
    requires code != [] && Carries(p, code, fs)
    ensures n < |code| && m <= |fs| && Carries(p, code[..n], fs[..m]) && UnitCarries(p, code[n..], fs[m..])
  {
    hide UnitCarries;
    n, m := |code| - UnitBytes(p), |fs| - UnitFrames(p);
  }

  /** One unit more, from byte n on, with the frames from m on. */
  lemma CarriedNext(p: Packing, code: seq<byte>, fs: seq<Frame>, n: nat, m: nat)
    requires n <= |code| && m <= |fs| && UnitCarries(p, code[n..], fs[m..])
    requires Aligned(p, n) && (AllDecode(fs[..m]) <==> StreamDecodes(p, code[..n]))
    ensures Aligned(p, |code|) && (AllDecode(fs) <==> StreamDecodes(p, code))
  {
    hide UnitCarries, UnitBytes, UnitFrames, AllDecode, StreamDecodes, Aligned, PlainUnitDecodes;
    UnitSize(p, code[n..], fs[m..]);
    UnitDecodes(p, code[n..], fs[m..]);
    StreamDecodesSnoc(p, code[..n], code[n..]);
    AllDecodeConcat(fs[..m], fs[m..]);
    assert code == code[..n] + code[n..] && fs == fs[..m] + fs[m..];
  }

  lemma EmptyStreamDecodes(p: Packing, code: seq<byte>, fs: seq<Frame>)
    requires code == [] && fs == []
    ensures Aligned(p, |code|) && StreamDecodes(p, code) && AllDecode(fs)
  {
  }

  lemma AllDecodeConcat(fs: seq<Frame>, gs: seq<Frame>)
    ensures AllDecode(fs + gs) <==> AllDecode(fs) && AllDecode(gs)
  {
    hide FrameDecodes;
    forall i | 0 <= i < |fs| ensures (fs + gs)[i] == fs[i] {
    }
    forall i | 0 <= i < |gs| ensures (fs + gs)[|fs| + i] == gs[i] {
    }
  }

  /** Whole-run lockstep through any of the three formats: the encoder's bytes are what a
      decoder demands, and the frames it reads out of them are the encoder's own and leave it
      in step. */
  lemma StreamLockstep(p: Packing, code: seq<byte>, e: EncState, d: DecState, amps: seq<Block>, gs: seq<Frame>)
    requires InStep(e, d) && 40 <= d.nrp <= 120
    requires Carries(p, code, EncodeRun(e, amps).1)
    ensures BytesRead(p, |code|) == |code| && StreamDecodes(p, code)
    ensures Carries(p, code, gs) ==> gs == EncodeRun(e, amps).1
    ensures AllFit(EncodeRun(e, amps).1) && AllDecode(EncodeRun(e, amps).1)
    ensures InStep(EncodeRun(e, amps).0, DecodeRun(d, EncodeRun(e, amps).1).0)
  {
    hide Carries, InStep, EncodeRun, DecodeRun, FrameFits, FrameDecodes, StreamDecodes, BytesRead, Aligned;
    RunLockstep(e, d, amps);
    CarriedDecode(p, code, EncodeRun(e, amps).1);
    ReadsInside(p, |code|);
    if Carries(p, code, gs) {
      CarriesUnique(p, code, gs, EncodeRun(e, amps).1);
    }
  }

  // ---------------------------------------------------------------- lattice reconstruction over runs

  /** The coefficients of all samples of a run of frames with coded ratios larcs. */
  function RunSchedule(l: Lars, larcs: seq<Vec8>): (cs: seq<Vec8>)
    ensures |cs| == 160 * |larcs|
  {
    if larcs == [] then []
    else
      var n := |larcs| - 1;
      RunSchedule(l, larcs[..n]) + Schedule(RunLars(l, larcs[..n]).Latest(), DecodedLars(larcs[n]))
  }

  function RunLars(l: Lars, larcs: seq<Vec8>): Lars {
    if larcs == [] then l
    else RunLars(l, larcs[..|larcs| - 1]).Store(DecodedLars(larcs[|larcs| - 1]))
  }

  lemma {:induction false} RunScheduleStable(l: Lars, larcs: seq<Vec8>)
    ensures forall i :: 0 <= i < 160 * |larcs| ==> Stable(RunSchedule(l, larcs)[i])
  {
    hide Stable, Schedule;
    if larcs == [] {
    } else {
      var n := |larcs| - 1;
      RunScheduleStable(l, larcs[..n]);
      ScheduleStable(RunLars(l, larcs[..n]).Latest(), DecodedLars(larcs[n]));
    }
  }

  /** Fed with the encoder's own short term residual, the decoder's synthesis filter gives
      back the filtered signal bit for bit over the whole run, as long as no lattice stage
      of the encoder saturates. */
  lemma ShortTermRoundTrip(l: Lars, larcs: seq<Vec8>, u: Vec8, v: Vec9, xs: seq<int16>)
    requires |xs| == 160 * |larcs| && v[..8] == u
    requires RunFits(RunSchedule(l, larcs), u, xs)
    ensures var cs := RunSchedule(l, larcs);
            && Synthesised(cs, v, Analysed(cs, u, xs).1).1 == xs
            && Synthesised(cs, v, Analysed(cs, u, xs).1).0[..8] == Analysed(cs, u, xs).0
  {
    hide Stable, RunFits, Analysed, Synthesised, RunSchedule;
    RunScheduleStable(l, larcs);
    PerfectReconstruction(RunSchedule(l, larcs), u, v, xs);
  }
}
