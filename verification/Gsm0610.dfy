/** The GSM 06.10 codec object: one state serves as encoder and as decoder, and every method
    is proved to do to it what GsmCodec says of a frame or a stream. */
module Gsm0610 {
  import opened FixedPoint
  import opened Bits
  import opened GsmPreprocess
  import opened GsmArith
  import opened GsmLpc
  import opened GsmShortTerm
  import opened GsmLongTerm
  import opened GsmRpe
  import opened GsmPacking
  import opened GsmCodec

  /** The samples of a stream as blocks. */
  function Blocks(amp: seq<int16>): (bs: seq<Block>)
    requires |amp| % 160 == 0
    ensures |bs| == |amp| / 160
  {
    if amp == [] then [] else Blocks(amp[..|amp| - 160]) + [amp[|amp| - 160..]]
  }

  lemma BlocksSnoc(amp: seq<int16>, b: Block)
    requires |amp| % 160 == 0
    ensures Blocks(amp + b) == Blocks(amp) + [b]
  {
    assert (amp + b)[..|amp|] == amp && (amp + b)[|amp|..] == b;
  }

  lemma EncodeRunSnoc(st: EncState, amps: seq<Block>, b: Block)
    ensures var (st1, fs) := EncodeRun(st, amps);
            var (st2, f) := EncodeFrame(st1, b);
            EncodeRun(st, amps + [b]) == (st2, fs + [f])
  {
    hide EncodeFrame;
    assert (amps + [b])[..|amps|] == amps;
  }

  lemma DecodeRunSnoc(st: DecState, fs: seq<Frame>, f: Frame)
    requires AllDecode(fs) && FrameDecodes(f) && 40 <= st.nrp <= 120
    ensures var (st1, xs) := DecodeRun(st, fs);
            var (st2, ys) := DecodeFrame(st1, f);
            AllDecode(fs + [f]) && DecodeRun(st, fs + [f]) == (st2, xs + ys)
  {
    hide DecodeFrame, FrameDecodes;
    assert (fs + [f])[..|fs|] == fs;
  }

  lemma BlocksAt(amp: seq<int16>, i: nat)
    requires i % 160 == 0 && i + 160 <= |amp|
    ensures Blocks(amp[..i + 160]) == Blocks(amp[..i]) + [amp[i..i + 160]]
  {
    hide Blocks;
    assert amp[..i + 160] == amp[..i] + amp[i..i + 160];
    BlocksSnoc(amp[..i], amp[i..i + 160]);
  }

  lemma EncodedFrameFits(st: EncState, amp: Block)
    ensures FrameFits(EncodeFrame(st, amp).1)
  {
    hide EncodeFrame, DecodeFrame, FrameFits;
    FrameLockstep(st, DecState(st.lars, Zeros(9), st.hist, 40, 0), amp);
  }

  /** After i samples the encoder is in state view and has sent fs. */
  ghost predicate Encoded160(st: EncState, amp: seq<int16>, i: nat, view: EncState, fs: seq<Frame>) {
    && i % 160 == 0 && i <= |amp|
    && (view, fs) == EncodeRun(st, Blocks(amp[..i]))
  }

  ghost predicate Decoded160(st: DecState, fs: seq<Frame>, view: DecState, amp: seq<int16>) {
    && AllDecode(fs) && 40 <= st.nrp <= 120
    && (view, amp) == DecodeRun(st, fs)
  }

  lemma EmptyStream(p: Packing, st: EncState, amp: seq<int16>)
    ensures Encoded160(st, amp, 0, st, []) && Carries(p, [], [])
  {
    hide EncodeFrame;
    assert amp[..0] == [];
  }

  lemma EncodedAll(st: EncState, amp: seq<int16>, i: nat, view: EncState, fs: seq<Frame>)
    requires Encoded160(st, amp, i, view, fs)
    ensures i % 160 == 0 && i <= |amp| && (view, fs) == EncodeRun(st, Blocks(amp[..i]))
  {
    hide EncodeRun, Blocks;
  }

  lemma DecodeNothing(p: Packing, st: DecState)
    requires 40 <= st.nrp <= 120
    ensures Decoded160(st, [], st, []) && Carries(p, [], [])
  {
  }

  lemma DecodedAll(st: DecState, fs: seq<Frame>, view: DecState, amp: seq<int16>)
    requires Decoded160(st, fs, view, amp)
    ensures AllDecode(fs) && (view, amp) == DecodeRun(st, fs)
  {
    hide DecodeRun;
  }

  /** The index bytes of a unit of the plain format are in range. */
  ghost predicate CodeDecodes(p: Packing, unit: seq<byte>) {
    p == PackingNone ==> |unit| == 76 && PlainUnitDecodes(unit)
  }

  lemma NextUnit(p: Packing, i: nat)
    requires Aligned(p, i)
    ensures Aligned(p, i + UnitBytes(p))
  {
    ModStep(i, UnitBytes(p));
  }

  lemma StreamDecodesAt(code: seq<byte>, i: nat)
    requires StreamDecodes(PackingNone, code) && Aligned(PackingNone, i)
    ensures PlainDecodesAt(code, i)
  {
    hide PlainDecodesAt;
  }

  lemma UnitAt(p: Packing, code: seq<byte>, i: nat)
    requires StreamDecodes(p, code) && Aligned(p, i) && i + UnitBytes(p) <= |code|
    ensures Aligned(p, i + UnitBytes(p)) && CodeDecodes(p, code[i..i + UnitBytes(p)])
  {
    hide PlainUnitDecodes, StreamDecodes;
    NextUnit(p, i);
    if p == PackingNone {
      StreamDecodesAt(code, i);
      assert PlainDecodesAt(code, i);
    }
  }

  lemma UsedSlice(code: seq<byte>, n: nat, i: nat, b: nat)
    requires i + b <= n <= |code|
    ensures code[..n][i..i + b] == code[i..i + b] && code[..n][..i + b] == code[..n][..i] + code[i..i + b]
  {
  }

  lemma SamplesWhole(p: Packing, len: int)
    ensures SamplesRead(p, len) % 160 == 0
  {
    LoopEndWhole(0, len, 160 * UnitFrames(p));
  }

  lemma PlainUnit(unit: seq<byte>, f: Frame)
    requires IsPlain(unit, f)
    ensures UnitCarries(PackingNone, unit, [f])
  {
  }

  lemma Wav49Unit(unit: seq<byte>, f0: Frame, f1: Frame)
    requires IsWav49(unit, f0, f1)
    ensures UnitCarries(PackingWav49, unit, [f0, f1]) && FrameDecodes(f0) && FrameDecodes(f1)
  {
    FittingDecodes(f0);
    FittingDecodes(f1);
  }

  lemma VoipUnit(unit: seq<byte>, m: nat, f: Frame)
    requires CarriesVoip(unit, m, f)
    ensures UnitCarries(PackingVoip, unit, [f]) && FrameDecodes(f)
  {
    FittingDecodes(f);
    assert CarriesVoip(unit, m, [f][0]);
  }

  lemma DecodeSubsUnfold(hist: Hist, nrp: nat, subs: SubFrames, k: nat)
    requires 40 <= nrp <= 120 && k < 4 && forall i :: 0 <= i < 4 ==> SubDecodes(subs[i])
    ensures k == 0 ==> DecodeSubs(hist, nrp, subs[..0]) == (hist, nrp, [])
    ensures var (h, nr, wt) := DecodeSubs(hist, nrp, subs[..k]);
            var seg := DecodeSub(h, nr, subs[k]);
            DecodeSubs(hist, nrp, subs[..k + 1]) == (NextHist(h, seg), LagUsed(subs[k].nc, nr), wt + seg)
  {
    hide DecodeSub, NextHist, LagUsed, SubDecodes;
    assert subs[..k + 1][..k] == subs[..k];
  }

  lemma AnalysedNothing(u: Vec8, xs: seq<int16>)
    ensures xs[..0] == [] && Analysed([], u, xs[..0]) == (u, [])
  {
  }

  /** The five words on either side of the residual are zero. */
  ghost predicate GuardsZero(e: seq<int16>) {
    |e| == 50 && forall i :: 0 <= i < 50 && !(5 <= i < 45) ==> e[i] == 0
  }

  lemma GuardsKept(e: seq<int16>, e': seq<int16>)
    requires GuardsZero(e) && |e'| == 50 && e'[..5] == e[..5] && e'[45..] == e[45..]
    ensures GuardsZero(e')
  {
    forall i | 0 <= i < 50 && !(5 <= i < 45) ensures e'[i] == 0 {
      if i < 5 { assert e'[i] == e[..5][i] == e[i]; } else { assert e'[i] == e[45..][i - 45] == e[i]; }
    }
  }

  lemma GuardedIs(e: seq<int16>, r: Seg)
    requires GuardsZero(e) && e[5..45] == r
    ensures e == Guarded(r)
  {
    forall i | 0 <= i < 50 ensures e[i] == Guarded(r)[i] {
      if 5 <= i < 45 { assert e[i] == e[5..45][i - 5]; }
    }
  }

  /** gsm0610_state_t */
  class State {
    const packing: Packing
    const dp0: array<int16>
    const e: array<int16>
    const u: array<int16>
    const v: array<int16>
    const larpp0: array<int16>
    const larpp1: array<int16>
    var pre: Pre
    var j: nat
    var nrp: nat
    var msr: int16

    ghost predicate Valid()
      reads this, e
    {
      && dp0.Length == 280 && e.Length == 50 && u.Length == 8 && v.Length == 9
      && larpp0.Length == 8 && larpp1.Length == 8
      && dp0 != e && dp0 != u && dp0 != v && dp0 != larpp0 && dp0 != larpp1
      && e != u && e != v && e != larpp0 && e != larpp1
      && u != v && u != larpp0 && u != larpp1 && v != larpp0 && v != larpp1 && larpp0 != larpp1
      && j <= 1 && 40 <= nrp <= 120
      && GuardsZero(e[..])
    }

    /** The arrays the codec works in. */
    ghost function Repr(): set<object> {
      {this, dp0, e, u, v, larpp0, larpp1}
    }

    ghost function LarsView(): Lars
      reads this, larpp0, larpp1
      requires larpp0.Length == 8 && larpp1.Length == 8
    {
      Lars(larpp0[..], larpp1[..], j)
    }

    ghost function EncView(): EncState
      reads this, dp0, e, u, larpp0, larpp1
      requires Valid()
    {
      EncState(pre, LarsView(), u[..], dp0[..120])
    }

    ghost function DecView(): DecState
      reads this, dp0, e, v, larpp0, larpp1
      requires Valid()
    {
      DecState(LarsView(), v[..], dp0[..120], nrp, msr)
    }

    /** gsm0610_init */
    constructor (packing: Packing)
      ensures Valid() && fresh(Repr()) && this.packing == packing
      ensures EncView() == EncState(PRE_RESET, Lars(Zeros(8), Zeros(8), 0), Zeros(8), Zeros(120))
      ensures DecView() == DecState(Lars(Zeros(8), Zeros(8), 0), Zeros(9), Zeros(120), 40, 0)
      ensures InStep(EncView(), DecView())
    {
      this.packing := packing;
      dp0 := new int16[280](_ => 0);
      e := new int16[50](_ => 0);
      u := new int16[8](_ => 0);
      v := new int16[9](_ => 0);
      larpp0 := new int16[8](_ => 0);
      larpp1 := new int16[8](_ => 0);
      pre := PRE_RESET;
      j := 0;
      nrp := 40;
      msr := 0;
      new;
      assert e[..] == Zeros(50) && u[..] == Zeros(8) && v[..] == Zeros(9);
      assert larpp0[..] == Zeros(8) && larpp1[..] == Zeros(8) && dp0[..120] == Zeros(120);
    }

    /** The ratios of a frame decoded into the buffer whose turn it is. */
    method StoreLars(larc: Vec8) returns (prev: array<int16>, cur: array<int16>)
      requires Valid()
      modifies this`j, larpp0, larpp1
      ensures Valid() && cur != prev && cur in {larpp0, larpp1} && prev in {larpp0, larpp1}
      ensures prev[..] == old(LarsView()).Latest() && cur[..] == DecodedLars(larc)
      ensures LarsView() == old(LarsView()).Store(DecodedLars(larc))
    {
      hide DecodedLars;
      cur := if j == 0 then larpp0 else larpp1;
      j := if j == 0 then 1 else 0;
      prev := if j == 0 then larpp0 else larpp1;
      DecodeLogAreaRatios(larc, cur);
    }

    /** One segment of the analysis filter: the samples from start on, after those before. */
    method AnalyseSegment(segment: nat, prev: array<int16>, cur: array<int16>, amp: array<int16>, start: nat, n: nat,
                          ghost cs: seq<Vec8>, ghost u0: Vec8, ghost xs: Block)
      requires Valid() && amp.Length == 160 && amp !in Repr() && segment < 4
      requires prev in {larpp0, larpp1} && cur in {larpp0, larpp1} && start + n <= 160 && |cs| == start
      requires (u[..], amp[..start]) == Analysed(cs, u0, xs[..start]) && amp[start..] == xs[start..]
      modifies u, amp
      ensures Valid() && amp[start + n..] == xs[start + n..]
      ensures (u[..], amp[..start + n])
              == Analysed(cs + Constant(SegmentRp(segment, prev[..], cur[..]), n), u0, xs[..start + n])
    {
      hide Interpolated, LarToRp, Analysed, Stable;
      var larp := new int16[8];
      Coefficients(segment, prev, cur, larp);
      LarpToRp(larp);
      ghost var rp: Vec8 := SegmentRp(segment, prev[..], cur[..]);
      assert larp[..] == rp;
      SegmentRpStable(segment, prev[..], cur[..]);
      ghost var head := amp[..start];
      assert amp[start..start + n] == xs[start..start + n] by {
        assert amp[start..][..n] == xs[start..][..n];
      }
      AnalysedConcat(cs, Constant(rp, n), u0, xs[..start], xs[start..start + n]);
      assert xs[..start] + xs[start..start + n] == xs[..start + n];
      ShortTermAnalysisFiltering(u, larp, amp, start, n);
      assert amp[..start + n] == head + amp[start..start + n];
      assert amp[start + n..] == xs[start..][n..] == xs[start + n..];
    }

    /** gsm0610_short_term_analysis_filter */
    method ShortTermAnalysisFilter(larc: Vec8, amp: array<int16>)
      requires Valid() && amp.Length == 160 && amp !in Repr()
      modifies this`j, larpp0, larpp1, u, amp
      ensures Valid()
      ensures LarsView() == old(LarsView()).Store(DecodedLars(larc))
      ensures (u[..], amp[..])
              == Analysed(Schedule(old(LarsView()).Latest(), DecodedLars(larc)), old(u[..]), old(amp[..]))
    {
      hide DecodedLars, SegmentRp, Constant, Analysed;
      ghost var xs, u0 := amp[..], u[..];
      var prev, cur := StoreLars(larc);
      ghost var p: Vec8, c: Vec8 := prev[..], cur[..];
      ghost var c0, c1 := Constant(SegmentRp(0, p, c), 13), Constant(SegmentRp(1, p, c), 14);
      ghost var c2, c3 := Constant(SegmentRp(2, p, c), 13), Constant(SegmentRp(3, p, c), 120);
      assert (u[..], amp[..0]) == Analysed([], u0, xs[..0]) by { AnalysedNothing(u0, xs); }
      AnalyseSegment(0, prev, cur, amp, 0, 13, [], u0, xs);
      assert [] + c0 == c0;
      AnalyseSegment(1, prev, cur, amp, 13, 14, c0, u0, xs);
      AnalyseSegment(2, prev, cur, amp, 27, 13, c0 + c1, u0, xs);
      AnalyseSegment(3, prev, cur, amp, 40, 120, c0 + c1 + c2, u0, xs);
      assert amp[..160] == amp[..] && xs[..160] == xs;
    }

    method SynthesiseSegment(segment: nat, prev: array<int16>, cur: array<int16>, wt: Block, sr: array<int16>, start: nat, n: nat,
                             ghost cs: seq<Vec8>, ghost v0: Vec9)
      requires Valid() && sr.Length == 160 && sr !in Repr() && segment < 4
      requires prev in {larpp0, larpp1} && cur in {larpp0, larpp1} && start + n <= 160 && |cs| == start
      requires (v[..], sr[..start]) == Synthesised(cs, v0, wt[..start])
      modifies v, sr
      ensures Valid()
      ensures (v[..], sr[..start + n])
              == Synthesised(cs + Constant(SegmentRp(segment, prev[..], cur[..]), n), v0, wt[..start + n])
    {
      hide Interpolated, LarToRp, Synthesised;
      var larp := new int16[8];
      Coefficients(segment, prev, cur, larp);
      LarpToRp(larp);
      ghost var rp: Vec8 := SegmentRp(segment, prev[..], cur[..]);
      assert larp[..] == rp;
      ghost var head := sr[..start];
      SynthesisedConcat(cs, Constant(rp, n), v0, wt[..start], wt[start..start + n]);
      assert wt[..start] + wt[start..start + n] == wt[..start + n];
      ShortTermSynthesisFiltering(v, larp, wt[start..start + n], sr, start);
      assert sr[..start + n] == head + sr[start..start + n];
    }

    /** gsm0610_short_term_synthesis_filter */
    method ShortTermSynthesisFilter(larc: Vec8, wt: Block, sr: array<int16>)
      requires Valid() && sr.Length == 160 && sr !in Repr()
      modifies this`j, larpp0, larpp1, v, sr
      ensures Valid()
      ensures LarsView() == old(LarsView()).Store(DecodedLars(larc))
      ensures (v[..], sr[..])
              == Synthesised(Schedule(old(LarsView()).Latest(), DecodedLars(larc)), old(v[..]), wt)
    {
      hide DecodedLars, SegmentRp, Constant;
      ghost var v0 := v[..];
      var prev, cur := StoreLars(larc);
      ghost var p: Vec8, c: Vec8 := prev[..], cur[..];
      ghost var c0, c1 := Constant(SegmentRp(0, p, c), 13), Constant(SegmentRp(1, p, c), 14);
      ghost var c2, c3 := Constant(SegmentRp(2, p, c), 13), Constant(SegmentRp(3, p, c), 120);
      assert sr[..0] == [];
      SynthesiseSegment(0, prev, cur, wt, sr, 0, 13, [], v0);
      assert [] + c0 == c0;
      SynthesiseSegment(1, prev, cur, wt, sr, 13, 14, c0, v0);
      SynthesiseSegment(2, prev, cur, wt, sr, 27, 13, c0 + c1, v0);
      SynthesiseSegment(3, prev, cur, wt, sr, 40, 120, c0 + c1 + c2, v0);
      assert sr[..160] == sr[..] && wt[..160] == wt;
    }

    /** One pass of the sub-segment loop of encode_a_frame: prediction, residual and
        reconstruction in the sliding buffer dp0. */
    method EncodeSubInPlace(d: Seg, base: nat) returns (s: SubFrame)
      requires Valid() && 120 <= base <= 240
      modifies dp0, e
      ensures Valid()
      ensures (dp0[base - 80..base + 40], s) == EncodeSub(old(dp0[base - 120..base]), d)
    {
      hide LtpParameters, Predicted, Encoded, Decoded, SatAdd16;
      ghost var hist: Hist := dp0[base - 120..base];
      var bc, nc := EvaluateLtpParameters(d, dp0, base);
      ghost var dpp := Predicted(hist, nc, bc);
      LongTermAnalysisFiltering(bc, nc, dp0, base, d, e);
      GuardsKept(old(e[..]), e[..]);
      GuardedIs(e[..], LtpResidual(d, dpp));
      ghost var e0 := e[..];
      var p := RpeEncoding(e);
      GuardsKept(e0, e[..]);
      s := SubFrame(nc, bc, p);
      ghost var seg := LtpRestored(Decoded(p), dpp);
      for i := 0 to 40
        invariant dp0[..base] == old(dp0[..base])
        invariant forall k :: 0 <= k < i ==> dp0[base + k] == seg[k]
        invariant forall k :: i <= k < 40 ==> dp0[base + k] == dpp[k]
        modifies dp0
      {
        assert e[5 + i] == e[5..45][i];
        dp0[base + i] := SatAdd16(e[5 + i], dp0[base + i]);
      }
      assert dp0[base..base + 40] == seg;
      assert dp0[base - 80..base] == dp0[..base][base - 80..] == hist[40..];
      assert dp0[base - 80..base + 40] == NextHist(hist, seg);
    }

    /** The sub-segment loop of encode_a_frame, and the move of the last 120 samples to the
        front of the buffer. */
    method EncodeSubsInPlace(d: Block) returns (subs: SubFrames)
      requires Valid()
      modifies dp0, e
      ensures Valid()
      ensures (dp0[..120], subs) == EncodeSubs(old(dp0[..120]), d, 4)
    {
      hide EncodeSub;
      ghost var hist: Hist := dp0[..120];
      var done: seq<SubFrame> := [];
      for k := 0 to 4
        invariant Valid() && |done| == k
        invariant (dp0[40 * k..40 * k + 120], done) == EncodeSubs(hist, d, k)
      {
        var s := EncodeSubInPlace(d[40 * k..40 * (k + 1)], 120 + 40 * k);
        done := done + [s];
      }
      ghost var tail := dp0[160..280];
      assert (tail, done) == EncodeSubs(hist, d, 4);
      forall i | 0 <= i < 120 {
        dp0[i] := dp0[160 + i];
      }
      assert dp0[..120] == tail;
      subs := done;
    }

    /** encode_a_frame */
    method EncodeAFrame(amp: Block) returns (f: Frame)
      requires Valid()
      modifies this`pre, this`j, dp0, e, u, larpp0, larpp1
      ensures Valid()
      ensures (EncView(), f) == EncodeFrame(old(EncView()), amp)
    {
      hide Preprocessed, AnalysedLars, DecodedLars, Analysed, Schedule, RescaledFrame, EncodeSubs, LtpParameters;
      var so, larc := new int16[160], new int16[8];
      pre := Preprocess(pre, amp, so);
      LpcAnalysis(so, larc);
      ShortTermAnalysisFilter(larc[..], so);
      var subs := EncodeSubsInPlace(so[..]);
      f := Frame(larc[..], subs);
      assert EncView() == EncodeFrame(old(EncView()), amp).0 && f == EncodeFrame(old(EncView()), amp).1;
    }

    /** postprocessing */
    method Postprocessing(amp: array<int16>)
      modifies this`msr, amp
      ensures (msr, amp[..]) == Postprocessed(old(msr), old(amp[..]))
    {
      hide MultR, SatAdd16, Truncated;
      ghost var xs := amp[..];
      var m := msr;
      for k := 0 to amp.Length
        invariant (m, amp[..k]) == Postprocessed(old(msr), xs[..k])
        invariant amp[k..] == xs[k..]
      {
        assert amp[k..][0] == xs[k..][0] && xs[..k + 1][..k] == xs[..k];
        ghost var done := amp[..k];
        var tmp := MultR(m, 28180);
        m := SatAdd16(amp[k], tmp);
        amp[k] := Truncated(SatAdd16(m, m));
        assert amp[..k + 1] == done + [amp[k]];
        assert amp[k + 1..] == xs[k..][1..] == xs[k + 1..];
      }
      assert xs[..amp.Length] == xs && amp[..amp.Length] == amp[..];
      msr := m;
    }

    /** decode_a_frame */
    method DecodeAFrame(f: Frame, amp: array<int16>)
      requires Valid() && FrameDecodes(f) && amp.Length == 160 && amp !in Repr()
      modifies this`j, this`nrp, this`msr, dp0, v, larpp0, larpp1, amp
      ensures Valid()
      ensures (DecView(), amp[..]) == DecodeFrame(old(DecView()), f)
    {
      hide DecodedLars, Schedule, Synthesised, Postprocessed, DecodeSubs, SubDecodes;
      ghost var hist: Hist := dp0[..120];
      var erp, wt := new int16[40], new int16[160];
      DecodeSubsUnfold(hist, nrp, f.subs, 0);
      for k := 0 to 4
        invariant Valid() && (dp0[..120], nrp, wt[..40 * k]) == DecodeSubs(hist, old(nrp), f.subs[..k])
        modifies this`nrp, dp0, erp, wt
      {
        DecodeSubsUnfold(hist, old(nrp), f.subs, k);
        DecodeSubInPlace(f.subs[k], erp, wt, 40 * k);
      }
      assert f.subs[..4] == f.subs && wt[..160] == wt[..];
      assert LarsView() == old(LarsView()) && v[..] == old(v[..]) && msr == old(msr);
      ghost var block: Block := wt[..];
      ghost var cs := Schedule(old(LarsView()).Latest(), DecodedLars(f.larc));
      ShortTermSynthesisFilter(f.larc, wt[..], amp);
      ghost var sr := Synthesised(cs, old(v[..]), block).1;
      assert v[..] == Synthesised(cs, old(v[..]), block).0 && amp[..] == sr;
      Postprocessing(amp);
      assert msr == Postprocessed(old(msr), sr).0 && amp[..] == Postprocessed(old(msr), sr).1;
      assert DecView() == DecodeFrame(old(DecView()), f).0;
    }

    /** One pass of the loop of decode_a_frame. */
    method DecodeSubInPlace(s: SubFrame, erp: array<int16>, wt: array<int16>, start: nat)
      requires Valid() && SubDecodes(s) && erp.Length == 40 && wt.Length == 160 && start + 40 <= 160
      requires erp !in Repr() && wt !in Repr() && erp != wt
      modifies this`nrp, dp0, erp, wt
      ensures Valid() && nrp == LagUsed(s.nc, old(nrp))
      ensures var seg := DecodeSub(old(dp0[..120]), old(nrp), s);
              dp0[..120] == NextHist(old(dp0[..120]), seg) && wt[..start + 40] == old(wt[..start]) + seg
    {
      hide Decoded, ExcitationFits, Predicted, LtpRestored, NextHist;
      RpeDecoding(s.p, erp);
      nrp := LongTermSynthesisFiltering(nrp, s.nc, s.bc, erp[..], dp0);
      ghost var seg := dp0[120..160];
      for k := 0 to 40
        invariant wt[..start] == old(wt[..start]) && forall i :: 0 <= i < k ==> wt[start + i] == seg[i]
        modifies wt
      {
        assert dp0[120 + k] == seg[k];
        wt[start + k] := dp0[120 + k];
      }
      assert wt[..start + 40] == old(wt[..start]) + seg;
    }

    /** The frame at sample i of a stream, after the frames before it. */
    method EncodeNext(amp: seq<int16>, i: nat, ghost st: EncState, ghost fs: seq<Frame>) returns (f: Frame)
      requires Valid() && Encoded160(st, amp, i, EncView(), fs) && i + 160 <= |amp|
      modifies this`pre, this`j, dp0, e, u, larpp0, larpp1
      ensures Valid() && FrameFits(f) && Encoded160(st, amp, i + 160, EncView(), fs + [f])
    {
      hide EncodeFrame, EncodeRun, FrameFits, Blocks;
      BlocksAt(amp, i);
      EncodeRunSnoc(st, Blocks(amp[..i]), amp[i..i + 160]);
      EncodedFrameFits(EncView(), amp[i..i + 160]);
      f := EncodeAFrame(amp[i..i + 160]);
    }

    /** The frames of one unit and the switch of gsm0610_encode. */
    method EncodeUnit(amp: seq<int16>, i: nat, ghost st: EncState, ghost fs: seq<Frame>)
      returns (unit: seq<byte>, ghost gs: seq<Frame>)
      requires Valid() && Encoded160(st, amp, i, EncView(), fs) && i + 160 * UnitFrames(packing) <= |amp|
      modifies this`pre, this`j, dp0, e, u, larpp0, larpp1
      ensures Valid() && UnitCarries(packing, unit, gs)
      ensures Encoded160(st, amp, i + 160 * UnitFrames(packing), EncView(), fs + gs)
    {
      hide UnitCarries, FrameFits, FrameInBytes, Encoded160, HoldsLow, IsPlain, IsWav49, CarriesVoip;
      var f := EncodeNext(amp, i, st, fs);
      match packing {
        case PackingWav49 =>
          var f1 := EncodeNext(amp, i + 160, st, fs + [f]);
          assert fs + [f] + [f1] == fs + [f, f1];
          unit := PackWav49(f, f1);
          Wav49Unit(unit, f, f1);
          gs := [f, f1];
        case PackingVoip =>
          unit := PackVoip(f);
          VoipUnit(unit, MAGIC, f);
          gs := [f];
        case PackingNone =>
          unit := PackPlain(f);
          FittingInBytes(f);
          PlainKeeps(unit, f);
          PlainUnit(unit, f);
          gs := [f];
      }
    }

    /** gsm0610_encode, told that there are len samples: it reads whole units of them, up to
        the first that ends at or after len. */
    method Encode(amp: seq<int16>, len: int) returns (code: seq<byte>)
      requires Valid() && SamplesRead(packing, len) <= |amp|
      modifies this`pre, this`j, dp0, e, u, larpp0, larpp1
      ensures Valid() && SamplesRead(packing, len) % 160 == 0
      ensures var run := EncodeRun(old(EncView()), Blocks(amp[..SamplesRead(packing, len)]));
              EncView() == run.0 && Carries(packing, code, run.1)
    {
      hide EncodeFrame, EncodeRun, Blocks, Carries, UnitCarries, FrameFits, Encoded160;
      ghost var st := EncView();
      ghost var fs: seq<Frame> := [];
      code := [];
      var i := 0;
      EmptyStream(packing, st, amp);
      while i < len
        invariant Valid() && 0 <= i && LoopEnd(i, len, 160 * UnitFrames(packing)) == SamplesRead(packing, len)
        invariant Encoded160(st, amp, i, EncView(), fs)
        invariant Carries(packing, code, fs)
      {
        var unit;
        ghost var gs;
        unit, gs := EncodeUnit(amp, i, st, fs);
        CarriesSnoc(packing, code, fs, unit, gs);
        fs := fs + gs;
        code := code + unit;
        i := i + 160 * UnitFrames(packing);
      }
      SamplesWhole(packing, len);
      EncodedAll(st, amp, i, EncView(), fs);
    }

    /** gsm0610_decode, told that there are len bytes: it reads whole units of them, and trusts
        the index bytes of the plain format, which it does not mask. */
    method Decode(code: seq<byte>, len: int) returns (amp: seq<int16>, ghost fs: seq<Frame>)
      requires Valid() && BytesRead(packing, len) <= |code|
      requires StreamDecodes(packing, code[..BytesRead(packing, len)])
      modifies this`j, this`nrp, this`msr, dp0, v, larpp0, larpp1
      ensures Valid() && Carries(packing, code[..BytesRead(packing, len)], fs) && AllDecode(fs)
      ensures (DecView(), amp) == DecodeRun(old(DecView()), fs)
    {
      hide Aligned, DecodeFrame, DecodeRun, Decoded160, Carries, UnitCarries, FrameDecodes, StreamDecodes, IsPlain, IsWav49, CarriesVoip;
      amp, fs := [], [];
      ghost var st := DecView();
      ghost var used := code[..BytesRead(packing, len)];
      var i := 0;
      var bytes := UnitBytes(packing);
      assert used[..0] == [];
      DecodeNothing(packing, st);
      EmptyStreamDecodes(packing, used[..0], []);
      while i < len
        invariant Valid() && 0 <= i && LoopEnd(i, len, bytes) == BytesRead(packing, len) && Aligned(packing, i)
        invariant Decoded160(st, fs, DecView(), amp)
        invariant Carries(packing, used[..i], fs)
      {
        var unit := code[i..i + bytes];
        UsedSlice(code, |used|, i, bytes);
        UnitAt(packing, used, i);
        ghost var gs: seq<Frame>;
        ghost var before := fs;
        amp, gs := DecodeUnit(unit, st, fs, amp);
        fs := fs + gs;
        CarriesSnoc(packing, used[..i], before, unit, gs);
        i := i + bytes;
      }
      assert used[..i] == used;
      DecodedAll(st, fs, DecView(), amp);
    }

    /** The switch of gsm0610_decode. */
    method DecodeUnit(unit: seq<byte>, ghost st: DecState, ghost fs: seq<Frame>, amp: seq<int16>)
      returns (ys: seq<int16>, ghost gs: seq<Frame>)
      requires Valid() && |unit| == UnitBytes(packing) && Decoded160(st, fs, DecView(), amp)
      requires CodeDecodes(packing, unit)
      modifies this`j, this`nrp, this`msr, dp0, v, larpp0, larpp1
      ensures Valid() && UnitCarries(packing, unit, gs) && Decoded160(st, fs + gs, DecView(), ys)
    {
      hide Decoded160, UnitCarries, FrameDecodes, PlainUnitDecodes, IsPlain, IsWav49, CarriesVoip;
      match packing {
        case PackingNone =>
          var f := UnpackPlain(unit);
          PlainUnitDecodesIff(unit, f);
          PlainUnit(unit, f);
          ys := DecodeNext(f, st, fs, amp);
          gs := [f];
        case PackingWav49 =>
          var f0, f1 := UnpackWav49(unit);
          Wav49Unit(unit, f0, f1);
          ys := DecodeNext(f0, st, fs, amp);
          ys := DecodeNext(f1, st, fs + [f0], ys);
          gs := [f0, f1];
          assert fs + [f0] + [f1] == fs + gs;
        case PackingVoip =>
          var f := UnpackVoip(unit);
          VoipUnit(unit, unit[0] / 16, f);
          ys := DecodeNext(f, st, fs, amp);
          gs := [f];
      }
    }

    /** One frame decoded after those before it. */
    method DecodeNext(f: Frame, ghost st: DecState, ghost fs: seq<Frame>, amp: seq<int16>) returns (ys: seq<int16>)
      requires Valid() && FrameDecodes(f) && Decoded160(st, fs, DecView(), amp)
      modifies this`j, this`nrp, this`msr, dp0, v, larpp0, larpp1
      ensures Valid() && Decoded160(st, fs + [f], DecView(), ys)
    {
      hide DecodeFrame, DecodeRun, FrameDecodes;
      var sr := new int16[160];
      DecodeRunSnoc(st, fs, f);
      DecodeAFrame(f, sr);
      ys := amp + sr[..];
    }
  }
}
