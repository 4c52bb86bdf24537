/** BroadVoice16 frames: gain, level and excitation coding put together, and the lockstep of
    encoder and decoder over whole runs. The spectral coefficients aq, the pitch period and
    the pitch taps are inputs that both sides share. */
module Bv16Codec {
  import opened FixedPoint
  import opened Bv16Basop
  import opened Bv16Excitation
  import opened Bv16ExcQuan
  import Bv16Gain
  import Bv16GainLaw

  /** Gain mantissa and exponent the excitation is scaled by, from a linear gain. */
  function ExcitationScale(a0: int32): (int16, int16) {
    var exp := SatSub16(NormL(a0), 2);
    (Round(LShl(Bv16Gain.Scaled(a0, 21845), exp)), exp)
  }

  /** The excitation gain is two thirds of the linear gain, normalised: the mantissa is that
      many units of 2^16, to within rounding, and has its top bits in use. */
  lemma ExcitationScaleIs(a0: int32)
    requires 0x1000 <= a0 <= 0x1fff_ffff
    ensures var (gainq, exp) := ExcitationScale(a0);
            && 0 <= exp <= 16 && exp == NormL(a0) - 2
            && Abs(0x8000_0000 * Int(gainq) - 21845 * (a0 * Pow2(exp))) <= 0x4000_0000 + 0x1_8000 * Pow2(exp)
            && 2720 <= gainq <= 5470
  {
    hide NormL, Pow2, Bv16Gain.Scaled, LShl, Round;
    GainExponent(a0);
    var n := NormL(a0) - 2;
    var y := Bv16Gain.Scaled(a0, 21845);
    Bv16GainLaw.ScaledIs(a0, 21845);
    GainMantissa(a0, y, n);
  }

  lemma GainExponent(a0: int32)
    requires 0x1000 <= a0 <= 0x1fff_ffff
    ensures 2 <= NormL(a0) <= 18 && 0x1000_0000 <= a0 * Pow2(NormL(a0) - 2) <= 0x1fff_ffff
  {
    hide NormL, Pow2;
    NormLNormalises(a0);
    ExponentOf(a0, NormL(a0));
  }

  lemma ExponentOf(a0: int, n: nat)
    requires 0x1000 <= a0 <= 0x1fff_ffff && 0x4000_0000 <= a0 * Pow2(n) <= 0x7fff_ffff && n <= 30
    ensures 2 <= n <= 18 && 0x1000_0000 <= a0 * Pow2(n - 2) <= 0x1fff_ffff
  {
    hide Pow2;
    Pow2Table();
    if n < 2 { TooSmall(a0, n); }
    if n > 18 { TooLarge(a0, n); }
    Pow2Add(2, n - 2);
    assert a0 * (4 * Pow2(n - 2)) == 4 * (a0 * Pow2(n - 2));
  }

  lemma TooSmall(a0: int, n: nat)
    requires a0 <= 0x1fff_ffff && n < 2
    ensures a0 * Pow2(n) < 0x4000_0000
  {
  }

  lemma TooLarge(a0: int, n: nat)
    requires 0x1000 <= a0 && n > 18
    ensures a0 * Pow2(n) > 0x7fff_ffff
  {
    hide Pow2;
    Pow2Table();
    Pow2Add(3, 16);
    Pow2Mono(19, n);
    MulMono(0x1000, a0, Pow2(n));
  }

  lemma GainMantissa(a0: int32, y: int32, n: nat)
    requires 0x1000 <= a0 && n <= 16 && 0x1000_0000 <= a0 * Pow2(n) <= 0x1fff_ffff
    requires 21845 * Bv16GainLaw.Int32(a0) - 0x1_8000 <= 0x8000 * Bv16GainLaw.Int32(y) <= 21845 * Bv16GainLaw.Int32(a0)
    ensures var g := Int(Round(LShl(y, n)));
            Abs(0x8000_0000 * g - 21845 * (a0 * Pow2(n))) <= 0x4000_0000 + 0x1_8000 * Pow2(n) && 2720 <= g <= 5470
  {
    hide Pow2, LShl, Round;
    Pow2Mono(n, 16);
    Pow2Table();
    ScaledProduct(a0, y, Pow2(n));
    ShiftedGain(y, n);
    RoundedGain(y * Pow2(n), a0 * Pow2(n), Pow2(n));
  }

  lemma ScaledProduct(a: int, y: int, p: nat)
    requires 21845 * a - 0x1_8000 <= 0x8000 * y <= 21845 * a && p <= 0x1_0000 && 0x1000_0000 <= a * p <= 0x1fff_ffff
    ensures 21845 * (a * p) - 0x1_8000 * p <= 0x8000 * (y * p) <= 21845 * (a * p)
    ensures 0 <= y * p <= 0x7fff_ffff
  {
    MulMono(21845 * a - 0x1_8000, 0x8000 * y, p);
    MulMono(0x8000 * y, 21845 * a, p);
    assert (21845 * a - 0x1_8000) * p == 21845 * (a * p) - 0x1_8000 * p;
    assert 21845 * a * p == 21845 * (a * p) && 0x8000 * y * p == 0x8000 * (y * p);
  }

  lemma ShiftedGain(y: int32, n: nat)
    requires 0 <= y * Pow2(n) <= 0x7fff_ffff
    ensures LShl(y, n) == y * Pow2(n)
  {
    hide Pow2, Doubled;
    Pow2Table();
    if n > 0 { DoubledIsShift(y, n); }
  }

  lemma RoundedGain(z: int32, x: int, p: int)
    requires 0x1000_0000 <= x <= 0x1fff_ffff && 1 <= p <= 0x1_0000 && 21845 * x - 0x1_8000 * p <= 0x8000 * z <= 21845 * x
    ensures Abs(0x8000_0000 * Int(Round(z)) - 21845 * x) <= 0x4000_0000 + 0x1_8000 * p && 2720 <= Round(z) <= 5470
  {
  }

  /** What both sides know of a frame's filters before the gain is decoded. */
  datatype Spectrum = Spectrum(b: Taps, pp: nat, aq: Lpc)

  ghost predicate SpectrumFits(p: Spectrum) { MINPP <= p.pp < MAXPP1 }

  /** What the encoder quantises a frame from. */
  datatype Input = Input(ee: int32, s: seq<int16>, p: Spectrum, fsz: Lpc, fsp: Lpc, beta: int16)

  ghost predicate InputFits(x: Input) { |x.s| == 40 && SpectrumFits(x.p) }

  /** What is sent of it. */
  datatype Sent = Sent(gidx: nat, idx: Indices, p: Spectrum)

  datatype BvEncoder = BvEncoder(gain: Bv16Gain.Encoder, mem: Enc)

  datatype BvDecoder = BvDecoder(gain: Bv16Gain.Decoder, syn: Syn)

  ghost predicate EncoderFits(e: BvEncoder) {
    |e.mem.lt| == |e.mem.ltn| == MAXPP1 && |e.mem.sh.st| == |e.mem.sh.z| == |e.mem.sh.p| == 8
  }

  /** The memories kept for the next frame. */
  function Kept(y: Enc): Enc
    requires |y.lt| == |y.ltn| == MAXPP1 + 40 && |y.sh.st| == |y.sh.z| == |y.sh.p| == 48
  {
    Enc(y.lt[40..], y.ltn[40..], LastEight(y.sh))
  }

  function FilterOf(p: Spectrum, exp: int16): Filter { Filter(p.b, p.pp, p.aq, exp) }

  /** The excitation part of a frame, for a gain a0. */
  function QuantiseExcitation(mem: Enc, a0: int32, x: Input, cccb: Codebook): (r: (Enc, Indices))
    requires |mem.lt| == |mem.ltn| == MAXPP1 && |mem.sh.st| == |mem.sh.z| == |mem.sh.p| == 8 && InputFits(x)
    ensures |r.0.lt| == |r.0.ltn| == MAXPP1 + 40 && |r.0.sh.st| == |r.0.sh.z| == |r.0.sh.p| == 48
  {
    hide *;
    var (gainq, exp) := ExcitationScale(a0);
    var g := Shaping(FilterOf(x.p, exp), x.fsz, x.fsp, x.beta);
    FitsForQuantiser(mem, x, exp);
    EncVectors(mem, x.s, ScaledCodebook(gainq, cccb), g, 10)
  }

  lemma FitsForQuantiser(mem: Enc, x: Input, exp: int16)
    requires |mem.lt| == |mem.ltn| == MAXPP1 && |mem.sh.st| == |mem.sh.z| == |mem.sh.p| == 8 && InputFits(x)
    ensures EncFits(mem) && FilterFits(FilterOf(x.p, exp)) && |x.s| == 40
    ensures forall y: Enc :: EncFits(y) ==> |y.lt| == |y.ltn| && |y.sh.st| == |y.sh.z| == |y.sh.p|
  {
  }

  /** The decoder's part: synthesis from the indices. */
  function SynthesiseExcitation(syn: Syn, a0: int32, t: Sent, cccb: Codebook): (y: Syn)
    requires |syn.lt| == MAXPP1 && |syn.st| == 8 && SpectrumFits(t.p)
    ensures |y.lt| == MAXPP1 + 40 && |y.st| == 48
  {
    hide ExcitationScale, ScaledCodebook, Decoded, SynRun;
    var (gainq, exp) := ExcitationScale(a0);
    SynRun(syn, Decoded(ScaledCodebook(gainq, cccb), t.idx), FilterOf(t.p, exp))
  }

  /** With the same gain, the decoder's synthesis gives the encoder's memories. */
  lemma SynthesisAgrees(mem: Enc, a0: int32, x: Input, k: nat, cccb: Codebook)
    requires |mem.lt| == |mem.ltn| == MAXPP1 && |mem.sh.st| == |mem.sh.z| == |mem.sh.p| == 8 && InputFits(x)
    ensures var (y, idx) := QuantiseExcitation(mem, a0, x, cccb);
            SynthesiseExcitation(Syn(mem.lt, mem.sh.st), a0, Sent(k, idx, x.p), cccb) == Syn(y.lt, y.sh.st)
  {
    hide ExcitationScale, ScaledCodebook, Decoded, Encoded, SynRun, EncVectors, Negatable, EncFits;
    var (gainq, exp) := ExcitationScale(a0);
    var g := Shaping(FilterOf(x.p, exp), x.fsz, x.fsp, x.beta);
    FitsForQuantiser(mem, x, exp);
    QuantiserLockstep(mem, x.s, ScaledCodebook(gainq, cccb), g);
    ScaledNegatable(gainq, cccb, EncVectors(mem, x.s, ScaledCodebook(gainq, cccb), g, 10).1);
  }

  /** A frame at the encoder: its new state, what is sent, and the signal it has quantised
      to. */
  function EncodeFrame(e: BvEncoder, x: Input, cccb: Codebook): (r: (BvEncoder, Sent, seq<int16>))
    requires EncoderFits(e) && InputFits(x)
    ensures EncoderFits(r.0)
  {
    hide QuantiseExcitation, InputFits, Bv16Gain.EncodeFrame;
    var (gain, k, a0) := Bv16Gain.EncodeFrame(e.gain, x.ee);
    var (y, idx) := QuantiseExcitation(e.mem, a0, x, cccb);
    (BvEncoder(gain, Kept(y)), Sent(k, idx, x.p), y.sh.st[8..])
  }

  ghost predicate DecoderFits(d: BvDecoder) { |d.syn.lt| == MAXPP1 && |d.syn.st| == 8 }

  /** A frame at the decoder: its new state and the signal. */
  function DecodeFrame(d: BvDecoder, t: Sent, cccb: Codebook): (r: (BvDecoder, seq<int16>))
    requires DecoderFits(d) && t.gidx < 16 && SpectrumFits(t.p)
    ensures DecoderFits(r.0)
  {
    hide SynthesiseExcitation, SpectrumFits, Bv16Gain.DecodeFrame;
    var (gain, a0) := Bv16Gain.DecodeFrame(d.gain, t.gidx);
    var y := SynthesiseExcitation(d.syn, a0, t, cccb);
    (BvDecoder(gain, Carried(y)), y.st[8..])
  }

  ghost predicate InStep(e: BvEncoder, d: BvDecoder) {
    EncoderFits(e) && Bv16Gain.InStep(e.gain, d.gain) && d.syn == Syn(e.mem.lt, e.mem.sh.st)
  }

  /** One frame: the decoder stays in step and puts out the signal the encoder quantised
      to. */
  lemma FrameLockstep(e: BvEncoder, d: BvDecoder, x: Input, cccb: Codebook)
    requires InStep(e, d) && InputFits(x)
    ensures var (e', t, xq) := EncodeFrame(e, x, cccb);
            && t.gidx < 16 && t.p == x.p && DecoderFits(d)
            && InStep(e', DecodeFrame(d, t, cccb).0) && DecodeFrame(d, t, cccb).1 == xq
  {
    hide QuantiseExcitation, SynthesiseExcitation, Bv16Gain.EncodeFrame, Bv16Gain.DecodeFrame, Bv16Gain.InStep;
    Bv16Gain.FrameLockstep(e.gain, d.gain, x.ee);
    var (gain, k, a0) := Bv16Gain.EncodeFrame(e.gain, x.ee);
    SynthesisAgrees(e.mem, a0, x, k, cccb);
  }

  lemma FitTogether(e: BvEncoder, d: BvDecoder)
    requires InStep(e, d)
    ensures EncoderFits(e) && DecoderFits(d)
  {
  }

  ghost predicate AllFit(xs: seq<Input>) {
    forall i :: 0 <= i < |xs| ==> InputFits(xs[i])
  }

  function EncodeRun(e: BvEncoder, xs: seq<Input>, cccb: Codebook): (r: (BvEncoder, seq<Sent>, seq<int16>))
    requires EncoderFits(e) && AllFit(xs)
    ensures EncoderFits(r.0) && |r.1| == |xs|
  {
    hide EncodeFrame, EncoderFits, InputFits;
    if xs == [] then (e, [], [])
    else
      var n := |xs| - 1;
      var (e1, ts, xq) := EncodeRun(e, xs[..n], cccb);
      var (e2, t, more) := EncodeFrame(e1, xs[n], cccb);
      (e2, ts + [t], xq + more)
  }

  ghost predicate AllSentFit(ts: seq<Sent>) {
    forall i :: 0 <= i < |ts| ==> ts[i].gidx < 16 && SpectrumFits(ts[i].p)
  }

  function DecodeRun(d: BvDecoder, ts: seq<Sent>, cccb: Codebook): (r: (BvDecoder, seq<int16>))
    requires DecoderFits(d) && AllSentFit(ts)
    ensures DecoderFits(r.0)
  {
    hide DecodeFrame, DecoderFits, SpectrumFits;
    if ts == [] then (d, [])
    else
      var n := |ts| - 1;
      var (d1, xq) := DecodeRun(d, ts[..n], cccb);
      var (d2, more) := DecodeFrame(d1, ts[n], cccb);
      (d2, xq + more)
  }

  /** Whole runs of frames: equal gain memory, levels and synthesis memories after every
      frame, and equal output signals. */
  lemma {:induction false} RunLockstep(e: BvEncoder, d: BvDecoder, xs: seq<Input>, cccb: Codebook)
    requires InStep(e, d) && AllFit(xs)
    ensures EncoderFits(e) && DecoderFits(d)
    ensures var (e', ts, xq) := EncodeRun(e, xs, cccb);
            && AllSentFit(ts)
            && InStep(e', DecodeRun(d, ts, cccb).0) && DecodeRun(d, ts, cccb).1 == xq
  {
    hide EncodeFrame, DecodeFrame, EncoderFits, Bv16Gain.InStep;
    FitTogether(e, d);
    if xs == [] {
    } else {
      var n := |xs| - 1;
      RunLockstep(e, d, xs[..n], cccb);
      var (e1, ts, xq) := EncodeRun(e, xs[..n], cccb);
      FrameLockstep(e1, DecodeRun(d, ts, cccb).0, xs[n], cccb);
      var t := EncodeFrame(e1, xs[n], cccb).1;
      assert (ts + [t])[..n] == ts;
    }
  }

  // ---------------------------------------------------------------- in place

  /** cbs[i] = mult_r(gainq, cccb[i]) */
  method ScaleCodebook(gainq: int16, cccb: Codebook) returns (cbs: Codebook)
    ensures cbs == ScaledCodebook(gainq, cccb)
  {
    hide MultRound;
    var scaled := new int16[64];
    for i := 0 to 64
      invariant forall k :: 0 <= k < i ==> scaled[k] == MultRound(gainq, cccb[k])
    {
      scaled[i] := MultRound(gainq, cccb[i]);
    }
    cbs := scaled[..];
  }

  /** Memory copied to the front of a buffer that has room for a frame. */
  method Enlarged(mem: array<int16>) returns (buf: array<int16>)
    requires mem.Length == MAXPP1
    ensures fresh(buf) && buf.Length == MAXPP1 + 40 && buf[..MAXPP1] == mem[..]
  {
    buf := new int16[MAXPP1 + 40];
    for i := 0 to MAXPP1
      invariant buf[..i] == mem[..i]
    {
      buf[i] := mem[i];
      assert buf[..i + 1] == buf[..i] + [mem[i]] && mem[..i + 1] == mem[..i] + [mem[i]];
    }
  }

  /** The newest samples of the buffer copied back to the memory. */
  method MoveBack(mem: array<int16>, buf: array<int16>)
    requires mem.Length == MAXPP1 && buf.Length == MAXPP1 + 40 && mem != buf
    modifies mem
    ensures mem[..] == buf[40..]
  {
    for i := 0 to MAXPP1
      invariant forall k :: 0 <= k < i ==> mem[k] == buf[40 + k]
    {
      mem[i] := buf[40 + i];
    }
  }

  /** Gain mantissa and exponent of a decoded gain, and the codebook scaled by them. */
  method ScaleExcitation(a0: int32, cccb: Codebook) returns (cbs: Codebook, exp: int16)
    ensures exp == ExcitationScale(a0).1 && cbs == ScaledCodebook(ExcitationScale(a0).0, cccb)
  {
    hide NormL, Round, LShl, Bv16Gain.Scaled, ScaledCodebook;
    exp := SatSub16(NormL(a0), 2);
    cbs := ScaleCodebook(Round(LShl(Bv16Gain.Scaled(a0, 21845), exp)), cccb);
  }

  const ENCODER_RESET: BvEncoder :=
    BvEncoder(Bv16Gain.Encoder(Bv16Gain.GAIN_RESET, Bv16Gain.LEVELS_RESET),
              Enc(Zeros(MAXPP1), Zeros(MAXPP1), Short(Zeros(8), Zeros(8), Zeros(8))))

  const DECODER_RESET: BvDecoder :=
    BvDecoder(Bv16Gain.Decoder(Bv16Gain.GAIN_RESET, Bv16Gain.LEVELS_RESET, 9, 101, 32760),
              Syn(Zeros(MAXPP1), Zeros(8)))

  function Zeros(n: nat): seq<int16> { seq(n, _ => 0) }

  lemma ResetInStep()
    ensures InStep(ENCODER_RESET, DECODER_RESET)
  {
    Bv16Gain.ResetInStep();
  }

  /** BV16_Encoder_State, as far as gain, levels and excitation go. */
  class EncoderState {
    const gain: Bv16Gain.GainState
    const levels: Bv16Gain.LevelState
    const dq: array<int16>
    const ltnfm: array<int16>
    const stsym: array<int16>
    const stnfz: array<int16>
    const stnfp: array<int16>

    ghost predicate Valid() {
      && gain.Valid() && dq.Length == ltnfm.Length == MAXPP1
      && stsym.Length == stnfz.Length == stnfp.Length == 8
      && dq != ltnfm && stsym != stnfz && stsym != stnfp && stnfz != stnfp
      && gain.lgpm !in {dq, ltnfm, stsym, stnfz, stnfp}
    }

    ghost function Repr(): set<object> {
      {levels, gain.lgpm, gain.prevlg, dq, ltnfm, stsym, stnfz, stnfp}
    }

    ghost function View(): BvEncoder
      reads Repr()
      requires Valid()
    {
      BvEncoder(Bv16Gain.Encoder(gain.View(), levels.View()),
                Enc(dq[..], ltnfm[..], Short(stsym[..], stnfz[..], stnfp[..])))
    }

    constructor ()
      ensures Valid() && fresh(Repr()) && View() == ENCODER_RESET
    {
      gain := new Bv16Gain.GainState();
      levels := new Bv16Gain.LevelState();
      dq := new int16[MAXPP1](_ => 0);
      ltnfm := new int16[MAXPP1](_ => 0);
      stsym := new int16[8](_ => 0);
      stnfz := new int16[8](_ => 0);
      stnfp := new int16[8](_ => 0);
      new;
      assert dq[..] == Zeros(MAXPP1) && ltnfm[..] == Zeros(MAXPP1);
      assert stsym[..] == Zeros(8) && stnfz[..] == Zeros(8) && stnfp[..] == Zeros(8);
    }

    /** The part of BV16_Encode from the gain quantisation on. */
    method QuantiseFrame(x: Input, cccb: Codebook) returns (t: Sent, ghost xq: seq<int16>)
      requires Valid() && InputFits(x)
      modifies Repr()
      ensures EncoderFits(old(View())) && (View(), t, xq) == EncodeFrame(old(View()), x, cccb)
    {
      hide Bv16Gain.EstLevel, Bv16Gain.Encode, ExcitationScale, ScaledCodebook, EncVectors, EncFits;
      var gidx, a0 := gain.GainQuan(x.ee, levels.level);
      levels.alphaMin := 32760;
      var lth := levels.Estimate(gain.prevlg[0], 9, 101);
      var cbs, exp := ScaleExcitation(a0, cccb);
      var lt := Enlarged(dq);
      var ltn := Enlarged(ltnfm);
      var g := Shaping(FilterOf(x.p, exp), x.fsz, x.fsp, x.beta);
      var idx;
      ghost var y;
      FitsForQuantiser(old(View()).mem, x, exp);
      idx, y := ExcQuan(x.s, cbs, g, lt, ltn, stsym, stnfz, stnfp);
      MoveBack(dq, lt);
      MoveBack(ltnfm, ltn);
      t := Sent(gidx, idx, x.p);
      xq := y.sh.st[8..];
    }
  }

  /** BV16_Decoder_State, as far as gain, levels and excitation go. */
  class DecoderState {
    const gain: Bv16Gain.GainState
    const levels: Bv16Gain.LevelState
    const ltsym: array<int16>
    const stsym: array<int16>
    var ngfae: int16
    var nggalgc: int16

    ghost predicate Valid() {
      && gain.Valid() && ltsym.Length == MAXPP1 && stsym.Length == 8
      && gain.lgpm !in {ltsym, stsym}
    }

    ghost function Repr(): set<object> {
      {this, levels, gain.lgpm, gain.prevlg, ltsym, stsym}
    }

    ghost function View(): BvDecoder
      reads Repr()
      requires Valid()
    {
      BvDecoder(Bv16Gain.Decoder(gain.View(), levels.View(), ngfae, nggalgc, levels.alphaMin),
                Syn(ltsym[..], stsym[..]))
    }

    constructor ()
      ensures Valid() && fresh(Repr()) && View() == DECODER_RESET
    {
      gain := new Bv16Gain.GainState();
      levels := new Bv16Gain.LevelState();
      ltsym := new int16[MAXPP1](_ => 0);
      stsym := new int16[8](_ => 0);
      ngfae, nggalgc := 9, 101;
    }

    /** BV16_Decode up to the postfilter, for a frame after no erasure. */
    method SynthesiseFrame(t: Sent, cccb: Codebook) returns (xq: seq<int16>)
      requires Valid() && t.gidx < 16 && SpectrumFits(t.p)
      modifies Repr()
      ensures DecoderFits(old(View())) && (View(), xq) == DecodeFrame(old(View()), t, cccb)
    {
      hide Bv16Gain.EstLevel, Bv16Gain.Decode, ExcitationScale, ScaledCodebook, SynRun;
      ngfae := SatAdd16(ngfae, 1);
      if ngfae > 8 {
        ngfae := 9;
      }
      var a0, lgq, good, lgEl := gain.GainDec(t.gidx, levels.level, nggalgc);
      nggalgc := good;
      var cbs, exp := ScaleExcitation(a0, cccb);
      var lt := Enlarged(ltsym);
      var energy;
      xq, energy := ExcDecWSynth(lt, stsym, t.idx, cbs, FilterOf(t.p, exp));
      MoveBack(ltsym, lt);
      var lth := levels.Estimate(lgEl, ngfae, nggalgc);
    }
  }
}
