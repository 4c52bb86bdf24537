/** The G.722 encoder and decoder objects: band objects, ring buffers and bit buffers
    updated in place, proved against the run functions of G722Codec. */
module G722Objects {
  import opened FixedPoint
  import opened Bits
  import opened G722Band
  import opened G722Quant
  import opened G722Codec
  import opened G722Qmf

  /** The options of g722_encode_init and g722_decode_init. */
  datatype Config = Config(bits: Rate, eightK: bool, packed: bool, testMode: bool)

  /** Whether a code takes one sample, rather than a pair through the mirror filter. */
  predicate Single(cfg: Config) { cfg.testMode || cfg.eightK }

  datatype Codec = Codec(bands: Bands, x: Window, y: Window)

  const CODEC_RESET: Codec := Codec(BANDS_RESET, seq(12, _ => 0), seq(12, _ => 0))

  // ---------------------------------------------------------------- encoder, on values

  /** Samples enough for one code, and for a whole number of codes. */
  predicate OneCode(cfg: Config, a: seq<int16>) { |a| == if Single(cfg) then 1 else 2 }

  predicate Whole(cfg: Config, a: seq<int16>) { Single(cfg) || |a| % 2 == 0 }

  /** The sub-band samples of the next samples of the input. */
  function Analyse(cfg: Config, x: Window, y: Window, a: seq<int16>): (r: (Window, Window, Pair))
    requires OneCode(cfg, a)
  {
    if cfg.testMode then (x, y, Pair(a[0] / 2, a[0] / 2))
    else if cfg.eightK then (x, y, Pair(a[0] / 2, 0))
    else
      var x', y' := Pushed(x, Limited(a[0])), Pushed(y, Limited(a[1]));
      (x', y', Pair(LowBand(x', y'), HighBand(x', y')))
  }

  /** One pass of the encoder loop. */
  function EncoderStep(cfg: Config, st: Codec, a: seq<int16>): (Codec, nat)
    requires OneCode(cfg, a)
  {
    hide EncodeStep, LowBand, HighBand, Pushed, Limited;
    var (x, y, p) := Analyse(cfg, st.x, st.y, a);
    var (bands, code) := EncodeStep(st.bands, cfg.eightK, cfg.bits, p.low, p.high);
    (Codec(bands, x, y), code)
  }

  /** The state after a whole input and the codes sent for it. */
  function EncoderRun(cfg: Config, st: Codec, amp: seq<int16>): (r: (Codec, seq<nat>))
    requires Whole(cfg, amp)
    ensures |r.1| == if Single(cfg) then |amp| else |amp| / 2
  {
    if amp == [] then (st, [])
    else
      var n := |amp| - if Single(cfg) then 1 else 2;
      var (st1, codes) := EncoderRun(cfg, st, amp[..n]);
      var (st2, code) := EncoderStep(cfg, st1, amp[n..]);
      (st2, codes + [code])
  }

  /** The sub-band samples of a whole input. */
  function Pairs(cfg: Config, st: Codec, amp: seq<int16>): (ps: seq<Pair>)
    requires Whole(cfg, amp)
    ensures |ps| == if Single(cfg) then |amp| else |amp| / 2
  {
    if amp == [] then []
    else
      var n := |amp| - if Single(cfg) then 1 else 2;
      var st1 := EncoderRun(cfg, st, amp[..n]).0;
      Pairs(cfg, st, amp[..n]) + [Analyse(cfg, st1.x, st1.y, amp[n..]).2]
  }

  /** The run of the object is the run of its bands over the sub-band samples. */
  lemma {:induction false} EncoderRunIsBandRun(cfg: Config, st: Codec, amp: seq<int16>)
    requires Whole(cfg, amp)
    ensures var (bands, codes) := EncodeRun(st.bands, cfg.eightK, cfg.bits, Pairs(cfg, st, amp));
            EncoderRun(cfg, st, amp).0.bands == bands && EncoderRun(cfg, st, amp).1 == codes
    decreases |amp|
  {
    hide EncodeStep, Analyse, EncodeRun;
    if amp == [] {
      NothingEncoded(cfg, st, Pairs(cfg, st, amp));
    } else {
      var n := |amp| - if Single(cfg) then 1 else 2;
      EncoderRunIsBandRun(cfg, st, amp[..n]);
      var ps := Pairs(cfg, st, amp[..n]);
      var st1 := EncoderRun(cfg, st, amp[..n]).0;
      var p := Analyse(cfg, st1.x, st1.y, amp[n..]).2;
      EncodeRunSnoc(st.bands, cfg.eightK, cfg.bits, ps, p, EncodeRun(st.bands, cfg.eightK, cfg.bits, ps),
                    EncodeStep(st1.bands, cfg.eightK, cfg.bits, p.low, p.high));
    }
  }

  lemma NothingEncoded(cfg: Config, st: Codec, ps: seq<Pair>)
    requires ps == []
    ensures EncodeRun(st.bands, cfg.eightK, cfg.bits, ps) == (st.bands, [])
  {
    hide EncodeStep;
  }

  lemma EncoderRunSnoc(cfg: Config, st: Codec, a: seq<int16>, c: seq<int16>, run: (Codec, seq<nat>), step: (Codec, nat))
    requires Whole(cfg, a) && OneCode(cfg, c)
    requires run == EncoderRun(cfg, st, a) && step == EncoderStep(cfg, run.0, c)
    ensures Whole(cfg, a + c) && EncoderRun(cfg, st, a + c) == (step.0, run.1 + [step.1])
  {
    hide EncoderStep;
    assert (a + c)[..|a|] == a && (a + c)[|a|..] == c;
  }

  /** Two calls of the encoder do what one call on the joined input does. */
  lemma {:induction false} EncoderRunConcat(cfg: Config, st: Codec, a: seq<int16>, b: seq<int16>,
                                            run: (Codec, seq<nat>), more: (Codec, seq<nat>))
    requires Whole(cfg, a) && Whole(cfg, b)
    requires run == EncoderRun(cfg, st, a) && more == EncoderRun(cfg, run.0, b)
    ensures Whole(cfg, a + b) && EncoderRun(cfg, st, a + b) == (more.0, run.1 + more.1)
    decreases |b|
  {
    hide EncoderStep, EncoderRun;
    if b == [] {
      EncoderRunNone(cfg, run.0, b);
      assert a + b == a && run.1 + more.1 == run.1;
    } else {
      var n := |b| - if Single(cfg) then 1 else 2;
      var c := b[n..];
      var part := EncoderRun(cfg, run.0, b[..n]);
      var step := EncoderStep(cfg, part.0, c);
      assert b == b[..n] + c && a + b == a + b[..n] + c;
      EncoderRunSnoc(cfg, run.0, b[..n], c, part, step);
      EncoderRunConcat(cfg, st, a, b[..n], run, part);
      EncoderRunSnoc(cfg, st, a + b[..n], c, (part.0, run.1 + part.1), step);
      assert run.1 + (part.1 + [step.1]) == run.1 + part.1 + [step.1];
    }
  }

  lemma EncoderRunNone(cfg: Config, st: Codec, b: seq<int16>)
    requires b == []
    ensures EncoderRun(cfg, st, b) == (st, [])
  {
    hide EncoderStep;
  }

  /** The rings only ever hold limited samples, so the analysis filter is exact. */
  lemma {:induction false} RingsLimited(cfg: Config, st: Codec, amp: seq<int16>)
    requires Whole(cfg, amp)
    requires Within(st.x, 16350) && Within(st.y, 16350)
    ensures Within(EncoderRun(cfg, st, amp).0.x, 16350) && Within(EncoderRun(cfg, st, amp).0.y, 16350)
    decreases |amp|
  {
    hide EncodeStep, LowBand, HighBand;
    if amp == [] {
    } else {
      RingsLimited(cfg, st, amp[..|amp| - if Single(cfg) then 1 else 2]);
    }
  }

  // ---------------------------------------------------------------- decoder, on values

  /** The low band sample of a code. */
  function LowSample(st: Band, code: nat, bits: Rate): int16 {
    Saturate15(st.s + Mul(st.det, LowValue(code, bits)) / 0x8000)
  }

  function HighSample(st: Band, code: nat, bits: Rate): int16 {
    Saturate15(Int(Inverse(st.det, Qm2(Ihigh(code, bits)))) + st.s)
  }

  /** The output samples for one code. */
  function Synthesise(cfg: Config, x: Window, y: Window, rlow: int16, rhigh: int16): (Window, Window, seq<int16>) {
    if cfg.testMode then (x, y, [Wrap16(2 * rlow), Wrap16(2 * rhigh)])
    else if cfg.eightK then (x, y, [Wrap16(2 * rlow)])
    else
      var x', y' := Pushed(x, Wrap16(Int(rlow) + rhigh)), Pushed(y, Wrap16(Int(rlow) - rhigh));
      (x', y', [Saturate(Dot(y', true, 0, 12) / 2048), Saturate(Dot(x', false, 0, 12) / 2048)])
  }

  function DecoderStep(cfg: Config, st: Codec, code: nat): (Codec, seq<int16>) {
    var rlow := LowSample(st.bands.low, code, cfg.bits);
    var rhigh := if cfg.eightK then 0 else HighSample(st.bands.high, code, cfg.bits);
    var (x, y, out) := Synthesise(cfg, st.x, st.y, rlow, rhigh);
    (Codec(DecodeStep(st.bands, cfg.eightK, cfg.bits, code), x, y), out)
  }

  function DecoderRun(cfg: Config, st: Codec, codes: seq<nat>): (Codec, seq<int16>) {
    if codes == [] then (st, [])
    else
      var n := |codes| - 1;
      var (st1, amp) := DecoderRun(cfg, st, codes[..n]);
      var (st2, out) := DecoderStep(cfg, st1, codes[n]);
      (st2, amp + out)
  }

  lemma {:induction false} DecoderRunIsBandRun(cfg: Config, st: Codec, codes: seq<nat>)
    ensures DecoderRun(cfg, st, codes).0.bands == DecodeRun(st.bands, cfg.eightK, cfg.bits, codes)
  {
    hide DecodeStep, LowSample, HighSample, Synthesise;
    if codes == [] {
    } else {
      DecoderRunIsBandRun(cfg, st, codes[..|codes| - 1]);
    }
  }

  lemma {:induction false} DecoderRunConcat(cfg: Config, st: Codec, a: seq<nat>, b: seq<nat>)
    ensures var (st1, amp) := DecoderRun(cfg, st, a);
            var (st2, more) := DecoderRun(cfg, st1, b);
            DecoderRun(cfg, st, a + b) == (st2, amp + more)
    decreases |b|
  {
    hide DecoderStep;
    if b == [] {
      assert a + b == a;
      var empty: seq<int16> := [];
      assert DecoderRun(cfg, st, a).1 + empty == DecoderRun(cfg, st, a).1;
    } else {
      var n := |b| - 1;
      DecoderRunConcat(cfg, st, a, b[..n]);
      assert (a + b)[..|a| + n] == a + b[..n] && (a + b)[|a| + n] == b[n];
      var st1 := DecoderRun(cfg, st, a).0;
      var (st2, more) := DecoderRun(cfg, st1, b[..n]);
      var out := DecoderStep(cfg, st2, b[n]).1;
      assert DecoderRun(cfg, st, a).1 + (more + out) == DecoderRun(cfg, st, a).1 + more + out;
    }
  }

  /** The decoder's low band sample, from the code sent for xlow: as far off as the value
      decoded for the difference. */
  lemma LowFollows(bs: Bands, eightK: bool, bits: Rate, xlow: int16, xhigh: int16)
    requires BandsFit(bs) && -16384 <= xlow <= 16383 && Fits16(Int(xlow) - bs.low.s)
    ensures var code := EncodeStep(bs, eightK, bits, xlow, xhigh).1;
            var el: int16 := Int(xlow) - bs.low.s;
            var i := CellFrom(bs.low.det, Magnitude(el), 1);
            var lo, hi := FirstCell(bits, i), LastCell(bits, i);
            hi < 30 ==> Abs(Int(LowSample(bs.low, code, bits)) - xlow)
                        <= Level(bs.low.det, hi) - Level(bs.low.det, lo - 1) + 1
  {
    hide QuantLow, QuantHigh, AdvanceLow, AdvanceHigh, LowValue, SentCode, FullCode, CellFrom, FirstCell, LastCell;
    hide Level, Mul, Stable, EncoderNb, Wl, Wh, Rl42, Rh2;
    var el: int16 := Int(xlow) - bs.low.s;
    var ihigh := if eightK then 3 else QuantHigh(bs.high.det, SatSub16(xhigh, bs.high.s));
    var full := FullCode(ihigh, QuantLow(bs.low.det, el));
    EightKCode(QuantLow(bs.low.det, el));
    LowQuantisation(bs.low.det, el, ihigh, bits);
    InverseExact(bs.low.det, LowValue(SentCode(full, bits), bits));
  }

  lemma EightKCode(ilow: nat)
    requires ilow < 64
    ensures BitOr(0xC0, ilow) == FullCode(3, ilow)
  {
    ShlSix(3);
  }

  /** The same for the high band, where the difference is below the decision level. */
  lemma HighFollows(bs: Bands, bits: Rate, xlow: int16, xhigh: int16)
    requires BandsFit(bs) && -16384 <= xhigh <= 16383 && Fits16(Int(xhigh) - bs.high.s)
    ensures var code := EncodeStep(bs, false, bits, xlow, xhigh).1;
            var eh: int16 := Int(xhigh) - bs.high.s;
            Magnitude(eh) < HighLevel(bs.high.det)
            ==> Abs(Int(HighSample(bs.high, code, bits)) - xhigh) <= HighLevel(bs.high.det)
  {
    hide QuantLow, QuantHigh, AdvanceLow, AdvanceHigh, SentCode, FullCode, Inverse, HighLevel, Ihigh;
    hide Mul, Stable, EncoderNb, Wl, Wh, Rl42, Rh2, Qm2;
    var eh: int16 := Int(xhigh) - bs.high.s;
    var ihigh := QuantHigh(bs.high.det, eh);
    var ilow := QuantLow(bs.low.det, SatSub16(xlow, bs.low.s));
    FullCodeIs(ihigh, ilow);
    IndicesOf(ihigh, ilow);
    DroppedBits(FullCode(ihigh, ilow), bits);
    HighQuantisation(bs.high.det, eh);
  }

  /** Both 16 bit sums of the synthesis side and both doublings fit: limiting the bands to
      15 bits leaves exactly the room they need. */
  lemma SynthesisExact(rlow: int16, rhigh: int16)
    requires -16384 <= rlow <= 16383 && -16384 <= rhigh <= 16383
    ensures Wrap16(Int(rlow) + rhigh) == Int(rlow) + rhigh
    ensures Wrap16(Int(rlow) - rhigh) == Int(rlow) - rhigh
    ensures Wrap16(2 * rlow) == 2 * Int(rlow)
  {
  }

  /** From equal bands, a decoder fed with an encoder's codes ends with equal bands, at
      every rate, in every mode and for every input. */
  lemma CodecLockstep(cfg: Config, e: Codec, d: Codec, amp: seq<int16>)
    requires Whole(cfg, amp)
    requires e.bands == d.bands && BandsFit(e.bands)
    ensures EncoderRun(cfg, e, amp).0.bands == DecoderRun(cfg, d, EncoderRun(cfg, e, amp).1).0.bands
    ensures BandsFit(EncoderRun(cfg, e, amp).0.bands)
  {
    hide EncoderRun, DecoderRun, EncodeRun, DecodeRun, BandsFit;
    EncoderRunIsBandRun(cfg, e, amp);
    RunLockstep(e.bands, cfg.eightK, cfg.bits, Pairs(cfg, e, amp));
    DecoderRunIsBandRun(cfg, d, EncoderRun(cfg, e, amp).1);
  }

  // ---------------------------------------------------------------- shared state

  /** QUANTL: the search loop over the decision levels. */
  method QuantiseLow(det: int16, el: int16) returns (ilow: nat)
    ensures ilow == QuantLow(det, el)
  {
    hide Level, Q6;
    var wd := Magnitude(el);
    var i := 1;
    while i < 30
      invariant 1 <= i <= 30
      invariant CellFrom(det, wd, i) == CellFrom(det, wd, 1)
    {
      var wd1 := Level(det, i);
      if wd < wd1 {
        break;
      }
      i := i + 1;
    }
    ilow := if el < 0 then Iln(i) else Ilp(i);
  }

  /** What g722_encode_state_t and g722_decode_state_t have in common: two bands and the two
      rings of the mirror filter. */
  class Core {
    const low: BandObject
    const high: BandObject
    const x: array<int16>
    const y: array<int16>
    var ptr: nat

    ghost predicate Valid()
      reads this, low, high
    {
      && low.Valid() && high.Valid() && low != high
      && x.Length == 12 && y.Length == 12 && ptr < 12
      && x != y && low.d != high.d && low.d != high.b && low.b != high.d && low.b != high.b
      && low.d != x && low.d != y && low.b != x && low.b != y
      && high.d != x && high.d != y && high.b != x && high.b != y
    }

    ghost function Repr(): set<object> {
      {this, low, low.d, low.b, high, high.d, high.b, x, y}
    }

    ghost function View(): Codec
      reads this, low, low.d, low.b, high, high.d, high.b, x, y
      requires Valid()
    {
      Codec(Bands(low.View(), high.View()), Unrolled(x[..], ptr), Unrolled(y[..], ptr))
    }

    constructor ()
      ensures Valid() && fresh(Repr()) && View() == CODEC_RESET
    {
      low := new BandObject(32);
      high := new BandObject(8);
      x := new int16[12](_ => 0);
      y := new int16[12](_ => 0);
      ptr := 0;
      new;
      UnrolledReset(0);
      assert x[..] == seq(12, _ => 0) && y[..] == seq(12, _ => 0);
    }

    /** INVQAL, LOGSCL, SCALEL and block 4 for the low band. */
    method UpdateLow(ril: nat, nb: int16)
      requires Valid() && ril < 16 && 0 <= nb <= 18432
      modifies low, low.d, low.b
      ensures Valid()
      ensures View() == old(View()).(bands := old(View()).bands.(low := AdvanceLow(old(low.View()), ril, nb)))
    {
      hide Scale, Inverse, Qm4, Block4;
      var dlow := Inverse(low.det, Qm4(ril));
      low.nb := nb;
      low.det := Scale(nb, 8);
      low.Update(dlow);
    }

    /** INVQAH, LOGSCH, SCALEH and block 4 for the high band. */
    method UpdateHigh(ihigh: nat, nb: int16)
      requires Valid() && ihigh < 4 && 0 <= nb <= 22528
      modifies high, high.d, high.b
      ensures Valid()
      ensures View() == old(View()).(bands := old(View()).bands.(high := AdvanceHigh(old(high.View()), ihigh, nb)))
    {
      hide Scale, Inverse, Qm2, Block4;
      var dhigh := Inverse(high.det, Qm2(ihigh));
      high.nb := nb;
      high.det := Scale(nb, 10);
      high.Update(dhigh);
    }

    /** A sample into each ring. */
    method Push(a: int16, b: int16)
      requires Valid()
      modifies this`ptr, x, y
      ensures Valid()
      ensures View() == old(View()).(x := Pushed(old(View()).x, a), y := Pushed(old(View()).y, b))
    {
      UnrolledPush(x[..], ptr, a);
      UnrolledPush(y[..], ptr, b);
      ghost var x0, y0 := x[..], y[..];
      x[ptr] := a;
      y[ptr] := b;
      assert x[..] == x0[ptr := a] && y[..] == y0[ptr := b];
      ptr := ptr + 1;
      if ptr >= 12 {
        ptr := 0;
      }
    }
  }

  ghost predicate Balanced(taken: seq<Field>, sr: nat, p: nat, put: seq<Field>) {
    p <= 7 && Pending(taken, sr, p, put)
  }

  lemma ResetFits()
    ensures BandsFit(BANDS_RESET)
  {
  }

  lemma EmptyStream(codes: seq<nat>, data: seq<byte>, bits: Rate, sr: nat, p: nat)
    requires codes == [] && data == [] && sr == p == 0
    ensures Balanced(Bytes(data), sr, p, CodeFields(codes, bits))
    ensures Balanced(CodeFields(codes, bits), sr, p, Bytes(data))
  {
    NothingPut();
    assert Bytes(data) == [] && CodeFields(codes, bits) == [];
  }

  lemma CodeFieldsSnoc(codes: seq<nat>, code: nat, bits: Rate)
    ensures CodeFields(codes + [code], bits) == CodeFields(codes, bits) + [Field(code, bits)]
  {
  }

  lemma CodeIsByte(code: nat, bits: Rate)
    requires code < Pow2(bits)
    ensures code < 0x100
  {
    hide Pow2;
    Pow2Table();
  }

  /** After j samples the encoder is in state view and has produced cs. */
  ghost predicate EncodedTo(cfg: Config, st: Codec, amp: seq<int16>, j: int, view: Codec, cs: seq<nat>) {
    && 0 <= j <= |amp| && (Single(cfg) || j % 2 == 0)
    && (view, cs) == EncoderRun(cfg, st, amp[..j])
  }

  lemma EncodedNone(cfg: Config, st: Codec, amp: seq<int16>)
    ensures EncodedTo(cfg, st, amp, 0, st, [])
  {
    assert amp[..0] == [];
  }

  lemma EncodedWithin(cfg: Config, st: Codec, amp: seq<int16>, j: int, view: Codec, cs: seq<nat>)
    requires EncodedTo(cfg, st, amp, j, view, cs)
    ensures 0 <= j <= |amp| && Whole(cfg, amp[..j]) && (view, cs) == EncoderRun(cfg, st, amp[..j])
  {
    hide EncoderRun;
  }

  /** The samples the encoder reads when told there are len of them. */
  function SamplesRead(cfg: Config, len: int): (n: nat)
    ensures len <= n
  {
    LoopEnd(0, len, if Single(cfg) then 1 else 2)
  }

  /** It stays inside an input of len samples if and only if they are whole pairs, or taken
      one by one. */
  lemma ReadsInside(cfg: Config, len: nat)
    ensures SamplesRead(cfg, len) <= len <==> Single(cfg) || len % 2 == 0
  {
    LoopEndWhole(0, len, if Single(cfg) then 1 else 2);
  }

  // ---------------------------------------------------------------- encoder object

  class Encoder {
    const cfg: Config
    const core: Core
    var outBuffer: nat
    var outBits: nat
    /** Every code put into a packed stream, and every byte sent of it. */
    ghost var codes: seq<nat>
    ghost var sent: seq<byte>

    ghost predicate Valid()
      reads this, core, core.low, core.high, core.Repr()
    {
      && core.Valid()
      && BandsFit(core.View().bands)
      && Balanced(Bytes(sent), outBuffer, outBits, CodeFields(codes, cfg.bits))
    }

    ghost function View(): Codec
      reads this, core, core.low, core.high, core.Repr()
      requires core.Valid()
    {
      core.View()
    }

    constructor (cfg: Config)
      ensures Valid() && fresh(core) && fresh(core.Repr())
      ensures this.cfg == cfg && View() == CODEC_RESET && codes == [] && sent == []
    {
      hide Balanced, Unrolled, CodeFields, Bytes, Reset, BandsFit;
      ResetFits();
      this.cfg := cfg;
      core := new Core();
      outBuffer := 0;
      outBits := 0;
      codes := [];
      sent := [];
      new;
      EmptyStream(codes, sent, cfg.bits, outBuffer, outBits);
    }

    /** The two quantisers and adaptations of one pass; gives the code to send. */
    method EncodePass(xlow: int16, xhigh: int16) returns (code: nat)
      requires core.Valid() && BandsFit(View().bands)
      modifies core.Repr()
      ensures core.Valid() && BandsFit(View().bands)
      ensures (View().bands, code) == EncodeStep(old(View()).bands, cfg.eightK, cfg.bits, xlow, xhigh)
      ensures View().x == old(View()).x && View().y == old(View()).y
      ensures code < Pow2(cfg.bits)
    {
      hide QuantLow, QuantHigh, EncoderNb, AdvanceLow, AdvanceHigh, Wl, Rl42, Wh, Rh2, FullCode, SentCode, BitOr, Pow2, BandsFit, Unrolled;
      StepLockstep(View().bands, cfg.eightK, cfg.bits, xlow, xhigh);
      var el := SatSub16(xlow, core.low.s);
      var ilow := QuantiseLow(core.low.det, el);
      var nb := EncoderNb(core.low.nb, Wl(Rl42(ilow / 4)), 18432);
      core.UpdateLow(ilow / 4, nb);
      if cfg.eightK {
        code := SentCode(BitOr(0xC0, ilow), cfg.bits);
      } else {
        var eh := SatSub16(xhigh, core.high.s);
        var ihigh := QuantHigh(core.high.det, eh);
        nb := EncoderNb(core.high.nb, Wh(Rh2(ihigh)), 22528);
        core.UpdateHigh(ihigh, nb);
        code := SentCode(FullCode(ihigh, ilow), cfg.bits);
      }
    }

    /** The sub-band samples of the samples from j on. */
    method AnalyseNext(amp: seq<int16>, j: nat) returns (xlow: int16, xhigh: int16, next: nat)
      requires core.Valid() && (if Single(cfg) then j < |amp| else j + 1 < |amp|)
      modifies core`ptr, core.x, core.y
      ensures core.Valid() && next == j + (if Single(cfg) then 1 else 2)
      ensures View().bands == old(View()).bands
      ensures (View().x, View().y, Pair(xlow, xhigh)) == Analyse(cfg, old(View()).x, old(View()).y, amp[j..next])
    {
      hide Dot, Unrolled;
      xhigh := 0;
      if cfg.testMode {
        xlow := amp[j] / 2;
        xhigh := xlow;
        next := j + 1;
      } else if cfg.eightK {
        xlow := amp[j] / 2;
        next := j + 1;
      } else {
        core.Push(Limited(amp[j]), Limited(amp[j + 1]));
        next := j + 2;
        ghost var w, z := View().x, View().y;
        var sumodd: int := CircularDotProduct(core.x, false, core.ptr);
        var sumeven: int := CircularDotProduct(core.y, true, core.ptr);
        xlow := Wrap16((sumeven + sumodd) / 0x4000);
        xhigh := Wrap16((sumeven - sumodd) / 0x4000);
      }
    }

    /** A code into the bit buffer, and a byte out of it once eight bits have collected. */
    method Put(code: nat) returns (bytes: seq<byte>)
      requires core.Valid() && Balanced(Bytes(sent), outBuffer, outBits, CodeFields(codes, cfg.bits))
      requires code < Pow2(cfg.bits)
      modifies this
      ensures Balanced(Bytes(sent), outBuffer, outBits, CodeFields(codes, cfg.bits))
      ensures codes == old(codes) + [code] && sent == old(sent) + bytes && |bytes| <= 1
    {
      hide Pending, Bytes, CodeFields, Pow2, BitOr, Shl, Shr, Low, Unrolled;
      CodeFieldsSnoc(codes, code, cfg.bits);
      PutKeeps(Bytes(sent), outBuffer, outBits, CodeFields(codes, cfg.bits), code, cfg.bits);
      outBuffer := BitOr(outBuffer, Shl(code, outBits));
      outBits := outBits + cfg.bits;
      codes := codes + [code];
      bytes := [];
      if outBits >= 8 {
        TakeKeeps(Bytes(sent), outBuffer, outBits, CodeFields(codes, cfg.bits), 8);
        Pow2Table();
        var b: byte := Low(outBuffer, 8);
        BytesSnoc(sent, b);
        bytes := [b];
        outBits := outBits - 8;
        outBuffer := Shr(outBuffer, 8);
        sent := sent + [b];
      }
    }

    /** One pass of the loop of g722_encode, up to the packing. */
    method EncodeNext(amp: seq<int16>, j: nat, ghost st: Codec, ghost cs: seq<nat>) returns (code: nat, next: nat)
      requires (if Single(cfg) then j < |amp| else j + 1 < |amp|)
      requires core.Valid() && BandsFit(View().bands) && EncodedTo(cfg, st, amp, j, View(), cs)
      modifies core.Repr()
      ensures core.Valid() && BandsFit(View().bands) && code < Pow2(cfg.bits)
      ensures next == j + (if Single(cfg) then 1 else 2) && EncodedTo(cfg, st, amp, next, View(), cs + [code])
    {
      hide BandsFit, Analyse, EncodeStep, Pow2, Unrolled;
      var xlow, xhigh;
      xlow, xhigh, next := AnalyseNext(amp, j);
      code := EncodePass(xlow, xhigh);
      assert amp[..next][..j] == amp[..j] && amp[..next][j..] == amp[j..next];
    }

    /** g722_encode, told that there are len samples: without the single sample modes it reads
        whole pairs of them. */
    method Encode(amp: seq<int16>, len: int) returns (data: seq<byte>, ghost cs: seq<nat>)
      requires Valid() && SamplesRead(cfg, len) <= |amp|
      modifies this, core.Repr()
      ensures Valid() && Whole(cfg, amp[..SamplesRead(cfg, len)])
      ensures (View(), cs) == EncoderRun(cfg, old(View()), amp[..SamplesRead(cfg, len)])
      ensures cfg.packed ==> codes == old(codes) + cs && sent == old(sent) + data
      ensures !cfg.packed ==> codes == old(codes) && sent == old(sent) && data == cs
    {
      hide Balanced, BandsFit, EncodedTo, EncoderRun, Bytes, CodeFields, Pow2, Unrolled;
      ghost var st := View();
      data, cs := [], [];
      var j := 0;
      EncodedNone(cfg, st, amp);
      while j < len
        invariant 0 <= j && LoopEnd(j, len, if Single(cfg) then 1 else 2) == SamplesRead(cfg, len)
        invariant Valid() && EncodedTo(cfg, st, amp, j, View(), cs)
        invariant cfg.packed ==> codes == old(codes) + cs && sent == old(sent) + data
        invariant !cfg.packed ==> codes == old(codes) && sent == old(sent) && data == cs
      {
        var code, next := EncodeNext(amp, j, st, cs);
        cs := cs + [code];
        if cfg.packed {
          var bytes := Put(code);
          data := data + bytes;
        } else {
          CodeIsByte(code, cfg.bits);
          data := data + [code % 0x100];
        }
        j := next;
      }
      EncodedWithin(cfg, st, amp, j, View(), cs);
    }
  }

  // ---------------------------------------------------------------- decoder object

  /** After the codes cs the decoder is in state view and has produced amp. */
  ghost predicate DecodedTo(cfg: Config, st: Codec, cs: seq<nat>, view: Codec, amp: seq<int16>) {
    (view, amp) == DecoderRun(cfg, st, cs)
  }

  lemma DecodedNone(cfg: Config, st: Codec)
    ensures DecodedTo(cfg, st, [], st, [])
  {
  }

  class Decoder {
    const cfg: Config
    const core: Core
    var inBuffer: nat
    var inBits: nat
    /** Every code taken from a packed stream, and every byte read of it. */
    ghost var codes: seq<nat>
    ghost var got: seq<byte>

    ghost predicate Valid()
      reads this, core, core.low, core.high
    {
      core.Valid() && Balanced(CodeFields(codes, cfg.bits), inBuffer, inBits, Bytes(got))
    }

    ghost function View(): Codec
      reads this, core, core.low, core.high, core.Repr()
      requires core.Valid()
    {
      core.View()
    }

    constructor (cfg: Config)
      ensures Valid() && fresh(core) && fresh(core.Repr())
      ensures this.cfg == cfg && View() == CODEC_RESET && codes == [] && got == []
    {
      hide Balanced, Unrolled, CodeFields, Bytes, Reset;
      this.cfg := cfg;
      core := new Core();
      inBuffer := 0;
      inBits := 0;
      codes := [];
      got := [];
      new;
      EmptyStream(codes, got, cfg.bits, inBuffer, inBits);
    }

    /** The next code of a packed stream: a byte is read only when fewer bits than a code
        are pending, so the index does not move on every call. */
    method Get(data: seq<byte>, j: nat) returns (code: nat, next: nat)
      requires core.Valid() && Balanced(CodeFields(codes, cfg.bits), inBuffer, inBits, Bytes(got)) && j < |data|
      modifies this
      ensures core.Valid() && Balanced(CodeFields(codes, cfg.bits), inBuffer, inBits, Bytes(got))
      ensures codes == old(codes) + [code] && j <= next <= j + 1 && got == old(got) + data[j..next]
      ensures 8 * (|data| - next) + inBits == 8 * (|data| - j) + old(inBits) - cfg.bits
    {
      hide Pending, Bytes, CodeFields, Pow2, BitOr, Shl, Shr, Low, Unrolled;
      next := j;
      if inBits < cfg.bits {
        Pow2Table();
        BytesSnoc(got, data[j]);
        PutKeeps(CodeFields(codes, cfg.bits), inBuffer, inBits, Bytes(got), data[j], 8);
        inBuffer := BitOr(inBuffer, Shl(data[j], inBits));
        inBits := inBits + 8;
        next := j + 1;
        got := got + [data[j]];
      }
      TakeKeeps(CodeFields(codes, cfg.bits), inBuffer, inBits, Bytes(got), cfg.bits);
      code := Low(inBuffer, cfg.bits);
      CodeFieldsSnoc(codes, code, cfg.bits);
      inBuffer := Shr(inBuffer, cfg.bits);
      inBits := inBits - cfg.bits;
      codes := codes + [code];
    }

    /** The switch, the bands and the synthesis filter of one pass. */
    method DecodePass(code: nat) returns (out: seq<int16>)
      requires core.Valid()
      modifies core.Repr()
      ensures core.Valid() && (View(), out) == DecoderStep(cfg, old(View()), code)
    {
      hide LowValue, Qm2, Mul, Inverse, Ril, Ihigh, DecoderNb, AdvanceLow, AdvanceHigh, Wl, Rl42, Wh, Rh2, Unrolled, Dot, Wrap16;
      var bits := cfg.bits;
      var ril := Ril(code, bits);
      var rlow := Saturate15(core.low.s + Mul(core.low.det, LowValue(code, bits)) / 0x8000);
      var nb := DecoderNb(core.low.nb, Wl(Rl42(ril)), 18432);
      core.UpdateLow(ril, nb);
      var rhigh: int16 := 0;
      if !cfg.eightK {
        var ihigh := Ihigh(code, bits);
        var dhigh: int := Inverse(core.high.det, Qm2(ihigh));
        rhigh := Saturate15(dhigh + core.high.s);
        nb := DecoderNb(core.high.nb, Wh(Rh2(ihigh)), 22528);
        core.UpdateHigh(ihigh, nb);
      }
      if cfg.testMode {
        out := [Wrap16(2 * rlow), Wrap16(2 * rhigh)];
      } else if cfg.eightK {
        out := [Wrap16(2 * rlow)];
      } else {
        core.Push(Wrap16(Int(rlow) + rhigh), Wrap16(Int(rlow) - rhigh));
        var even: int := CircularDotProduct(core.y, true, core.ptr);
        var odd: int := CircularDotProduct(core.x, false, core.ptr);
        out := [Saturate(even / 2048), Saturate(odd / 2048)];
      }
    }

    method DecodeNext(code: nat, ghost st: Codec, ghost cs: seq<nat>, amp: seq<int16>) returns (out: seq<int16>)
      requires core.Valid() && DecodedTo(cfg, st, cs, View(), amp)
      modifies core.Repr()
      ensures core.Valid() && DecodedTo(cfg, st, cs + [code], View(), out)
    {
      hide DecoderStep, Unrolled;
      var more := DecodePass(code);
      assert (cs + [code])[..|cs|] == cs;
      out := amp + more;
    }

    /** g722_decode */
    method Decode(data: seq<byte>) returns (amp: seq<int16>, ghost cs: seq<nat>)
      requires Valid()
      modifies this, core.Repr()
      ensures Valid()
      ensures (View(), amp) == DecoderRun(cfg, old(View()), cs)
      ensures cfg.packed ==> codes == old(codes) + cs && got == old(got) + data
      ensures !cfg.packed ==> codes == old(codes) && got == old(got) && cs == data
    {
      hide Balanced, DecodedTo, DecoderRun, Bytes, CodeFields, Unrolled;
      ghost var st := View();
      amp, cs := [], [];
      var j := 0;
      DecodedNone(cfg, st);
      while j < |data|
        invariant Valid() && 0 <= j <= |data| && DecodedTo(cfg, st, cs, View(), amp)
        invariant cfg.packed ==> codes == old(codes) + cs && got == old(got) + data[..j]
        invariant !cfg.packed ==> codes == old(codes) && got == old(got) && cs == data[..j]
        decreases 8 * (|data| - j) + inBits
      {
        var code: nat, next;
        if cfg.packed {
          code, next := Get(data, j);
          assert data[..j] + data[j..next] == data[..next];
        } else {
          code, next := data[j], j + 1;
        }
        amp := DecodeNext(code, st, cs, amp);
        cs := cs + [code];
        j := next;
      }
      assert data[..|data|] == data;
      DecodedAll(cfg, st, cs, View(), amp);
    }
  }

  lemma DecodedAll(cfg: Config, st: Codec, cs: seq<nat>, view: Codec, amp: seq<int16>)
    requires DecodedTo(cfg, st, cs, view, amp)
    ensures (view, amp) == DecoderRun(cfg, st, cs)
  {
    hide DecoderRun;
  }

  /** Packed streams, whatever the calls were that wrote and read them: once the decoder has
      been given all bytes sent, its bands are those of an encoder that stopped after the
      codes that have arrived whole, and at most two codes are still on the way. */
  lemma PackedCodecLockstep(cfg: Config, st: Codec, amp: seq<int16>, sent: seq<byte>, out: nat, p: nat,
                            got: seq<nat>, inp: nat, q: nat)
    requires Whole(cfg, amp) && BandsFit(st.bands)
    requires Balanced(Bytes(sent), out, p, CodeFields(EncoderRun(cfg, st, amp).1, cfg.bits))
    requires Balanced(CodeFields(got, cfg.bits), inp, q, Bytes(sent))
    ensures var cs, ps := EncoderRun(cfg, st, amp).1, Pairs(cfg, st, amp);
            && |got| <= |cs| <= |got| + 2
            && got == cs[..|got|]
            && DecoderRun(cfg, st, got).0.bands
               == EncodeRun(st.bands, cfg.eightK, cfg.bits, ps[..|got|]).0
  {
    hide Pending, EncoderRun, DecoderRun, EncodeRun, DecodeRun, BandsFit, CodeFields, Bytes, Pow2;
    EncoderRunIsBandRun(cfg, st, amp);
    DecoderRunIsBandRun(cfg, st, got);
    var ps := Pairs(cfg, st, amp);
    RunLockstep(st.bands, cfg.eightK, cfg.bits, ps);
    PackedPrefix(EncoderRun(cfg, st, amp).1, sent, out, p, got, inp, q, cfg.bits);
    PackedLockstep(st.bands, cfg.eightK, cfg.bits, ps, sent, out, p, got, inp, q);
    StillOnTheWay(cfg.bits, |EncoderRun(cfg, st, amp).1|, |got|, p + q);
  }

  lemma StillOnTheWay(bits: Rate, n: nat, m: nat, rest: nat)
    requires m <= n && bits * n == bits * m + rest && rest <= 14
    ensures n <= m + 2
  {
    if n > m + 2 { MulMono(m + 3, n, bits); }
  }
}
