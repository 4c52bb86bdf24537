/** The G.722 sub-band codec: one pass of the encoder and of the decoder over a pair of
    sub-band samples, and the proof that both keep the same bands over every run, at every
    rate and with low bits of the codes dropped. */
module G722Codec {
  import opened FixedPoint
  import opened Bits
  import opened G722Band
  import opened G722Quant

  /** Bits a code has at 48, 56 and 64 kbit/s. */
  type Rate = r: nat | 6 <= r <= 8 witness 8

  datatype Bands = Bands(low: Band, high: Band)

  const BANDS_RESET: Bands := Bands(Reset(32), Reset(8))

  // ---------------------------------------------------------------- band steps

  /** The low band after the four bit code ril, with the logarithm nb already adapted. */
  function AdvanceLow(st: Band, ril: nat, nb: int16): Band
    requires ril < 16 && 0 <= nb <= 18432
  {
    Block4(st.(nb := nb, det := Scale(nb, 8)), Inverse(st.det, Qm4(ril)))
  }

  function AdvanceHigh(st: Band, ihigh: nat, nb: int16): Band
    requires ihigh < 4 && 0 <= nb <= 22528
  {
    Block4(st.(nb := nb, det := Scale(nb, 10)), Inverse(st.det, Qm2(ihigh)))
  }

  function EncodeLow(st: Band, xlow: int16): (r: (Band, nat))
    ensures 4 <= r.1 < 64
  {
    var ilow := QuantLow(st.det, SatSub16(xlow, st.s));
    (AdvanceLow(st, ilow / 4, EncoderNb(st.nb, Wl(Rl42(ilow / 4)), 18432)), ilow)
  }

  function EncodeHigh(st: Band, xhigh: int16): (r: (Band, nat))
    ensures r.1 < 4
  {
    var ihigh := QuantHigh(st.det, SatSub16(xhigh, st.s));
    (AdvanceHigh(st, ihigh, EncoderNb(st.nb, Wh(Rh2(ihigh)), 22528)), ihigh)
  }

  function DecodeLow(st: Band, ril: nat): Band
    requires ril < 16
  {
    AdvanceLow(st, ril, DecoderNb(st.nb, Wl(Rl42(ril)), 18432))
  }

  function DecodeHigh(st: Band, ihigh: nat): Band
    requires ihigh < 4
  {
    AdvanceHigh(st, ihigh, DecoderNb(st.nb, Wh(Rh2(ihigh)), 22528))
  }

  // ---------------------------------------------------------------- state invariant

  ghost predicate LowFits(st: Band) {
    Stable(st) && 0 <= st.nb <= 18432 && 32 <= st.det <= 16384
  }

  ghost predicate HighFits(st: Band) {
    Stable(st) && 0 <= st.nb <= 22528 && 8 <= st.det <= 16384
  }

  ghost predicate BandsFit(bs: Bands) { LowFits(bs.low) && HighFits(bs.high) }

  lemma AdvanceKeeps(st: Band, dx: int16, nb: int16, base: nat)
    requires (base == 8 && 0 <= nb <= 18432) || (base == 10 && 0 <= nb <= 22528)
    ensures base == 8 ==> LowFits(Block4(st.(nb := nb, det := Scale(nb, 8)), dx))
    ensures base == 10 ==> HighFits(Block4(st.(nb := nb, det := Scale(nb, 10)), dx))
  {
    hide Scale, NextZeros, NextDelays, ZeroSum, Mul, Pole1, Pole2, Saturate, SatAdd16, Tap;
    ScaleBounds(nb, base);
    Block4Exact(st.(nb := nb, det := Scale(nb, base)), dx);
  }

  lemma DecodeKeeps(st: Band, ril: nat, ihigh: nat)
    requires ril < 16 && ihigh < 4
    ensures LowFits(DecodeLow(st, ril)) && HighFits(DecodeHigh(st, ihigh))
  {
    hide Block4, Scale, DecoderNb, LowFits, HighFits, Qm4, Qm2, Wl, Wh, Rl42, Rh2, Inverse;
    AdvanceKeeps(st, Inverse(st.det, Qm4(ril)), DecoderNb(st.nb, Wl(Rl42(ril)), 18432), 8);
    AdvanceKeeps(st, Inverse(st.det, Qm2(ihigh)), DecoderNb(st.nb, Wh(Rh2(ihigh)), 22528), 10);
  }

  /** In a band that fits, encoder and decoder adapt alike. */
  lemma BandLockstep(low: Band, high: Band, xlow: int16, xhigh: int16)
    requires LowFits(low) && HighFits(high)
    ensures EncodeLow(low, xlow).0 == DecodeLow(low, EncodeLow(low, xlow).1 / 4)
    ensures EncodeHigh(high, xhigh).0 == DecodeHigh(high, EncodeHigh(high, xhigh).1)
  {
    hide AdvanceLow, AdvanceHigh, EncoderNb, DecoderNb, QuantLow, QuantHigh, Stable, Wl, Wh, Rl42, Rh2;
    NbAgree(low.nb, Wl(Rl42(EncodeLow(low, xlow).1 / 4)), 18432);
    NbAgree(high.nb, Wh(Rh2(EncodeHigh(high, xhigh).1)), 22528);
  }

  // ---------------------------------------------------------------- codes

  /** The eight bits of a pair of indices. */
  function FullCode(ihigh: nat, ilow: nat): nat { BitOr(Shl(ihigh, 6), ilow) }

  /** What is sent of them: the low bits beyond the rate are dropped. */
  function SentCode(full: nat, bits: Rate): nat { Shr(full, 8 - bits) }

  /** The four bit low band code of a received code. */
  function Ril(code: nat, bits: Rate): (r: nat)
    ensures r < 16
  {
    match bits
    case 6 => code % 16
    case 7 => code % 32 / 2
    case _ => code % 64 / 4
  }

  function Ihigh(code: nat, bits: Rate): (r: nat)
    ensures r < 4
  {
    match bits
    case 6 => code / 16 % 4
    case 7 => code / 32 % 4
    case _ => code / 64 % 4
  }

  /** The low band value a code stands for at its rate. */
  function LowValue(code: nat, bits: Rate): int16 {
    match bits
    case 6 => Qm4(code % 16)
    case 7 => Qm5(code % 32)
    case _ => Qm6(code % 64)
  }

  lemma FullCodeIs(ihigh: nat, ilow: nat)
    requires ihigh < 4 && ilow < 64
    ensures FullCode(ihigh, ilow) == 64 * ihigh + ilow < 256
  {
    hide BitOr, Shl, Pow2;
    Pow2Table();
    OrAbove(ilow, ihigh, 6);
    ShlTable(ihigh);
  }

  /** Dropping low bits keeps what drives the bands. */
  lemma DroppedBits(full: nat, bits: Rate)
    requires full < 256
    ensures SentCode(full, bits) < Pow2(bits)
    ensures Ril(SentCode(full, bits), bits) == Ril(full, 8)
    ensures Ihigh(SentCode(full, bits), bits) == Ihigh(full, 8)
  {
    hide Pow2, Shr;
    Pow2Table();
    ShrTable(full);
    match bits
    case 6 => DropTwo(full);
    case 7 => DropOne(full);
    case _ => ShrZeroShift(full);
  }

  lemma DropTwo(x: nat)
    requires x < 256
    ensures x / 4 < 64 && x / 4 % 16 == x % 64 / 4 && x / 4 / 16 % 4 == x / 64 % 4
  {
    var a, b := x / 64, x % 64;
    DivIs(x, 4, 16 * a + b / 4, b % 4);
    DivIs(x / 4, 16, a, b / 4);
  }

  lemma DropOne(x: nat)
    requires x < 256
    ensures x / 2 < 128 && x / 2 % 32 / 2 == x % 64 / 4 && x / 2 / 32 % 4 == x / 64 % 4
  {
    var a, b := x / 64, x % 64;
    DivIs(x, 2, 32 * a + b / 2, b % 2);
    DivIs(x / 2, 32, a, b / 2);
  }

  lemma ShrZeroShift(x: nat)
    ensures Shr(x, 0) == x
  {
  }

  lemma IndicesOf(ihigh: nat, ilow: nat)
    requires ihigh < 4 && ilow < 64
    ensures Ril(FullCode(ihigh, ilow), 8) == ilow / 4 && Ihigh(FullCode(ihigh, ilow), 8) == ihigh
  {
    hide FullCode;
    FullCodeIs(ihigh, ilow);
  }

  // ---------------------------------------------------------------- what the codes stand for

  /** The first and the last cell of those that share a code at the rate with cell i. */
  function FirstCell(bits: Rate, i: nat): (lo: nat)
    requires 1 <= i <= 30
    ensures 1 <= lo <= i
  {
    match bits
    case 6 => if i <= 2 then 1 else 3 + (i - 3) / 4 * 4
    case 7 => 1 + (i - 1) / 2 * 2
    case _ => i
  }

  function LastCell(bits: Rate, i: nat): (hi: nat)
    requires 1 <= i <= 30
    ensures i <= hi <= 30
  {
    match bits
    case 6 => if i <= 2 then 2 else FirstCell(6, i) + 3
    case 7 => FirstCell(7, i) + 1
    case _ => i
  }

  /** The value for a six bit index at the rate. */
  function KeptValue(ilow: nat, bits: Rate): int16
    requires ilow < 64
  {
    match bits case 6 => Qm4(ilow / 4) case 7 => Qm5(ilow / 2) case _ => Qm6(ilow)
  }

  lemma LowValueSent(ihigh: nat, ilow: nat, bits: Rate)
    requires ihigh < 4 && ilow < 64
    ensures LowValue(SentCode(FullCode(ihigh, ilow), bits), bits) == KeptValue(ilow, bits)
  {
    hide FullCode, Shr, Qm4, Qm5, Qm6;
    FullCodeIs(ihigh, ilow);
    var full := 64 * ihigh + ilow;
    ShrTable(full);
    match bits
    case 6 => DivIs(full, 4, 16 * ihigh + ilow / 4, ilow % 4);
              DivIs(full / 4, 16, ihigh, ilow / 4);
    case 7 => DivIs(full, 2, 32 * ihigh + ilow / 2, ilow % 2);
              DivIs(full / 2, 32, ihigh, ilow / 2);
    case _ => ShrZeroShift(full);
              DivIs(full, 64, ihigh, ilow);
  }

  /** The inverse values of every rate lie between the outer levels of their cells. */
  lemma PositiveValues(bits: Rate, i: nat)
    requires 1 <= i <= 30
    ensures var v, lo, hi := Int(KeptValue(Ilp(i), bits)), FirstCell(bits, i), LastCell(bits, i);
            8 * Q6(lo - 1) <= v && (hi < 30 ==> v <= 8 * Q6(hi))
  {
    hide Ilp, Q6, Qm4, Qm5, Qm6;
    match bits
    case 6 => FourBitInverses(i);
    case 7 => FiveBitInverses(i);
    case _ => PositiveInverses(i);
  }

  lemma NegativeValues(bits: Rate, i: nat)
    requires 1 <= i <= 30
    ensures var v, lo, hi := Int(KeptValue(Iln(i), bits)), FirstCell(bits, i), LastCell(bits, i);
            8 * Q6(lo - 1) <= -v && (hi < 30 ==> -v <= 8 * Q6(hi))
  {
    hide Iln, Q6, Qm4, Qm5, Qm6;
    match bits
    case 6 => FourBitInverses(i);
    case 7 => FiveBitInverses(i);
    case _ => NegativeInverses(i);
  }

  /** The value y decoded for the difference el at the rate: it has the sign of el, lies
      between the outer levels of the cells that share its code, and, but for the last of
      them, misses el by at most the distance of these levels and one. */
  ghost predicate LowMatches(det: int16, el: int16, bits: Rate, y: int) {
    var i := CellFrom(det, Magnitude(el), 1);
    var lo, hi := FirstCell(bits, i), LastCell(bits, i);
    && (el >= 0 ==> Level(det, lo - 1) <= y && (hi < 30 ==> y <= Level(det, hi)))
    && (el < 0 ==> y <= -Level(det, lo - 1) && (hi < 30 ==> -Level(det, hi) - 1 <= y))
    && (hi < 30 ==> Abs(y - el) <= Level(det, hi) - Level(det, lo - 1) + 1)
  }

  /** Low band quantisation at 6, 7 and 8 bits. */
  lemma LowQuantisation(det: int16, el: int16, ihigh: nat, bits: Rate)
    requires det >= 0 && ihigh < 4
    ensures LowMatches(det, el, bits,
                       Inverse(det, LowValue(SentCode(FullCode(ihigh, QuantLow(det, el)), bits), bits)))
  {
    hide Level, LowValue, SentCode, FullCode, KeptValue, Ilp, Iln, Q6, FirstCell, LastCell, Inverse, CellFrom;
    LowValueSent(ihigh, QuantLow(det, el), bits);
    var i := CellFrom(det, Magnitude(el), 1);
    var lo, hi := FirstCell(bits, i), LastCell(bits, i);
    CellIsUnique(det, el, i);
    LevelsRise(det, lo - 1, i - 1);
    if hi < 30 { LevelsRise(det, i, hi); }
    if el < 0 {
      NegativeValues(bits, i);
      KeptOrder(det, KeptValue(Iln(i), bits), lo, hi);
    } else {
      PositiveValues(bits, i);
      KeptOrder(det, KeptValue(Ilp(i), bits), lo, hi);
    }
  }

  lemma KeptOrder(det: int16, v: int16, lo: nat, hi: nat)
    requires det >= 0 && 1 <= lo <= hi <= 30
    ensures 8 * Q6(lo - 1) <= v ==> Level(det, lo - 1) <= Inverse(det, v)
    ensures hi < 30 && v <= 8 * Q6(hi) ==> Inverse(det, v) <= Level(det, hi)
    ensures 8 * Q6(lo - 1) <= -Int(v) ==> Inverse(det, v) <= -Level(det, lo - 1)
    ensures hi < 30 && -Int(v) <= 8 * Q6(hi) ==> -Level(det, hi) - 1 <= Inverse(det, v)
  {
    hide Mul, Q6, Inverse;
    InverseExact(det, v);
    var q: int := v;
    ScaledOrder(Q6(lo - 1), q, det);
    ScaledOrder(Q6(lo - 1), -q, det);
    assert -(-q) == q;
    if hi < 30 {
      ScaledOrder(Q6(hi), q, det);
      ScaledOrder(Q6(hi), -q, det);
    }
  }

  // ---------------------------------------------------------------- steps

  /** One pass of the encoder loop over the sub-band samples; eightK leaves the high band
      out and its bits set. */
  function EncodeStep(bs: Bands, eightK: bool, bits: Rate, xlow: int16, xhigh: int16): (r: (Bands, nat)) {
    var (low, ilow) := EncodeLow(bs.low, xlow);
    if eightK then (Bands(low, bs.high), SentCode(BitOr(0xC0, ilow), bits))
    else
      var (high, ihigh) := EncodeHigh(bs.high, xhigh);
      (Bands(low, high), SentCode(FullCode(ihigh, ilow), bits))
  }

  /** One pass of the decoder loop over the bands. */
  function DecodeStep(bs: Bands, eightK: bool, bits: Rate, code: nat): Bands {
    Bands(DecodeLow(bs.low, Ril(code, bits)), if eightK then bs.high else DecodeHigh(bs.high, Ihigh(code, bits)))
  }

  lemma StepLockstep(bs: Bands, eightK: bool, bits: Rate, xlow: int16, xhigh: int16)
    requires BandsFit(bs)
    ensures var (bs', code) := EncodeStep(bs, eightK, bits, xlow, xhigh);
            bs' == DecodeStep(bs, eightK, bits, code) && code < Pow2(bits) && BandsFit(bs')
  {
    hide EncodeLow, EncodeHigh, DecodeLow, DecodeHigh, LowFits, HighFits, Pow2, SentCode, Ril, Ihigh, BitOr, Shl;
    BandLockstep(bs.low, bs.high, xlow, xhigh);
    var ilow := EncodeLow(bs.low, xlow).1;
    var ihigh := EncodeHigh(bs.high, xhigh).1;
    ShlTable(3);
    assert BitOr(0xC0, ilow) == FullCode(3, ilow) by { ShlSix(3); }
    FullCodeIs(3, ilow);
    FullCodeIs(ihigh, ilow);
    IndicesOf(3, ilow);
    IndicesOf(ihigh, ilow);
    DroppedBits(FullCode(3, ilow), bits);
    DroppedBits(FullCode(ihigh, ilow), bits);
    DecodeKeeps(bs.low, ilow / 4, 0);
    DecodeKeeps(bs.high, 0, ihigh);
  }

  lemma ShlSix(x: nat)
    ensures Shl(x, 6) == 64 * x
  {
    hide Shl;
    ShlTable(x);
  }

  /** Embedding: a decoder that sees only the bits kept adapts its bands as one that sees
      the full code. */
  lemma StepEmbedding(bs: Bands, eightK: bool, bits: Rate, full: nat)
    requires full < 256
    ensures DecodeStep(bs, eightK, bits, SentCode(full, bits)) == DecodeStep(bs, eightK, 8, full)
  {
    hide DecodeLow, DecodeHigh, SentCode, Ril, Ihigh;
    DroppedBits(full, bits);
  }

  // ---------------------------------------------------------------- runs

  /** A pair of sub-band samples. */
  datatype Pair = Pair(low: int16, high: int16)

  function EncodeRun(bs: Bands, eightK: bool, bits: Rate, xs: seq<Pair>): (r: (Bands, seq<nat>))
    ensures |r.1| == |xs|
  {
    if xs == [] then (bs, [])
    else
      var n := |xs| - 1;
      var (bs1, codes) := EncodeRun(bs, eightK, bits, xs[..n]);
      var (bs2, code) := EncodeStep(bs1, eightK, bits, xs[n].low, xs[n].high);
      (bs2, codes + [code])
  }

  lemma EncodeRunSnoc(bs: Bands, eightK: bool, bits: Rate, xs: seq<Pair>, x: Pair, run: (Bands, seq<nat>), step: (Bands, nat))
    requires run == EncodeRun(bs, eightK, bits, xs) && step == EncodeStep(run.0, eightK, bits, x.low, x.high)
    ensures EncodeRun(bs, eightK, bits, xs + [x]) == (step.0, run.1 + [step.1])
  {
    hide EncodeStep;
    assert (xs + [x])[..|xs|] == xs;
  }

  function DecodeRun(bs: Bands, eightK: bool, bits: Rate, codes: seq<nat>): Bands {
    if codes == [] then bs
    else DecodeStep(DecodeRun(bs, eightK, bits, codes[..|codes| - 1]), eightK, bits, codes[|codes| - 1])
  }

  /** Over every run and at every rate the decoder's bands equal the encoder's, every code
      fits its bits, and the state invariant holds. */
  lemma {:induction false} RunLockstep(bs: Bands, eightK: bool, bits: Rate, xs: seq<Pair>)
    requires BandsFit(bs)
    ensures var (bs', codes) := EncodeRun(bs, eightK, bits, xs);
            && bs' == DecodeRun(bs, eightK, bits, codes)
            && BandsFit(bs')
            && forall i :: 0 <= i < |codes| ==> codes[i] < Pow2(bits)
  {
    hide EncodeStep, DecodeStep, BandsFit, Pow2;
    if xs == [] {
    } else {
      var n := |xs| - 1;
      RunLockstep(bs, eightK, bits, xs[..n]);
      var (bs1, codes) := EncodeRun(bs, eightK, bits, xs[..n]);
      StepLockstep(bs1, eightK, bits, xs[n].low, xs[n].high);
      var code := EncodeStep(bs1, eightK, bits, xs[n].low, xs[n].high).1;
      assert (codes + [code])[..n] == codes;
    }
  }

  /** The codes of a run with their low bits dropped. */
  function Dropped(fulls: seq<nat>, bits: Rate): (codes: seq<nat>)
    ensures |codes| == |fulls|
  {
    seq(|fulls|, i requires 0 <= i < |fulls| => SentCode(fulls[i], bits))
  }

  /** Whole streams embed: at 48 and 56 kbit/s the bands are those of 64 kbit/s. */
  lemma {:induction false} RunEmbedding(bs: Bands, eightK: bool, bits: Rate, fulls: seq<nat>)
    requires forall i :: 0 <= i < |fulls| ==> fulls[i] < 256
    ensures DecodeRun(bs, eightK, bits, Dropped(fulls, bits)) == DecodeRun(bs, eightK, 8, fulls)
  {
    hide DecodeStep, SentCode;
    if fulls == [] {
    } else {
      var n := |fulls| - 1;
      RunEmbedding(bs, eightK, bits, fulls[..n]);
      assert Dropped(fulls, bits)[..n] == Dropped(fulls[..n], bits);
      StepEmbedding(DecodeRun(bs, eightK, 8, fulls[..n]), eightK, bits, fulls[n]);
    }
  }

  /** The codes of a shorter input are a prefix of the codes of a longer one. */
  lemma {:induction false} EncodePrefix(bs: Bands, eightK: bool, bits: Rate, xs: seq<Pair>, n: nat)
    requires n <= |xs|
    ensures EncodeRun(bs, eightK, bits, xs[..n]).1 == EncodeRun(bs, eightK, bits, xs).1[..n]
    decreases |xs|
  {
    hide EncodeStep;
    if n == |xs| {
      assert xs[..n] == xs;
    } else {
      EncodePrefix(bs, eightK, bits, xs[..|xs| - 1], n);
      assert xs[..|xs| - 1][..n] == xs[..n];
    }
  }

  // ---------------------------------------------------------------- packed streams

  /** Codes as fields of equal width. */
  function CodeFields(codes: seq<nat>, bits: Rate): (fs: seq<Field>)
    ensures |fs| == |codes|
  {
    seq(|codes|, i requires 0 <= i < |codes| => Field(codes[i], bits))
  }

  lemma {:induction false} CodeFieldsWidth(codes: seq<nat>, bits: Rate)
    ensures Width(CodeFields(codes, bits)) == bits * |codes|
  {
    if codes == [] {
    } else {
      var n := |codes| - 1;
      CodeFieldsWidth(codes[..n], bits);
      assert CodeFields(codes, bits)[..n] == CodeFields(codes[..n], bits);
    }
  }

  lemma CodeFieldsFit(codes: seq<nat>, bits: Rate)
    requires forall i :: 0 <= i < |codes| ==> codes[i] < Pow2(bits)
    ensures Fits(CodeFields(codes, bits))
  {
  }

  /** A decoder that has read every byte the encoder has written holds a prefix of the
      encoder's codes, whatever calls the bytes were split over; what is missing is exactly
      the bits still pending on the two sides. */
  lemma PackedPrefix(sent: seq<nat>, bytes: seq<byte>, out: nat, p: nat, got: seq<nat>, inp: nat, q: nat, bits: Rate)
    requires Pending(Bytes(bytes), out, p, CodeFields(sent, bits))
    requires Pending(CodeFields(got, bits), inp, q, Bytes(bytes))
    requires forall i :: 0 <= i < |sent| ==> sent[i] < Pow2(bits)
    ensures |got| <= |sent| && got == sent[..|got|]
    ensures bits * |sent| == 8 * |bytes| + p && 8 * |bytes| == bits * |got| + q
  {
    hide Pow2, Width, LsbValue, Shl, CodeFields, Bytes;
    var fs, gs := CodeFields(sent, bits), CodeFields(got, bits);
    CodeFieldsWidth(sent, bits);
    CodeFieldsWidth(got, bits);
    BytesWidth(bytes);
    if |got| > |sent| { MulMono(|sent| + 1, |got|, bits); }
    ShlAdd(inp, Shl(out, q), Width(gs));
    ShlShl(out, q, Width(gs));
    CodeFieldsFit(sent, bits);
    CodeShapes(sent, got, bits);
    LowFieldsUnique(gs, inp + Shl(out, q), fs);
    CodesOfFields(sent, got, bits);
  }

  lemma CodeShapes(sent: seq<nat>, got: seq<nat>, bits: Rate)
    requires |got| <= |sent|
    ensures SameShape(CodeFields(got, bits), CodeFields(sent, bits)[..|got|])
  {
  }

  lemma CodesOfFields(sent: seq<nat>, got: seq<nat>, bits: Rate)
    requires |got| <= |sent| && CodeFields(got, bits) == CodeFields(sent, bits)[..|got|]
    ensures got == sent[..|got|]
  {
    forall i | 0 <= i < |got| ensures got[i] == sent[i] {
      assert CodeFields(got, bits)[i] == CodeFields(sent, bits)[i];
    }
  }

  /** Whole streams through the packed format: the decoder is where the encoder was after
      the codes that have arrived whole. */
  lemma PackedLockstep(bs: Bands, eightK: bool, bits: Rate, xs: seq<Pair>, bytes: seq<byte>, out: nat, p: nat,
                       got: seq<nat>, inp: nat, q: nat)
    requires BandsFit(bs)
    requires Pending(Bytes(bytes), out, p, CodeFields(EncodeRun(bs, eightK, bits, xs).1, bits))
    requires Pending(CodeFields(got, bits), inp, q, Bytes(bytes))
    ensures |got| <= |xs|
    ensures DecodeRun(bs, eightK, bits, got) == EncodeRun(bs, eightK, bits, xs[..|got|]).0
  {
    hide Pending, EncodeRun, DecodeRun, BandsFit, CodeFields, Bytes, Pow2;
    RunLockstep(bs, eightK, bits, xs);
    var codes := EncodeRun(bs, eightK, bits, xs).1;
    PackedPrefix(codes, bytes, out, p, got, inp, q, bits);
    EncodePrefix(bs, eightK, bits, xs, |got|);
    RunLockstep(bs, eightK, bits, xs[..|got|]);
  }
}
