/** BroadVoice16 excitation coding: the decoder's sample by sample synthesis, the encoder's
    vector by vector one, and the proof that they keep the same memories. Samples are in
    Q0, sums in Q16. */
module Bv16Excitation {
  import opened FixedPoint
  import opened Bv16Basop

  const MAXPP1: nat := 138
  const MINPP: nat := 10

  type Lpc = s: seq<int16> | |s| == 9 witness seq(9, _ => 0)
  type Taps = s: seq<int16> | |s| == 3 witness [0, 0, 0]
  type Vec4 = s: seq<int16> | |s| == 4 witness [0, 0, 0, 0]
  type Codebook = s: seq<int16> | |s| == 64 witness seq(64, _ => 0)
  /** An index of the codebook with its sign. */
  type Id = i: nat | i < 32
  type Indices = s: seq<Id> | |s| == 10 witness seq(10, _ => 0)
  type Longs4 = s: seq<int32> | |s| == 4 witness [0, 0, 0, 0]

  // ---------------------------------------------------------------- synthesis, on values

  /** What both filters run with: predictor taps, pitch period, short-term coefficients and
      the exponent the excitation is normalised by. */
  datatype Filter = Filter(b: Taps, pp: nat, aq: Lpc, exp: int16)

  ghost predicate FilterFits(f: Filter) { MINPP <= f.pp < MAXPP1 }

  /** The three tap prediction around position at. */
  function PitchPrediction(lt: seq<int16>, at: nat, b: Taps): int32
    requires 1 <= at && at + 1 < |lt|
  {
    LMac(LMac(LMult(lt[at + 1], b[0]), lt[at], b[1]), lt[at - 1], b[2])
  }

  /** The first k terms of the short-term prediction from position at. */
  function ShortSum(st: seq<int16>, at: nat, aq: Lpc, k: nat): int32
    requires k <= 8 && at + 8 <= |st|
  {
    if k == 0 then 0 else LMsu(ShortSum(st, at, aq, k - 1), st[at + k - 1], aq[9 - k])
  }

  function ShortPrediction(st: seq<int16>, at: nat, aq: Lpc): int32
    requires at + 8 <= |st|
  {
    LShl(ShortSum(st, at, aq, 8), 3)
  }

  /** The long-term and the short-term synthesis memory, the newest sample last. */
  datatype Syn = Syn(lt: seq<int16>, st: seq<int16>)

  ghost predicate SynFits(x: Syn) { |x.lt| >= MAXPP1 && |x.st| >= 8 }

  /** The excitation sample u, denormalised. */
  function Denormalised(u: int16, exp: int16): int32 { LShr(DepositH(u), exp) }

  function SynStep(x: Syn, u: int16, f: Filter): (y: Syn)
    requires SynFits(x) && FilterFits(f)
    ensures |y.lt| == |x.lt| + 1 && |y.st| == |x.st| + 1
  {
    var vq := LAdd(PitchPrediction(x.lt, |x.lt| - f.pp, f.b), Denormalised(u, f.exp));
    Syn(x.lt + [Round(vq)], x.st + [Round(LAdd(ShortPrediction(x.st, |x.st| - 8, f.aq), vq))])
  }

  function SynRun(x: Syn, us: seq<int16>, f: Filter): (y: Syn)
    requires SynFits(x) && FilterFits(f)
    ensures |y.lt| == |x.lt| + |us| && |y.st| == |x.st| + |us|
  {
    if us == [] then x else SynStep(SynRun(x, us[..|us| - 1], f), us[|us| - 1], f)
  }

  lemma {:induction false} SynRunConcat(x: Syn, us: seq<int16>, vs: seq<int16>, f: Filter)
    requires SynFits(x) && FilterFits(f)
    ensures SynRun(x, us + vs, f) == SynRun(SynRun(x, us, f), vs, f)
  {
    hide SynStep;
    if vs == [] {
      assert us + vs == us;
    } else {
      var n := |vs| - 1;
      SynRunConcat(x, us, vs[..n], f);
      assert (us + vs)[..|us| + n] == us + vs[..n];
    }
  }

  // ---------------------------------------------------------------- excitation

  /** Sample n of the vector the decoder looks up for index id. */
  function DecodedSample(cb: Codebook, id: nat, n: nat): int16
    requires id < 32 && n < 4
  {
    if id < 16 then cb[4 * id + n] else Negate(cb[4 * (id - 16) + n])
  }

  /** The same in the encoder: a product with the sign, in 16 bits. */
  function EncodedSample(cb: Codebook, id: nat, n: nat): int16
    requires id < 32 && n < 4
  {
    if id < 16 then cb[4 * id + n] else Wrap16(-Int(cb[4 * (id - 16) + n]))
  }

  /** The two agree exactly where the codebook entry can be negated. */
  lemma SamplesAgree(cb: Codebook, id: nat, n: nat)
    requires id < 32 && n < 4
    ensures EncodedSample(cb, id, n) == DecodedSample(cb, id, n)
            <==> id < 16 || cb[4 * (id - 16) + n] != MIN16
  {
  }

  function Decoded(cb: Codebook, idx: Indices): (us: seq<int16>)
    ensures |us| == 40
  {
    seq(40, k requires 0 <= k < 40 => DecodedSample(cb, idx[k / 4], k % 4))
  }

  function Encoded(cb: Codebook, idx: Indices): (us: seq<int16>)
    ensures |us| == 40
  {
    seq(40, k requires 0 <= k < 40 => EncodedSample(cb, idx[k / 4], k % 4))
  }

  /** No chosen entry is -32768 under a negative sign. */
  predicate Negatable(cb: Codebook, idx: Indices) {
    forall k: nat :: k < 40 ==> idx[k / 4] < 16 || cb[4 * (idx[k / 4] - 16) + k % 4] != MIN16
  }

  /** Encoder and decoder use the same excitation if and only if every negated entry can be
      negated in 16 bits. */
  lemma ExcitationAgrees(cb: Codebook, idx: Indices)
    ensures Encoded(cb, idx) == Decoded(cb, idx) <==> Negatable(cb, idx)
  {
    hide EncodedSample, DecodedSample;
    forall k: nat | k < 40
      ensures Encoded(cb, idx)[k] == Decoded(cb, idx)[k]
              <==> idx[k / 4] < 16 || cb[4 * (idx[k / 4] - 16) + k % 4] != MIN16
    {
      SamplesAgree(cb, idx[k / 4], k % 4);
    }
  }

  /** The codebook both sides scale by the gain. */
  function ScaledCodebook(gain: int16, cccb: Codebook): Codebook {
    seq(64, i requires 0 <= i < 64 => MultRound(gain, cccb[i]))
  }

  /** A scaled codebook can always be negated, so the two excitations always agree. */
  lemma ScaledNegatable(gain: int16, cccb: Codebook, idx: Indices)
    ensures Encoded(ScaledCodebook(gain, cccb), idx) == Decoded(ScaledCodebook(gain, cccb), idx)
  {
    hide Encoded, Decoded, MultRound;
    var cb := ScaledCodebook(gain, cccb);
    forall i | 0 <= i < 64 ensures cb[i] != MIN16 {
      MultRoundNeverMin(gain, cccb[i]);
    }
    ExcitationAgrees(cb, idx);
  }

  // ---------------------------------------------------------------- frames

  /** The memories kept from frame to frame. */
  ghost predicate Memory(x: Syn) { |x.lt| == MAXPP1 && |x.st| == 8 }

  /** The memories after a frame of 40 samples. */
  function Carried(y: Syn): Syn
    requires |y.lt| == MAXPP1 + 40 && |y.st| == 48
  {
    Syn(y.lt[40..], y.st[40..])
  }

  /** One frame at the decoder. */
  function RestoreFrame(x: Syn, cb: Codebook, idx: Indices, f: Filter): (y: Syn)
    requires Memory(x) && FilterFits(f)
    ensures Memory(y)
  {
    hide Decoded, SynRun;
    Carried(SynRun(x, Decoded(cb, idx), f))
  }

  function ExciteFrame(x: Syn, cb: Codebook, idx: Indices, f: Filter): (y: Syn)
    requires Memory(x) && FilterFits(f)
    ensures Memory(y)
  {
    hide Encoded, SynRun;
    Carried(SynRun(x, Encoded(cb, idx), f))
  }

  /** What a frame is coded with. */
  datatype Coded = Coded(gain: int16, idx: Indices, f: Filter)

  ghost predicate AllFit(fs: seq<Coded>) {
    forall i :: 0 <= i < |fs| ==> FilterFits(fs[i].f)
  }

  function EncodeRun(x: Syn, cccb: Codebook, fs: seq<Coded>): (y: Syn)
    requires Memory(x) && AllFit(fs)
    ensures Memory(y)
  {
    if fs == [] then x
    else
      var n := |fs| - 1;
      ExciteFrame(EncodeRun(x, cccb, fs[..n]), ScaledCodebook(fs[n].gain, cccb), fs[n].idx, fs[n].f)
  }

  function DecodeRun(x: Syn, cccb: Codebook, fs: seq<Coded>): (y: Syn)
    requires Memory(x) && AllFit(fs)
    ensures Memory(y)
  {
    if fs == [] then x
    else
      var n := |fs| - 1;
      RestoreFrame(DecodeRun(x, cccb, fs[..n]), ScaledCodebook(fs[n].gain, cccb), fs[n].idx, fs[n].f)
  }

  /** Whole runs: from equal memories, whatever indices, gains and filters the frames have,
      both sides keep equal memories. */
  lemma {:induction false} ExcitationLockstep(x: Syn, cccb: Codebook, fs: seq<Coded>)
    requires Memory(x) && AllFit(fs)
    ensures EncodeRun(x, cccb, fs) == DecodeRun(x, cccb, fs)
  {
    hide Encoded, Decoded, ScaledCodebook, SynRun, Memory;
    if fs == [] {
    } else {
      var n := |fs| - 1;
      ExcitationLockstep(x, cccb, fs[..n]);
      ScaledNegatable(fs[n].gain, cccb, fs[n].idx);
    }
  }

  // ---------------------------------------------------------------- decoder, in place

  /** The taps around position at, read backwards from at + 1. */
  method PredictPitch(lt: array<int16>, at: nat, b: Taps) returns (a: int32)
    requires 1 <= at && at + 1 < lt.Length
    ensures a == PitchPrediction(lt[..], at, b)
  {
    hide LMult, LMac;
    a := LMult(lt[at + 1], b[0]);
    a := LMac(a, lt[at], b[1]);
    a := LMac(a, lt[at - 1], b[2]);
  }

  method PredictShort(st: array<int16>, at: nat, aq: Lpc) returns (a: int32)
    requires at + 8 <= st.Length
    ensures a == ShortPrediction(st[..], at, aq)
  {
    hide LMsu;
    a := 0;
    var i := 8;
    while i > 0
      invariant 0 <= i <= 8
      invariant a == ShortSum(st[..], at, aq, 8 - i)
    {
      a := LMsu(a, st[at + 8 - i], aq[i]);
      i := i - 1;
    }
    a := LShl(a, 3);
  }

  /** Only the samples a prediction reads matter. */
  lemma PitchLocal(a: seq<int16>, c: seq<int16>, at: nat, b: Taps)
    requires 1 <= at && at + 1 < |a| <= |c| && a == c[..|a|]
    ensures PitchPrediction(a, at, b) == PitchPrediction(c, at, b)
  {
    assert c[at + 1] == c[..|a|][at + 1] && c[at] == c[..|a|][at] && c[at - 1] == c[..|a|][at - 1];
  }

  lemma {:induction false} ShortLocal(a: seq<int16>, c: seq<int16>, at: nat, aq: Lpc, k: nat)
    requires k <= 8 && at + 8 <= |a| <= |c| && a == c[..|a|]
    ensures ShortSum(a, at, aq, k) == ShortSum(c, at, aq, k)
  {
    if k == 0 {
    } else {
      ShortLocal(a, c, at, aq, k - 1);
      assert c[at + k - 1] == c[..|a|][at + k - 1];
    }
  }

  /** The buffers hold the history and what has been synthesised of us. */
  ghost predicate Synthesised(x: Syn, us: seq<int16>, f: Filter, lt: seq<int16>, st: seq<int16>) {
    && Memory(x) && FilterFits(f) && |us| <= 40 && |lt| == MAXPP1 + 40 && |st| == 48
    && lt[..MAXPP1 + |us|] == SynRun(x, us, f).lt && st[..8 + |us|] == SynRun(x, us, f).st
  }

  /** The values of one more sample, computed from the whole buffers. */
  function NextLong(lt: seq<int16>, n: nat, u: int16, f: Filter): int32
    requires n < 40 && |lt| == MAXPP1 + 40 && FilterFits(f)
  {
    LAdd(PitchPrediction(lt, MAXPP1 + n - f.pp, f.b), Denormalised(u, f.exp))
  }

  function NextShort(st: seq<int16>, n: nat, vq: int32, f: Filter): int16
    requires n < 40 && |st| == 48
  {
    Round(LAdd(ShortPrediction(st, n, f.aq), vq))
  }

  lemma SynthesisedNext(x: Syn, us: seq<int16>, f: Filter, lt: seq<int16>, st: seq<int16>, u: int16)
    requires Synthesised(x, us, f, lt, st) && |us| < 40
    ensures var n := |us|;
            var vq := NextLong(lt, n, u, f);
            Synthesised(x, us + [u], f, lt[MAXPP1 + n := Round(vq)], st[8 + n := NextShort(st, n, vq, f)])
  {
    hide PitchPrediction, ShortSum, LShl, Denormalised, Round, LAdd, SynRun;
    var n := |us|;
    var y := SynRun(x, us, f);
    RunUnfold(x, us, u, f);
    PitchLocal(y.lt, lt, MAXPP1 + n - f.pp, f.b);
    ShortLocal(y.st, st, n, f.aq, 8);
    var vq := NextLong(lt, n, u, f);
    var lt2, st2 := lt[MAXPP1 + n := Round(vq)], st[8 + n := NextShort(st, n, vq, f)];
    assert lt2[..MAXPP1 + n + 1] == lt[..MAXPP1 + n] + [Round(vq)];
    assert st2[..8 + n + 1] == st[..8 + n] + [NextShort(st, n, vq, f)];
  }

  lemma RunUnfold(x: Syn, us: seq<int16>, u: int16, f: Filter)
    requires SynFits(x) && FilterFits(f)
    ensures SynRun(x, us + [u], f) == SynStep(SynRun(x, us, f), u, f)
  {
    hide SynStep;
    assert (us + [u])[..|us|] == us;
  }

  /** One sample of either side, given the excitation already added to its prediction. */
  method StoreSample(ltsym: array<int16>, buf1: array<int16>, n: nat, vq: int32, a1: int32)
    requires n < 40 && ltsym.Length == MAXPP1 + 40 && buf1.Length == 48 && ltsym != buf1
    modifies ltsym, buf1
    ensures ltsym[..] == old(ltsym[..])[MAXPP1 + n := Round(vq)]
    ensures buf1[..] == old(buf1[..])[8 + n := Round(LAdd(a1, vq))]
  {
    hide Round, LAdd;
    ltsym[MAXPP1 + n] := Round(vq);
    buf1[8 + n] := Round(LAdd(a1, vq));
  }

  /** The vector the decoder looks up. */
  method LookUp(cb: Codebook, id: nat) returns (uq: Vec4)
    requires id < 32
    ensures forall n :: 0 <= n < 4 ==> uq[n] == DecodedSample(cb, id, n)
  {
    hide Negate;
    var v: seq<int16> := [];
    for n := 0 to 4
      invariant |v| == n && forall k :: 0 <= k < n ==> v[k] == DecodedSample(cb, id, k)
    {
      v := v + [DecodedSample(cb, id, n)];
    }
    uq := v;
  }

  /** The energy of the excitation, for the concealment of lost frames. */
  function Energy(us: seq<int16>, exp: int16): int32 {
    if us == [] then 0
    else
      var tt := Round(Denormalised(us[|us| - 1], exp));
      LMac0(Energy(us[..|us| - 1], exp), tt, tt)
  }

  lemma EnergyNext(us: seq<int16>, u: int16, exp: int16)
    ensures var tt := Round(Denormalised(u, exp)); Energy(us + [u], exp) == LMac0(Energy(us, exp), tt, tt)
  {
    hide Denormalised, Round, LMac0;
    assert (us + [u])[..|us|] == us;
  }

  /** One sample at the decoder: excitation, long-term and short-term synthesis. */
  method DecodeSample(ltsym: array<int16>, buf1: array<int16>, n: nat, u: int16, f: Filter, ghost x: Syn, ghost us: seq<int16>)
    returns (tt: int16)
    requires ltsym.Length == MAXPP1 + 40 && buf1.Length == 48 && ltsym != buf1 && FilterFits(f)
    requires |us| == n < 40 && Synthesised(x, us, f, ltsym[..], buf1[..])
    modifies ltsym, buf1
    ensures Synthesised(x, us + [u], f, ltsym[..], buf1[..])
    ensures tt == Round(Denormalised(u, f.exp))
  {
    hide SynRun, Synthesised, LAdd, LShr, LShl, Round, PitchPrediction, ShortPrediction, LMac0;
    SynthesisedNext(x, us, f, ltsym[..], buf1[..], u);
    var a0: int32 := Denormalised(u, f.exp);
    tt := Round(a0);
    var a1: int32 := PredictPitch(ltsym, MAXPP1 + n - f.pp, f.b);
    LAddCommutes(a0, a1);
    a0 := LAdd(a0, a1);
    a1 := PredictShort(buf1, n, f.aq);
    StoreSample(ltsym, buf1, n, a0, a1);
  }

  /** excdec_w_synth: the prediction is computed one sample at a time. */
  method ExcDecWSynth(ltsym: array<int16>, stsym: array<int16>, idx: Indices, cb: Codebook, f: Filter)
    returns (xq: seq<int16>, energy: int32)
    requires ltsym.Length == MAXPP1 + 40 && stsym.Length == 8 && ltsym != stsym && FilterFits(f)
    modifies ltsym, stsym
    ensures var y := SynRun(Syn(old(ltsym[..MAXPP1]), old(stsym[..])), Decoded(cb, idx), f);
            ltsym[..] == y.lt && stsym[..] == y.st[40..] && xq == y.st[8..]
    ensures energy == Energy(Decoded(cb, idx), f.exp)
  {
    hide SynRun, Synthesised, Denormalised, Round, LMac0, DecodedSample, Energy;
    ghost var x := Syn(ltsym[..MAXPP1], stsym[..]);
    ghost var all := Decoded(cb, idx);
    var buf1 := new int16[48];
    forall i | 0 <= i < 8 {
      buf1[i] := stsym[i];
    }
    SynthesisedNone(x, f, ltsym[..], buf1[..], all);
    energy := 0;
    var m := 0;
    while m < 40
      invariant 0 <= m <= 40 && m % 4 == 0
      invariant Synthesised(x, all[..m], f, ltsym[..], buf1[..])
      invariant energy == Energy(all[..m], f.exp)
      modifies ltsym, buf1
    {
      var uq := LookUp(cb, idx[m / 4]);
      for n := m to m + 4
        invariant Synthesised(x, all[..n], f, ltsym[..], buf1[..])
        invariant energy == Energy(all[..n], f.exp)
        modifies ltsym, buf1
      {
        var u := uq[n - m];
        assert all[n] == u;
        assert all[..n + 1] == all[..n] + [u];
        EnergyNext(all[..n], u, f.exp);
        var tt := DecodeSample(ltsym, buf1, n, u, f, x, all[..n]);
        energy := LMac0(energy, tt, tt);
      }
      m := m + 4;
    }
    SynthesisedAll(x, all, f, ltsym[..], buf1[..]);
    forall i | 0 <= i < 8 {
      stsym[i] := buf1[40 + i];
    }
    xq := buf1[8..];
    assert stsym[..] == buf1[40..];
    assert all[..40] == all;
  }

  lemma LAddCommutes(a: int32, b: int32)
    ensures LAdd(a, b) == LAdd(b, a)
  {
  }

  lemma SynthesisedNone(x: Syn, f: Filter, lt: seq<int16>, st: seq<int16>, all: seq<int16>)
    requires Memory(x) && FilterFits(f) && |lt| == MAXPP1 + 40 && |st| == 48
    requires lt[..MAXPP1] == x.lt && st[..8] == x.st
    ensures Synthesised(x, all[..0], f, lt, st) && Energy(all[..0], f.exp) == 0
  {
  }

  lemma SynthesisedAll(x: Syn, all: seq<int16>, f: Filter, lt: seq<int16>, st: seq<int16>)
    requires |all| == 40 && Synthesised(x, all[..40], f, lt, st)
    ensures lt == SynRun(x, all, f).lt && st == SynRun(x, all, f).st
  {
    hide SynRun;
    assert all[..40] == all && lt[..MAXPP1 + 40] == lt && st[..48] == st;
  }
}
