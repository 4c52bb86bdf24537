/** The BroadVoice16 excitation quantiser: noise feedback coding by analysis of zero-state
    and zero-input responses, the codebook search, and the proof that the synthesis
    memories it leaves are those of Bv16Excitation. */
module Bv16ExcQuan {
  import opened FixedPoint
  import opened Bv16Basop
  import opened Bv16Excitation

  /** The filters of a frame: those shared with the decoder, the short-term noise feedback
      filter fsz / fsp and the pitch feedback coefficient beta. */
  datatype Shaping = Shaping(f: Filter, fsz: Lpc, fsp: Lpc, beta: int16)

  /** Memories of the encoder, the newest sample last: long-term synthesis and noise
      feedback, short-term synthesis, and zero and pole section of the noise feedback. */
  datatype Short = Short(st: seq<int16>, z: seq<int16>, p: seq<int16>)
  datatype Enc = Enc(lt: seq<int16>, ltn: seq<int16>, sh: Short)

  ghost predicate ShortFits(x: Short) { |x.st| == |x.z| == |x.p| >= 8 }

  ghost predicate EncFits(e: Enc) { |e.lt| == |e.ltn| >= MAXPP1 && ShortFits(e.sh) }

  // ---------------------------------------------------------------- short-term filters

  /** The first k terms of the noise feedback filter from position at. */
  function NoiseSum(z: seq<int16>, p: seq<int16>, at: nat, g: Shaping, k: nat): int32
    requires k <= 8 && at + 8 <= |z| && at + 8 <= |p|
  {
    if k == 0 then 0
    else LMsu(LMac(NoiseSum(z, p, at, g, k - 1), z[at + k - 1], g.fsz[9 - k]), p[at + k - 1], g.fsp[9 - k])
  }

  function Feedback(z: seq<int16>, p: seq<int16>, at: nat, g: Shaping): int32
    requires at + 8 <= |z| && at + 8 <= |p|
  {
    LShl(NoiseSum(z, p, at, g, 8), 3)
  }

  /** The input sample less short-term prediction and noise feedback. */
  function Target(s: int16, a0: int32, a1: int32): int32 { LSub(LSub(DepositH(s), a0), a1) }

  function TargetOf(x: Short, s: int16, g: Shaping): int32
    requires ShortFits(x)
  {
    Target(s, ShortPrediction(x.st, |x.st| - 8, g.f.aq), Feedback(x.z, x.p, |x.z| - 8, g))
  }

  /** One sample with the short-term excitation vq. */
  function ShortStep(x: Short, s: int16, vq: int32, g: Shaping): (y: Short)
    requires ShortFits(x)
    ensures ShortFits(y) && |y.st| == |x.st| + 1
  {
    Short(x.st + [Round(LAdd(ShortPrediction(x.st, |x.st| - 8, g.f.aq), vq))],
          x.z + [Round(LSub(TargetOf(x, s, g), vq))],
          x.p + [Round(Feedback(x.z, x.p, |x.z| - 8, g))])
  }

  // ---------------------------------------------------------------- prediction and responses

  /** The pitch prediction of sample n of the next vector. */
  function PpvAt(e: Enc, n: nat, g: Shaping): int32
    requires EncFits(e) && FilterFits(g.f) && n < 4
  {
    PitchPrediction(e.lt, |e.lt| + n - g.f.pp, g.f.b)
  }

  /** The same with the long-term noise feedback added. */
  function LtfvAt(e: Enc, n: nat, g: Shaping): int32
    requires EncFits(e) && FilterFits(g.f) && n < 4
  {
    LAdd(PpvAt(e, n, g), LShl(LMult(e.ltn[|e.ltn| + n - g.f.pp], g.beta), 2))
  }

  function Ppv(e: Enc, g: Shaping): Longs4
    requires EncFits(e) && FilterFits(g.f)
  {
    seq(4, n requires 0 <= n < 4 => PpvAt(e, n, g))
  }

  function Ltfv(e: Enc, g: Shaping): Longs4
    requires EncFits(e) && FilterFits(g.f)
  {
    seq(4, n requires 0 <= n < 4 => LtfvAt(e, n, g))
  }

  /** n samples of zero excitation: the memories, and the zero-input response so far. */
  function ZirRun(x: Short, s: Vec4, ppv: Longs4, ltfv: Longs4, g: Shaping, n: nat): (r: (Short, seq<int16>))
    requires ShortFits(x) && n <= 4
    ensures ShortFits(r.0) && |r.0.st| == |x.st| + n && |r.1| == n
  {
    if n == 0 then (x, [])
    else
      var (y, q) := ZirRun(x, s, ppv, ltfv, g, n - 1);
      (ShortStep(y, s[n - 1], ppv[n - 1], g), q + [ZirSample(y, s[n - 1], ltfv[n - 1], g)])
  }

  function ZirSample(y: Short, s: int16, ltfv: int32, g: Shaping): int16
    requires ShortFits(y)
  {
    Round(LShl(LSub(TargetOf(y, s, g), ltfv), SatSub16(g.f.exp, 3)))
  }

  /** The same filters started from nothing. */
  datatype Zero = Zero(b1: seq<int16>, b2: seq<int16>, b3: seq<int16>, out: seq<int16>)

  /** Terms of the zero-state prediction of sample i: coefficients i down to i + 1 - k. */
  function ZeroShort(b1: seq<int16>, g: Shaping, i: nat, k: nat): int32
    requires k <= i < 4 && i <= |b1|
  {
    if k == 0 then 0 else LMsu(ZeroShort(b1, g, i, k - 1), b1[k - 1], g.f.aq[i + 1 - k])
  }

  function ZeroNoise(b2: seq<int16>, b3: seq<int16>, g: Shaping, i: nat, k: nat): int32
    requires k <= i < 4 && i <= |b2| && i <= |b3|
  {
    if k == 0 then 0
    else LMsu(LMac(ZeroNoise(b2, b3, g, i, k - 1), b2[k - 1], g.fsz[i + 1 - k]), b3[k - 1], g.fsp[i + 1 - k])
  }

  function ZeroStep(x: Zero, c: int16, g: Shaping): Zero
    requires |x.b1| == |x.b2| == |x.b3| == |x.out| < 4
  {
    var i := |x.b1|;
    var a0 := LAdd(LShl(ZeroShort(x.b1, g, i, i), 3), DepositH(c));
    var a1 := LShl(ZeroNoise(x.b2, x.b3, g, i, i), 3);
    var a := LAdd(a0, a1);
    Zero(x.b1 + [Round(a0)], x.b2 + [Negate(Round(a))], x.b3 + [Round(a1)], x.out + [Round(LShr(a, 1))])
  }

  function ZeroRun(cb: Codebook, j: nat, g: Shaping, n: nat): (x: Zero)
    requires j < 16 && n <= 4
    ensures |x.b1| == |x.b2| == |x.b3| == |x.out| == n
  {
    if n == 0 then Zero([], [], [], []) else ZeroStep(ZeroRun(cb, j, g, n - 1), cb[4 * j + n - 1], g)
  }

  /** The zero-state responses of the sixteen codevectors, one after the other. */
  function Zsr(cb: Codebook, g: Shaping): Codebook {
    seq(64, k requires 0 <= k < 64 => ZeroRun(cb, k / 4, g, 4).out[k % 4])
  }

  // ---------------------------------------------------------------- search

  /** Candidate c stands for codevector c / 2 with a positive sign if c is even. */
  function ErrorAt(qzsr: Codebook, qzir: Vec4, c: nat, n: nat): int16
    requires c < 32 && n < 4
  {
    if c % 2 == 0 then SatSub16(Shl16(qzir[n], 2), qzsr[4 * (c / 2) + n])
    else SatAdd16(Shl16(qzir[n], 2), qzsr[4 * (c / 2) + n])
  }

  /** The energy of the first n errors of a candidate. */
  function ErrorEnergy(qzsr: Codebook, qzir: Vec4, c: nat, n: nat): (e: int32)
    requires c < 32 && n <= 4
    ensures e >= 0
  {
    if n == 0 then 0
    else
      var d := ErrorAt(qzsr, qzir, c, n - 1);
      SquareNat(d);
      LMac0(ErrorEnergy(qzsr, qzir, c, n - 1), d, d)
  }

  lemma SquareNat(d: int16)
    ensures LMult0(d, d) >= 0
  {
    MulIsProduct(d, d);
  }

  /** The first candidate of least energy among the first n. */
  ghost predicate Best(qzsr: Codebook, qzir: Vec4, n: nat, c: nat)
    requires n <= 32
  {
    && c < n
    && (forall k :: 0 <= k < n ==> ErrorEnergy(qzsr, qzir, c, 4) <= ErrorEnergy(qzsr, qzir, k, 4))
    && forall k :: 0 <= k < c ==> ErrorEnergy(qzsr, qzir, c, 4) < ErrorEnergy(qzsr, qzir, k, 4)
  }

  function BestOf(qzsr: Codebook, qzir: Vec4, n: nat): (c: nat)
    requires 1 <= n <= 32
    ensures c < n
  {
    if n == 1 then 0
    else
      var c := BestOf(qzsr, qzir, n - 1);
      if ErrorEnergy(qzsr, qzir, n - 1, 4) < ErrorEnergy(qzsr, qzir, c, 4) then n - 1 else c
  }

  lemma {:induction false} BestOfIsBest(qzsr: Codebook, qzir: Vec4, n: nat)
    requires 1 <= n <= 32
    ensures Best(qzsr, qzir, n, BestOf(qzsr, qzir, n))
  {
    hide ErrorEnergy;
    if n <= 1 {
    } else {
      BestOfIsBest(qzsr, qzir, n - 1);
    }
  }

  lemma BestIsUnique(qzsr: Codebook, qzir: Vec4, c: nat)
    requires Best(qzsr, qzir, 32, c)
    ensures c == BestOf(qzsr, qzir, 32)
  {
    hide ErrorEnergy;
    BestOfIsBest(qzsr, qzir, 32);
  }

  /** The index sent for a candidate: negative signs above the codebook size. */
  function IndexOf(c: nat): (id: nat)
    requires c < 32
    ensures id < 32
  {
    if c % 2 == 0 then c / 2 else c / 2 + 16
  }

  /** The index chosen for the next vector. */
  function Chosen(e: Enc, s: Vec4, cb: Codebook, g: Shaping): (id: nat)
    requires EncFits(e) && FilterFits(g.f)
    ensures id < 32
  {
    IndexOf(BestOf(Zsr(cb, g), ZirRun(e.sh, s, Ppv(e, g), Ltfv(e, g), g, 4).1, 32))
  }

  // ---------------------------------------------------------------- memories

  /** One sample of the chosen vector. */
  function EncStep(e: Enc, s: int16, u: int16, ppv: int32, ltfv: int32, g: Shaping): (y: Enc)
    requires EncFits(e)
    ensures EncFits(y) && |y.lt| == |e.lt| + 1 && |y.sh.st| == |e.sh.st| + 1
  {
    var uq32 := Denormalised(u, g.f.exp);
    var vq := LAdd(ppv, uq32);
    Enc(e.lt + [Round(vq)], e.ltn + [Round(LSub(LSub(TargetOf(e.sh, s, g), ltfv), uq32))], ShortStep(e.sh, s, vq, g))
  }

  /** The first n samples of a vector, with the predictions made before it. */
  function EncSteps(e: Enc, s: Vec4, uq: Vec4, ppv: Longs4, ltfv: Longs4, g: Shaping, n: nat): (y: Enc)
    requires EncFits(e) && n <= 4
    ensures EncFits(y) && |y.lt| == |e.lt| + n && |y.sh.st| == |e.sh.st| + n
  {
    if n == 0 then e
    else EncStep(EncSteps(e, s, uq, ppv, ltfv, g, n - 1), s[n - 1], uq[n - 1], ppv[n - 1], ltfv[n - 1], g)
  }

  function Vector(cb: Codebook, id: nat): Vec4
    requires id < 32
  {
    seq(4, n requires 0 <= n < 4 => EncodedSample(cb, id, n))
  }

  /** One vector: choice, then memories. */
  function EncVector(e: Enc, s: Vec4, cb: Codebook, g: Shaping): (r: (Enc, Id))
    requires EncFits(e) && FilterFits(g.f)
    ensures EncFits(r.0) && |r.0.lt| == |e.lt| + 4 && |r.0.sh.st| == |e.sh.st| + 4
  {
    var id := Chosen(e, s, cb, g);
    (EncSteps(e, s, Vector(cb, id), Ppv(e, g), Ltfv(e, g), g, 4), id)
  }

  /** The first k vectors of a frame. */
  function EncVectors(e: Enc, s: seq<int16>, cb: Codebook, g: Shaping, k: nat): (r: (Enc, seq<Id>))
    requires EncFits(e) && FilterFits(g.f) && 4 * k <= |s|
    ensures EncFits(r.0) && |r.0.lt| == |e.lt| + 4 * k && |r.0.sh.st| == |e.sh.st| + 4 * k
    ensures |r.1| == k
  {
    hide *;
    if k == 0 then (e, [])
    else
      var (y, ids) := EncVectors(e, s, cb, g, k - 1);
      var (z, id) := EncVector(y, s[4 * (k - 1)..4 * k], cb, g);
      (z, ids + [id])
  }

  // ---------------------------------------------------------------- agreement with the synthesis

  /** What the decoder keeps of the encoder's memories. */
  function SynOf(e: Enc): Syn { Syn(e.lt, e.sh.st) }

  lemma {:induction false} EncStepsKeep(e: Enc, s: Vec4, uq: Vec4, ppv: Longs4, ltfv: Longs4, g: Shaping, n: nat)
    requires EncFits(e) && n <= 4
    ensures EncSteps(e, s, uq, ppv, ltfv, g, n).lt[..|e.lt|] == e.lt
  {
    hide ShortStep, TargetOf, Round, LAdd, LSub, Denormalised;
    if n == 0 {
    } else {
      EncStepsKeep(e, s, uq, ppv, ltfv, g, n - 1);
    }
  }

  /** Predicting a vector ahead gives what predicting sample by sample gives, because the
      pitch period is longer than a vector. */
  lemma {:induction false} VectorIsSynthesis(e: Enc, s: Vec4, uq: Vec4, g: Shaping, n: nat)
    requires EncFits(e) && FilterFits(g.f) && n <= 4
    ensures SynOf(EncSteps(e, s, uq, Ppv(e, g), Ltfv(e, g), g, n)) == SynRun(SynOf(e), uq[..n], g.f)
  {
    hide PitchPrediction, ShortPrediction, TargetOf, Feedback, Round, LAdd, LSub, LShl, LMult, Denormalised;
    if n == 0 {
    } else {
      VectorIsSynthesis(e, s, uq, g, n - 1);
      assert uq[..n] == uq[..n - 1] + [uq[n - 1]];
      RunUnfold(SynOf(e), uq[..n - 1], uq[n - 1], g.f);
      EncStepsKeep(e, s, uq, Ppv(e, g), Ltfv(e, g), g, n - 1);
      var y := EncSteps(e, s, uq, Ppv(e, g), Ltfv(e, g), g, n - 1);
      PitchLocal(e.lt, y.lt, |e.lt| + n - 1 - g.f.pp, g.f.b);
    }
  }

  /** The excitation of the first vectors of a frame. */
  function VectorsOf(cb: Codebook, ids: seq<Id>): (us: seq<int16>)
    ensures |us| == 4 * |ids|
  {
    seq(4 * |ids|, k requires 0 <= k < 4 * |ids| => EncodedSample(cb, ids[k / 4], k % 4))
  }

  lemma VectorsSnoc(cb: Codebook, ids: seq<Id>, id: Id)
    ensures VectorsOf(cb, ids + [id]) == VectorsOf(cb, ids) + Vector(cb, id)
  {
    hide EncodedSample;
  }

  /** The whole frame: the memories of the analysis-by-synthesis encoder are those of
      synthesis from the indices it chose. */
  lemma {:induction false} FrameIsSynthesis(e: Enc, s: seq<int16>, cb: Codebook, g: Shaping, k: nat)
    requires EncFits(e) && FilterFits(g.f) && 4 * k <= |s|
    ensures var (y, ids) := EncVectors(e, s, cb, g, k);
            SynOf(y) == SynRun(SynOf(e), VectorsOf(cb, ids), g.f)
  {
    hide EncSteps, Chosen, SynRun, VectorsOf, Ppv, Ltfv, Vector;
    if k == 0 {
      NoVectors(cb, EncVectors(e, s, cb, g, 0).1, SynOf(e), g.f);
    } else {
      FrameIsSynthesis(e, s, cb, g, k - 1);
      var (y, ids) := EncVectors(e, s, cb, g, k - 1);
      var block := s[4 * (k - 1)..4 * k];
      var id := EncVector(y, block, cb, g).1;
      VectorIsSynthesis(y, block, Vector(cb, id), g, 4);
      assert Vector(cb, id)[..4] == Vector(cb, id);
      VectorsSnoc(cb, ids, id);
      SynRunConcat(SynOf(e), VectorsOf(cb, ids), Vector(cb, id), g.f);
    }
  }

  lemma NoVectors(cb: Codebook, ids: seq<Id>, x: Syn, f: Filter)
    requires ids == [] && SynFits(x) && FilterFits(f)
    ensures SynRun(x, VectorsOf(cb, ids), f) == x
  {
  }

  /** Encoder and decoder: from the indices the encoder chose the decoder synthesises the
      encoder's memories, exactly when no negated codebook entry it chose is -32768. */
  lemma QuantiserLockstep(e: Enc, s: seq<int16>, cb: Codebook, g: Shaping)
    requires EncFits(e) && FilterFits(g.f) && |s| == 40
    ensures var (y, ids) := EncVectors(e, s, cb, g, 10);
            && (Negatable(cb, ids) ==> SynOf(y) == SynRun(SynOf(e), Decoded(cb, ids), g.f))
            && (Encoded(cb, ids) == Decoded(cb, ids) <==> Negatable(cb, ids))
  {
    hide EncVectors, EncFits, SynRun, DecodedSample, EncodedSample, Negatable, FilterFits;
    FrameIsSynthesis(e, s, cb, g, 10);
    var ids := EncVectors(e, s, cb, g, 10).1;
    ExcitationAgrees(cb, ids);
    assert VectorsOf(cb, ids) == Encoded(cb, ids);
  }

  // ---------------------------------------------------------------- in place: responses

  /** The buffers hold the short-term memories after m samples of the frame. */
  ghost predicate ShortHeld(x: Short, m: nat, st: seq<int16>, z: seq<int16>, p: seq<int16>) {
    && m <= 40 && |st| == |z| == |p| == 48
    && st[..8 + m] == x.st && z[..8 + m] == x.z && p[..8 + m] == x.p
  }

  lemma {:induction false} NoiseLocal(z: seq<int16>, p: seq<int16>, z2: seq<int16>, p2: seq<int16>, at: nat, g: Shaping, k: nat)
    requires k <= 8 && |z| == |p| && at + 8 <= |z| <= |z2| && |p| <= |p2|
    requires z == z2[..|z|] && p == p2[..|p|]
    ensures NoiseSum(z, p, at, g, k) == NoiseSum(z2, p2, at, g, k)
  {
    hide LMac, LMsu;
    if k == 0 {
    } else {
      NoiseLocal(z, p, z2, p2, at, g, k - 1);
      assert z2[at + k - 1] == z2[..|z|][at + k - 1] && p2[at + k - 1] == p2[..|p|][at + k - 1];
    }
  }

  /** One sample, computed from the buffers and stored in them. */
  lemma ShortHeldNext(x: Short, m: nat, st: seq<int16>, z: seq<int16>, p: seq<int16>, s: int16, vq: int32, g: Shaping)
    requires ShortHeld(x, m, st, z, p) && m < 40
    ensures var a0, a1 := ShortPrediction(st, m, g.f.aq), Feedback(z, p, m, g);
            var v := Target(s, a0, a1);
            && ShortFits(x) && v == TargetOf(x, s, g)
            && ShortHeld(ShortStep(x, s, vq, g), m + 1, st[8 + m := Round(LAdd(a0, vq))],
                         z[8 + m := Round(LSub(v, vq))], p[8 + m := Round(a1)])
  {
    hide ShortSum, NoiseSum, LShl, LAdd, LSub, Round;
    ShortLocal(x.st, st, m, g.f.aq, 8);
    NoiseLocal(x.z, x.p, z, p, m, g, 8);
    var a0, a1 := ShortPrediction(st, m, g.f.aq), Feedback(z, p, m, g);
    var v := Target(s, a0, a1);
    var r0, r1, r2 := Round(LAdd(a0, vq)), Round(LSub(v, vq)), Round(a1);
    assert st[8 + m := r0][..9 + m] == st[..8 + m] + [r0];
    assert z[8 + m := r1][..9 + m] == z[..8 + m] + [r1];
    assert p[8 + m := r2][..9 + m] == p[..8 + m] + [r2];
  }

  method NoiseFilter(z: array<int16>, p: array<int16>, at: nat, g: Shaping) returns (a1: int32)
    requires at + 8 <= z.Length && at + 8 <= p.Length
    ensures a1 == Feedback(z[..], p[..], at, g)
  {
    hide LMac, LMsu;
    a1 := 0;
    var i := 8;
    while i > 0
      invariant 0 <= i <= 8
      invariant a1 == NoiseSum(z[..], p[..], at, g, 8 - i)
    {
      a1 := LMac(a1, z[at + 8 - i], g.fsz[i]);
      a1 := LMsu(a1, p[at + 8 - i], g.fsp[i]);
      i := i - 1;
    }
    a1 := LShl(a1, 3);
  }

  method StoreShort(buf1: array<int16>, buf2: array<int16>, buf3: array<int16>, m: nat, a0: int32, a1: int32, v: int32, vq: int32)
    requires m < 40 && buf1.Length == buf2.Length == buf3.Length == 48
    requires buf1 != buf2 && buf1 != buf3 && buf2 != buf3
    modifies buf1, buf2, buf3
    ensures buf1[..] == old(buf1[..])[8 + m := Round(LAdd(a0, vq))]
    ensures buf2[..] == old(buf2[..])[8 + m := Round(LSub(v, vq))]
    ensures buf3[..] == old(buf3[..])[8 + m := Round(a1)]
  {
    hide Round, LAdd, LSub;
    buf1[8 + m] := Round(LAdd(a0, vq));
    buf3[8 + m] := Round(a1);
    buf2[8 + m] := Round(LSub(v, vq));
  }

  lemma ZirRunNext(x: Short, s: Vec4, ppv: Longs4, ltfv: Longs4, g: Shaping, n: nat, y: Short, q: seq<int16>)
    requires ShortFits(x) && n < 4 && (y, q) == ZirRun(x, s, ppv, ltfv, g, n)
    ensures ZirRun(x, s, ppv, ltfv, g, n + 1)
            == (ShortStep(y, s[n], ppv[n], g), q + [ZirSample(y, s[n], ltfv[n], g)])
  {
    hide ShortStep, ZirSample;
  }

  lemma {:induction false} ZirRunKeeps(x: Short, s: Vec4, ppv: Longs4, ltfv: Longs4, g: Shaping, n: nat)
    requires ShortFits(x) && n <= 4
    ensures var y := ZirRun(x, s, ppv, ltfv, g, n).0;
            y.st[..|x.st|] == x.st && y.z[..|x.st|] == x.z && y.p[..|x.st|] == x.p
  {
    hide ZirSample, TargetOf, Feedback, ShortPrediction, Round, LAdd, LSub;
    if n == 0 {
    } else {
      ZirRunKeeps(x, s, ppv, ltfv, g, n - 1);
    }
  }

  /** vq2snfc_zir: runs the filters on zero excitation beyond the m samples done, and leaves
      those alone. */
  method ZeroInputResponse(buf1: array<int16>, buf2: array<int16>, buf3: array<int16>, m: nat, s: Vec4,
                           ppv: Longs4, ltfv: Longs4, g: Shaping, ghost x: Short) returns (qzir: Vec4)
    requires m + 4 <= 40 && buf1 != buf2 && buf1 != buf3 && buf2 != buf3
    requires ShortHeld(x, m, buf1[..], buf2[..], buf3[..]) && ShortFits(x)
    modifies buf1, buf2, buf3
    ensures ShortHeld(x, m, buf1[..], buf2[..], buf3[..])
    ensures qzir == ZirRun(x, s, ppv, ltfv, g, 4).1
  {
    hide ShortHeld, ShortFits, ShortStep, ZirRun, ShortPrediction, Feedback, TargetOf, Round, LAdd, LSub, LShl;
    HeldSizes(x, m, buf1[..], buf2[..], buf3[..]);
    var out: seq<int16> := [];
    ghost var y := x;
    ZirRunNone(x, s, ppv, ltfv, g, out);
    for n := 0 to 4
      invariant |out| == n && ShortFits(y) && ShortHeld(y, m + n, buf1[..], buf2[..], buf3[..])
      invariant (y, out) == ZirRun(x, s, ppv, ltfv, g, n)
    {
      HeldSizes(y, m + n, buf1[..], buf2[..], buf3[..]);
      ShortHeldNext(y, m + n, buf1[..], buf2[..], buf3[..], s[n], ppv[n], g);
      ZirRunNext(x, s, ppv, ltfv, g, n, y, out);
      var a0 := PredictShort(buf1, m + n, g.f.aq);
      var a1 := NoiseFilter(buf2, buf3, m + n, g);
      var a2 := Target(s[n], a0, a1);
      out := out + [Round(LShl(LSub(a2, ltfv[n]), SatSub16(g.f.exp, 3)))];
      StoreShort(buf1, buf2, buf3, m + n, a0, a1, a2, ppv[n]);
      y := ShortStep(y, s[n], ppv[n], g);
    }
    qzir := out;
    ZirRunKeeps(x, s, ppv, ltfv, g, 4);
    HeldPrefix(y, x, m, buf1[..], buf2[..], buf3[..]);
  }

  lemma HeldSizes(x: Short, m: nat, st: seq<int16>, z: seq<int16>, p: seq<int16>)
    requires ShortHeld(x, m, st, z, p)
    ensures ShortFits(x) && |x.st| == |x.z| == |x.p| == 8 + m && |st| == |z| == |p| == 48
  {
  }

  lemma HeldPrefix(y: Short, x: Short, m: nat, st: seq<int16>, z: seq<int16>, p: seq<int16>)
    requires ShortHeld(y, m + 4, st, z, p) && |x.st| == |x.z| == |x.p| == 8 + m
    requires y.st[..8 + m] == x.st && y.z[..8 + m] == x.z && y.p[..8 + m] == x.p
    ensures ShortHeld(x, m, st, z, p)
  {
    assert st[..12 + m][..8 + m] == st[..8 + m];
    assert z[..12 + m][..8 + m] == z[..8 + m];
    assert p[..12 + m][..8 + m] == p[..8 + m];
  }

  lemma ZirRunNone(x: Short, s: Vec4, ppv: Longs4, ltfv: Longs4, g: Shaping, q: seq<int16>)
    requires ShortFits(x) && q == []
    ensures (x, q) == ZirRun(x, s, ppv, ltfv, g, 0)
  {
  }

  /** vq2snfc_zsr_codebook */
  method ZeroStateResponses(cb: Codebook, g: Shaping) returns (qzsr: array<int16>)
    ensures fresh(qzsr) && qzsr.Length == 64 && qzsr[..] == Zsr(cb, g)
  {
    hide ZeroRun, LShl, LAdd, LShr, Round, Negate, DepositH;
    qzsr := new int16[64];
    for j := 0 to 16
      invariant forall k :: 0 <= k < 4 * j ==> qzsr[k] == ZeroRun(cb, k / 4, g, 4).out[k % 4]
    {
      var out := ZeroStateResponse(cb, j, g);
      for i := 0 to 4
        invariant forall k :: 0 <= k < 4 * j ==> qzsr[k] == ZeroRun(cb, k / 4, g, 4).out[k % 4]
        invariant forall k :: 0 <= k < i ==> qzsr[4 * j + k] == out[k]
      {
        qzsr[4 * j + i] := out[i];
      }
      forall k | 4 * j <= k < 4 * j + 4 ensures qzsr[k] == ZeroRun(cb, k / 4, g, 4).out[k % 4] {
        assert k == 4 * j + (k - 4 * j);
      }
    }
  }

  /** The loop over the elements of one codevector. */
  method ZeroStateResponse(cb: Codebook, j: nat, g: Shaping) returns (out: Vec4)
    requires j < 16
    ensures out == ZeroRun(cb, j, g, 4).out
  {
    hide ZeroShort, ZeroNoise, LShl, LAdd, LShr, Round, Negate, DepositH;
    var buf1: seq<int16>, buf2: seq<int16>, buf3: seq<int16>, qzsr: seq<int16> := [], [], [], [];
    for i := 0 to 4
      invariant |qzsr| == i && Zero(buf1, buf2, buf3, qzsr) == ZeroRun(cb, j, g, i)
    {
      var a0 := ZeroShortSum(buf1, g, i);
      a0 := LShl(a0, 3);
      a0 := LAdd(a0, DepositH(cb[4 * j + i]));
      var a1 := ZeroNoiseSum(buf2, buf3, g, i);
      a1 := LShl(a1, 3);
      buf1 := buf1 + [Round(a0)];
      buf3 := buf3 + [Round(a1)];
      a0 := LAdd(a0, a1);
      buf2 := buf2 + [Negate(Round(a0))];
      qzsr := qzsr + [Round(LShr(a0, 1))];
    }
    out := qzsr;
  }

  method ZeroShortSum(b1: seq<int16>, g: Shaping, i: nat) returns (a0: int32)
    requires |b1| == i < 4
    ensures a0 == ZeroShort(b1, g, i, i)
  {
    hide LMsu;
    a0 := 0;
    var n := i;
    while n > 0
      invariant 0 <= n <= i && a0 == ZeroShort(b1, g, i, i - n)
    {
      a0 := LMsu(a0, b1[i - n], g.f.aq[n]);
      n := n - 1;
    }
  }

  method ZeroNoiseSum(b2: seq<int16>, b3: seq<int16>, g: Shaping, i: nat) returns (a1: int32)
    requires |b2| == |b3| == i < 4
    ensures a1 == ZeroNoise(b2, b3, g, i, i)
  {
    hide LMsu, LMac;
    a1 := 0;
    var n := i;
    while n > 0
      invariant 0 <= n <= i && a1 == ZeroNoise(b2, b3, g, i, i - n)
    {
      a1 := LMac(a1, b2[i - n], g.fsz[n]);
      a1 := LMsu(a1, b3[i - n], g.fsp[n]);
      n := n - 1;
    }
  }

  // ---------------------------------------------------------------- in place: search

  method CandidateEnergy(qzsr: Codebook, qzir: Vec4, j: nat, negative: bool) returns (e: int32)
    requires j < 16
    ensures e == ErrorEnergy(qzsr, qzir, 2 * j + if negative then 1 else 0, 4) && e >= 0
  {
    hide Shl16, SatSub16, SatAdd16, LMac0;
    ghost var c := 2 * j + if negative then 1 else 0;
    e := 0;
    for n := 0 to 4
      invariant e == ErrorEnergy(qzsr, qzir, c, n)
    {
      var d := if negative then SatAdd16(Shl16(qzir[n], 2), qzsr[4 * j + n])
               else SatSub16(Shl16(qzir[n], 2), qzsr[4 * j + n]);
      assert d == ErrorAt(qzsr, qzir, c, n);
      SquareNat(d);
      e := LMac0(e, d, d);
    }
  }

  /** vq2snfc_vq: L_sub(E, Emin) < 0 is E < Emin, both being non-negative. */
  method SearchCodebook(qzsr: Codebook, qzir: Vec4) returns (jmin: nat, sign: int)
    ensures jmin < 16 && (sign == 1 || sign == -1)
    ensures 2 * jmin + (if sign == -1 then 1 else 0) == BestOf(qzsr, qzir, 32)
  {
    hide ErrorEnergy;
    var emin := MAX32;
    jmin, sign := 0, 1;
    for j := 0 to 16
      invariant jmin < 16 && (sign == 1 || sign == -1) && emin >= 0
      invariant j == 0 ==> emin == MAX32 && jmin == 0 && sign == 1
      invariant j > 0 ==> 2 * jmin + (if sign == -1 then 1 else 0) == BestOf(qzsr, qzir, 2 * j)
      invariant j > 0 ==> emin == ErrorEnergy(qzsr, qzir, BestOf(qzsr, qzir, 2 * j), 4)
    {
      var e := CandidateEnergy(qzsr, qzir, j, false);
      if LSub(e, emin) < 0 {
        jmin := j;
        emin := e;
        sign := 1;
      }
      assert j == 0 ==> emin == e;
      assert 2 * jmin + (if sign == -1 then 1 else 0) == BestOf(qzsr, qzir, 2 * j + 1);
      assert emin == ErrorEnergy(qzsr, qzir, BestOf(qzsr, qzir, 2 * j + 1), 4);
      e := CandidateEnergy(qzsr, qzir, j, true);
      if LSub(e, emin) < 0 {
        jmin := j;
        emin := e;
        sign := -1;
      }
      assert BestOf(qzsr, qzir, 2 * j + 2)
             == if e < ErrorEnergy(qzsr, qzir, BestOf(qzsr, qzir, 2 * j + 1), 4) then 2 * j + 1
                else BestOf(qzsr, qzir, 2 * j + 1);
    }
  }

  // ---------------------------------------------------------------- in place: memories

  /** The buffers hold the memories after n samples of the frame. */
  ghost predicate Held(e: Enc, n: nat, lt: seq<int16>, ltn: seq<int16>, st: seq<int16>, z: seq<int16>, p: seq<int16>) {
    && n <= 40 && |lt| == |ltn| == MAXPP1 + 40
    && lt[..MAXPP1 + n] == e.lt && ltn[..MAXPP1 + n] == e.ltn
    && ShortHeld(e.sh, n, st, z, p)
  }

  lemma HeldFits(e: Enc, n: nat, lt: seq<int16>, ltn: seq<int16>, st: seq<int16>, z: seq<int16>, p: seq<int16>)
    requires Held(e, n, lt, ltn, st, z, p)
    ensures EncFits(e) && |e.lt| == |e.ltn| == MAXPP1 + n && |e.sh.st| == 8 + n
    ensures |lt| == |ltn| == MAXPP1 + 40 && |st| == |z| == |p| == 48 && ShortHeld(e.sh, n, st, z, p)
  {
  }

  /** The buffers read ahead by the pitch predictor. */
  lemma HeldPredictions(e: Enc, m: nat, n: nat, lt: seq<int16>, ltn: seq<int16>, st: seq<int16>, z: seq<int16>, p: seq<int16>, g: Shaping)
    requires Held(e, m, lt, ltn, st, z, p) && m + 4 <= 40 && n < 4 && FilterFits(g.f)
    ensures EncFits(e)
    ensures var at := MAXPP1 + m + n - g.f.pp;
            && PpvAt(e, n, g) == PitchPrediction(lt, at, g.f.b)
            && LtfvAt(e, n, g) == LAdd(PpvAt(e, n, g), LShl(LMult(ltn[at], g.beta), 2))
  {
    hide PitchPrediction, LShl, LMult, LAdd, ShortHeld;
    HeldFits(e, m, lt, ltn, st, z, p);
    var at := MAXPP1 + m + n - g.f.pp;
    PitchLocal(e.lt, lt, at, g.f.b);
    assert ltn[at] == ltn[..MAXPP1 + m][at];
  }

  /** vq2snfc_ppv: the predictions of a whole vector from the buffers before it. */
  method PitchVectors(ltsym: array<int16>, ltnfm: array<int16>, m: nat, g: Shaping, ghost e: Enc,
                      ghost st: seq<int16>, ghost z: seq<int16>, ghost p: seq<int16>) returns (ltfv: Longs4, ppv: Longs4)
    requires Held(e, m, ltsym[..], ltnfm[..], st, z, p) && EncFits(e) && m + 4 <= 40 && FilterFits(g.f)
    ensures ppv == Ppv(e, g) && ltfv == Ltfv(e, g)
  {
    hide Held, EncFits, PitchPrediction, PpvAt, LtfvAt, LShl, LMult, LAdd;
    HeldFits(e, m, ltsym[..], ltnfm[..], st, z, p);
    var pv: seq<int32>, lv: seq<int32> := [], [];
    for n := 0 to 4
      invariant |pv| == n && |lv| == n
      invariant forall k :: 0 <= k < n ==> pv[k] == PpvAt(e, k, g) && lv[k] == LtfvAt(e, k, g)
    {
      HeldPredictions(e, m, n, ltsym[..], ltnfm[..], st, z, p, g);
      var at := MAXPP1 + m + n - g.f.pp;
      var a0: int32 := PredictPitch(ltsym, at, g.f.b);
      pv := pv + [a0];
      var a1: int32 := LMult(ltnfm[at], g.beta);
      a1 := LShl(a1, 2);
      lv := lv + [LAdd(a0, a1)];
    }
    ppv, ltfv := pv, lv;
  }

  /** One sample of the update, computed from the buffers and stored in them. */
  lemma HeldNext(e: Enc, n: nat, lt: seq<int16>, ltn: seq<int16>, st: seq<int16>, z: seq<int16>, p: seq<int16>,
                 s: int16, u: int16, ppv: int32, ltfv: int32, g: Shaping)
    requires Held(e, n, lt, ltn, st, z, p) && n < 40
    ensures var uq32 := Denormalised(u, g.f.exp);
            var vq := LAdd(ppv, uq32);
            var a0, a1 := ShortPrediction(st, n, g.f.aq), Feedback(z, p, n, g);
            var v := Target(s, a0, a1);
            && EncFits(e)
            && Held(EncStep(e, s, u, ppv, ltfv, g), n + 1, lt[MAXPP1 + n := Round(vq)],
                    ltn[MAXPP1 + n := Round(LSub(LSub(v, ltfv), uq32))],
                    st[8 + n := Round(LAdd(a0, vq))], z[8 + n := Round(LSub(v, vq))], p[8 + n := Round(a1)])
  {
    hide ShortHeld, ShortStep, ShortPrediction, Feedback, TargetOf, Round, LAdd, LSub, Denormalised;
    HeldFits(e, n, lt, ltn, st, z, p);
    var uq32 := Denormalised(u, g.f.exp);
    var vq := LAdd(ppv, uq32);
    ShortHeldNext(e.sh, n, st, z, p, s, vq, g);
    var r0, r1 := Round(vq), Round(LSub(LSub(TargetOf(e.sh, s, g), ltfv), uq32));
    assert lt[MAXPP1 + n := r0][..MAXPP1 + n + 1] == lt[..MAXPP1 + n] + [r0];
    assert ltn[MAXPP1 + n := r1][..MAXPP1 + n + 1] == ltn[..MAXPP1 + n] + [r1];
  }

  /** The five buffers of the encoder. */
  class Buffers {
    const ltsym: array<int16>
    const ltnfm: array<int16>
    const buf1: array<int16>
    const buf2: array<int16>
    const buf3: array<int16>

    ghost predicate Valid() {
      && ltsym.Length == ltnfm.Length == MAXPP1 + 40 && buf1.Length == buf2.Length == buf3.Length == 48
      && ltsym != ltnfm && ltsym != buf1 && ltsym != buf2 && ltsym != buf3
      && ltnfm != buf1 && ltnfm != buf2 && ltnfm != buf3
      && buf1 != buf2 && buf1 != buf3 && buf2 != buf3
    }

    ghost predicate Holds(e: Enc, n: nat)
      reads ltsym, ltnfm, buf1, buf2, buf3
    {
      Held(e, n, ltsym[..], ltnfm[..], buf1[..], buf2[..], buf3[..])
    }

    constructor (ltsym: array<int16>, ltnfm: array<int16>)
      requires ltsym.Length == ltnfm.Length == MAXPP1 + 40 && ltsym != ltnfm
      ensures Valid() && this.ltsym == ltsym && this.ltnfm == ltnfm && fresh(buf1) && fresh(buf2) && fresh(buf3)
    {
      this.ltsym, this.ltnfm := ltsym, ltnfm;
      buf1 := new int16[48];
      buf2 := new int16[48];
      buf3 := new int16[48];
    }

    /** One pass of the loop of vq2snfc_update_mem. */
    method UpdateSample(n: nat, s: int16, u: int16, ppv: int32, ltfv: int32, g: Shaping, ghost e: Enc)
      requires Valid() && Holds(e, n) && EncFits(e) && n < 40
      modifies ltsym, ltnfm, buf1, buf2, buf3
      ensures Holds(EncStep(e, s, u, ppv, ltfv, g), n + 1)
    {
      hide Held, EncFits, EncStep, ShortPrediction, Feedback, Target, Round, LAdd, LSub, Denormalised;
      HeldNext(e, n, ltsym[..], ltnfm[..], buf1[..], buf2[..], buf3[..], s, u, ppv, ltfv, g);
      var uq32 := Denormalised(u, g.f.exp);
      var vq := LAdd(ppv, uq32);
      var a0 := PredictShort(buf1, n, g.f.aq);
      var a1 := NoiseFilter(buf2, buf3, n, g);
      var v := Target(s, a0, a1);
      ltsym[MAXPP1 + n] := Round(vq);
      ltnfm[MAXPP1 + n] := Round(LSub(LSub(v, ltfv), uq32));
      StoreShort(buf1, buf2, buf3, n, a0, a1, v, vq);
    }

    /** vq2snfc_update_mem */
    method UpdateMem(m: nat, s: Vec4, uq: Vec4, ppv: Longs4, ltfv: Longs4, g: Shaping, ghost e: Enc)
      requires Valid() && Holds(e, m) && EncFits(e) && m + 4 <= 40
      modifies ltsym, ltnfm, buf1, buf2, buf3
      ensures Holds(EncSteps(e, s, uq, ppv, ltfv, g, 4), m + 4)
    {
      hide Held, EncFits, EncStep;
      for n := 0 to 4
        invariant Holds(EncSteps(e, s, uq, ppv, ltfv, g, n), m + n)
      {
        UpdateSample(m + n, s[n], uq[n], ppv[n], ltfv[n], g, EncSteps(e, s, uq, ppv, ltfv, g, n));
      }
    }

    /** One vector of the loop of excquan. */
    method QuantiseVector(m: nat, s: Vec4, cb: Codebook, qzsr: Codebook, g: Shaping, ghost e: Enc) returns (id: Id)
      requires Valid() && Holds(e, m) && EncFits(e) && m + 4 <= 40 && FilterFits(g.f) && qzsr == Zsr(cb, g)
      modifies ltsym, ltnfm, buf1, buf2, buf3
      ensures id == EncVector(e, s, cb, g).1 && Holds(EncVector(e, s, cb, g).0, m + 4)
    {
      hide Held, EncFits, EncSteps, ZirRun, BestOf, Zsr, Ppv, Ltfv, EncodedSample, ShortHeld, ShortFits;
      HeldFits(e, m, ltsym[..], ltnfm[..], buf1[..], buf2[..], buf3[..]);
      var ltfv, ppv := PitchVectors(ltsym, ltnfm, m, g, e, buf1[..], buf2[..], buf3[..]);
      var qzir := ZeroInputResponse(buf1, buf2, buf3, m, s, ppv, ltfv, g, e.sh);
      HeldAgain(e, m, ltsym[..], ltnfm[..], old(buf1[..]), old(buf2[..]), old(buf3[..]), buf1[..], buf2[..], buf3[..]);
      var jmin, sign := SearchCodebook(qzsr, qzir);
      id := if sign == -1 then jmin + 16 else jmin;
      var uq := Signed(cb, jmin, sign);
      UpdateMem(m, s, uq, ppv, ltfv, g, e);
    }
  }

  lemma HeldAgain(e: Enc, n: nat, lt: seq<int16>, ltn: seq<int16>, st: seq<int16>, z: seq<int16>, p: seq<int16>,
                  st2: seq<int16>, z2: seq<int16>, p2: seq<int16>)
    requires Held(e, n, lt, ltn, st, z, p) && ShortHeld(e.sh, n, st2, z2, p2)
    ensures Held(e, n, lt, ltn, st2, z2, p2)
  {
  }

  /** uq[n] = sign * cb[jmin * VDIM + n] */
  method Signed(cb: Codebook, jmin: nat, sign: int) returns (uq: Vec4)
    requires jmin < 16 && (sign == 1 || sign == -1)
    ensures uq == Vector(cb, if sign == -1 then jmin + 16 else jmin)
  {
    var v: seq<int16> := [];
    for n := 0 to 4
      invariant |v| == n
      invariant forall k :: 0 <= k < n ==> v[k] == EncodedSample(cb, if sign == -1 then jmin + 16 else jmin, k)
    {
      var c: int := cb[4 * jmin + n];
      v := v + [Wrap16(if sign == -1 then -c else c)];
    }
    uq := v;
  }

  /** The memories and indices after a frame. */
  ghost predicate Quantised(e: Enc, s: seq<int16>, cb: Codebook, g: Shaping, idx: seq<Id>, y: Enc)
    requires EncFits(e) && FilterFits(g.f) && |s| == 40
  {
    (y, idx) == EncVectors(e, s, cb, g, 10)
  }

  /** The short-term memories kept for the next frame. */
  function LastEight(x: Short): Short
    requires |x.st| == |x.z| == |x.p| == 48
  {
    Short(x.st[40..], x.z[40..], x.p[40..])
  }

  method CopyIn(dst: array<int16>, src: array<int16>)
    requires dst.Length == 48 && src.Length == 8 && dst != src
    modifies dst
    ensures dst[..8] == src[..]
  {
    forall i | 0 <= i < 8 {
      dst[i] := src[i];
    }
  }

  method CopyOut(dst: array<int16>, src: array<int16>)
    requires dst.Length == 8 && src.Length == 48 && dst != src
    modifies dst
    ensures dst[..] == src[40..]
  {
    forall i | 0 <= i < 8 {
      dst[i] := src[40 + i];
    }
  }

  /** The loop of excquan over the ten vectors. */
  method QuantiseFrame(b: Buffers, s: seq<int16>, cb: Codebook, g: Shaping, ghost e: Enc) returns (idx: Indices, ghost y: Enc)
    requires |s| == 40 && FilterFits(g.f) && b.Valid() && EncFits(e) && b.Holds(e, 0)
    modifies b.ltsym, b.ltnfm, b.buf1, b.buf2, b.buf3
    ensures Quantised(e, s, cb, g, idx, y) && b.Holds(y, 40)
  {
    hide EncFits, Held, EncVector, Zsr;
    y := e;
    var qzsr := ZeroStateResponses(cb, g);
    var ids: seq<Id> := [];
    for k := 0 to 10
      invariant EncFits(y) && b.Holds(y, 4 * k) && (y, ids) == EncVectors(e, s, cb, g, k)
      invariant qzsr[..] == Zsr(cb, g)
      modifies b.ltsym, b.ltnfm, b.buf1, b.buf2, b.buf3
    {
      var block: Vec4 := s[4 * k..4 * (k + 1)];
      var id := b.QuantiseVector(4 * k, block, cb, qzsr[..], g, y);
      y := EncVector(y, block, cb, g).0;
      ids := ids + [id];
    }
    idx := ids;
  }

  /** excquan */
  method ExcQuan(s: seq<int16>, cb: Codebook, g: Shaping, ltsym: array<int16>, ltnfm: array<int16>,
                 stsym: array<int16>, stnfz: array<int16>, stnfp: array<int16>) returns (idx: Indices, ghost y: Enc)
    requires |s| == 40 && FilterFits(g.f)
    requires ltsym.Length == ltnfm.Length == MAXPP1 + 40 && stsym.Length == stnfz.Length == stnfp.Length == 8
    requires ltsym != ltnfm && stsym != stnfz && stsym != stnfp && stnfz != stnfp
    requires stsym != ltsym && stsym != ltnfm && stnfz != ltsym && stnfz != ltnfm && stnfp != ltsym && stnfp != ltnfm
    modifies ltsym, ltnfm, stsym, stnfz, stnfp
    ensures Quantised(Enc(old(ltsym[..MAXPP1]), old(ltnfm[..MAXPP1]), Short(old(stsym[..]), old(stnfz[..]), old(stnfp[..]))),
                      s, cb, g, idx, y)
    ensures ltsym[..] == y.lt && ltnfm[..] == y.ltn && |y.sh.st| == |y.sh.z| == |y.sh.p| == 48
    ensures Short(stsym[..], stnfz[..], stnfp[..]) == LastEight(y.sh)
  {
    hide EncFits, Held, Quantised;
    var b := new Buffers(ltsym, ltnfm);
    CopyIn(b.buf1, stsym);
    CopyIn(b.buf2, stnfz);
    CopyIn(b.buf3, stnfp);
    ghost var e := Enc(ltsym[..MAXPP1], ltnfm[..MAXPP1], Short(stsym[..], stnfz[..], stnfp[..]));
    HeldFirst(e, b);
    idx, y := QuantiseFrame(b, s, cb, g, e);
    HeldLast(y, b);
    CopyOut(stsym, b.buf1);
    CopyOut(stnfz, b.buf2);
    CopyOut(stnfp, b.buf3);
  }

  lemma HeldFirst(e: Enc, b: Buffers)
    requires b.Valid() && |e.lt| == |e.ltn| == MAXPP1 && |e.sh.st| == |e.sh.z| == |e.sh.p| == 8
    requires b.ltsym[..MAXPP1] == e.lt && b.ltnfm[..MAXPP1] == e.ltn
    requires b.buf1[..8] == e.sh.st && b.buf2[..8] == e.sh.z && b.buf3[..8] == e.sh.p
    ensures EncFits(e) && b.Holds(e, 0)
  {
  }

  lemma HeldLast(y: Enc, b: Buffers)
    requires b.Valid() && b.Holds(y, 40)
    ensures b.ltsym[..] == y.lt && b.ltnfm[..] == y.ltn
    ensures b.buf1[..] == y.sh.st && b.buf2[..] == y.sh.z && b.buf3[..] == y.sh.p
  {
    assert b.ltsym[..MAXPP1 + 40] == b.ltsym[..] && b.ltnfm[..MAXPP1 + 40] == b.ltnfm[..];
    assert b.buf1[..48] == b.buf1[..] && b.buf2[..48] == b.buf2[..] && b.buf3[..48] == b.buf3[..];
  }
}
