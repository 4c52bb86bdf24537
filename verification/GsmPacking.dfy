/** The three frame formats of the GSM 06.10 codec: one parameter a byte, 33 byte frames
    (section 4.5.8 of RFC 3551), and the 65 byte pairs of frames of WAV #49. */
module GsmPacking {
  import opened FixedPoint
  import opened Bits
  import opened GsmShortTerm
  import opened GsmRpe

  /** The parameters of one sub-segment. */
  datatype SubFrame = SubFrame(nc: int16, bc: int16, p: Excitation)

  type SubFrames = s: seq<SubFrame> | |s| == 4 witness seq(4, _ => SubFrame(0, 0, Excitation(0, 0, seq(13, _ => 0))))

  /** gsm0610_frame_t */
  datatype Frame = Frame(larc: Vec8, subs: SubFrames)

  ghost predicate LarsFit(larc: Vec8) {
    && 0 <= larc[0] < 64 && 0 <= larc[1] < 64 && 0 <= larc[2] < 32 && 0 <= larc[3] < 32
    && 0 <= larc[4] < 16 && 0 <= larc[5] < 16 && 0 <= larc[6] < 8 && 0 <= larc[7] < 8
  }

  ghost predicate SubFits(s: SubFrame) {
    0 <= s.nc < 128 && 0 <= s.bc < 4 && ExcitationFits(s.p)
  }

  /** Every parameter fits the bits the formats give it. */
  ghost predicate FrameFits(f: Frame) {
    LarsFit(f.larc) && forall i :: 0 <= i < 4 ==> SubFits(f.subs[i])
  }

  /** What the decoder needs of a sub-segment: its tables and shifts are indexed by these
      parameters, while any lag and any log area ratio will do. */
  ghost predicate SubDecodes(s: SubFrame) {
    0 <= s.bc < 4 && ExcitationFits(s.p)
  }

  ghost predicate FrameDecodes(f: Frame) {
    forall i :: 0 <= i < 4 ==> SubDecodes(f.subs[i])
  }

  lemma FittingDecodes(f: Frame)
    requires FrameFits(f)
    ensures FrameDecodes(f)
  {
  }

  function LarFields(c: Vec8): (fs: seq<Field>)
    requires LarsFit(c)
  {
    [Field(c[0], 6), Field(c[1], 6), Field(c[2], 5), Field(c[3], 5),
     Field(c[4], 4), Field(c[5], 4), Field(c[6], 3), Field(c[7], 3)]
  }

  function HeadFields(s: SubFrame): (fs: seq<Field>)
    requires SubFits(s)
    ensures |fs| == 5
  {
    [Field(s.nc, 7), Field(s.bc, 2), Field(s.p.mc, 2), Field(s.p.xmaxc, 6), Field(s.p.xMc[0], 3)]
  }

  /** Six pulses from pulse k on. */
  function PulseFields(s: SubFrame, k: nat): (fs: seq<Field>)
    requires SubFits(s) && k + 6 <= 13
    ensures |fs| == 6
  {
    [Field(s.p.xMc[k], 3), Field(s.p.xMc[k + 1], 3), Field(s.p.xMc[k + 2], 3),
     Field(s.p.xMc[k + 3], 3), Field(s.p.xMc[k + 4], 3), Field(s.p.xMc[k + 5], 3)]
  }

  function SubFields(s: SubFrame): (fs: seq<Field>)
    requires SubFits(s)
    ensures |fs| == 17
  {
    HeadFields(s) + PulseFields(s, 1) + PulseFields(s, 7)
  }

  /** The fields of the first n sub-segments. */
  function SubsFields(subs: seq<SubFrame>, n: nat): (fs: seq<Field>)
    requires n <= |subs| && forall i :: 0 <= i < n ==> SubFits(subs[i])
    ensures |fs| == 17 * n
  {
    if n == 0 then [] else SubsFields(subs, n - 1) + SubFields(subs[n - 1])
  }

  /** The fields of a longer list begin with those of the shorter. */
  lemma {:induction false} SubsFieldsSnoc(subs: seq<SubFrame>, s: SubFrame, n: nat)
    requires n <= |subs| && forall i :: 0 <= i < n ==> SubFits(subs[i])
    ensures SubsFields(subs + [s], n) == SubsFields(subs, n)
  {
    hide SubFits, SubFields;
    if n == 0 {
    } else {
      SubsFieldsSnoc(subs, s, n - 1);
    }
  }

  /** All 76 parameters, in the order both bit formats send them. */
  function FrameFields(f: Frame): (fs: seq<Field>)
    requires FrameFits(f)
    ensures |fs| == 76
  {
    LarFields(f.larc) + SubsFields(f.subs, 4)
  }

  lemma SubFieldsFit(s: SubFrame)
    requires SubFits(s)
    ensures Fits(SubFields(s))
  {
    hide Pow2;
    Pow2Table();
  }

  lemma LarFieldsFit(c: Vec8)
    requires LarsFit(c)
    ensures Fits(LarFields(c))
  {
    hide Pow2;
    Pow2Table();
  }

  lemma {:induction false} SubsFieldsFit(subs: SubFrames, n: nat)
    requires n <= 4 && forall i :: 0 <= i < n ==> SubFits(subs[i])
    ensures Fits(SubsFields(subs, n))
  {
    hide SubFields, SubFits;
    if n == 0 {
    } else {
      SubsFieldsFit(subs, n - 1);
      SubFieldsFit(subs[n - 1]);
    }
  }

  lemma FrameFieldsFit(f: Frame)
    requires FrameFits(f)
    ensures Fits(FrameFields(f))
  {
    hide LarFields, SubsFields;
    LarFieldsFit(f.larc);
    SubsFieldsFit(f.subs, 4);
  }

  // ---------------------------------------------------------------- frames from fields

  lemma SubDetermined(a: SubFrame, b: SubFrame)
    requires SubFits(a) && SubFits(b) && SubFields(a) == SubFields(b)
    ensures a == b
  {
    var fa, fb := SubFields(a), SubFields(b);
    assert fa[..5] == HeadFields(a) && fb[..5] == HeadFields(b);
    assert fa[5..11] == PulseFields(a, 1) && fb[5..11] == PulseFields(b, 1);
    assert fa[11..] == PulseFields(a, 7) && fb[11..] == PulseFields(b, 7);
    HeadDetermined(a, b);
    PulsesDetermined(a, b, 1);
    PulsesDetermined(a, b, 7);
    assert a.p.xMc == b.p.xMc;
  }

  lemma HeadDetermined(a: SubFrame, b: SubFrame)
    requires SubFits(a) && SubFits(b) && HeadFields(a) == HeadFields(b)
    ensures a.nc == b.nc && a.bc == b.bc && a.p.mc == b.p.mc && a.p.xmaxc == b.p.xmaxc
    ensures a.p.xMc[0] == b.p.xMc[0]
  {
    var fa, fb := HeadFields(a), HeadFields(b);
    assert fa[0] == fb[0] && fa[1] == fb[1] && fa[2] == fb[2] && fa[3] == fb[3] && fa[4] == fb[4];
  }

  lemma PulsesDetermined(a: SubFrame, b: SubFrame, k: nat)
    requires SubFits(a) && SubFits(b) && k + 6 <= 13 && PulseFields(a, k) == PulseFields(b, k)
    ensures forall i :: k <= i < k + 6 ==> a.p.xMc[i] == b.p.xMc[i]
  {
    var fa, fb := PulseFields(a, k), PulseFields(b, k);
    forall i | k <= i < k + 6 ensures a.p.xMc[i] == b.p.xMc[i] {
      assert fa[i - k].v == a.p.xMc[i] && fb[i - k].v == b.p.xMc[i];
    }
  }

  lemma LarsDetermined(a: Vec8, b: Vec8)
    requires LarsFit(a) && LarsFit(b) && LarFields(a) == LarFields(b)
    ensures a == b
  {
    var fa, fb := LarFields(a), LarFields(b);
    forall i | 0 <= i < 8 ensures a[i] == b[i] {
      assert fa[i].v == a[i] && fb[i].v == b[i];
    }
  }

  lemma {:induction false} SubsDetermined(a: SubFrames, b: SubFrames, n: nat)
    requires n <= 4
    requires forall i :: 0 <= i < 4 ==> SubFits(a[i]) && SubFits(b[i])
    requires SubsFields(a, n) == SubsFields(b, n)
    ensures a[..n] == b[..n]
  {
    hide SubFits;
    if n == 0 {
    } else {
      var m := 17 * (n - 1);
      assert SubsFields(a, n)[..m] == SubsFields(a, n - 1);
      assert SubsFields(b, n)[..m] == SubsFields(b, n - 1);
      assert SubsFields(a, n)[m..] == SubFields(a[n - 1]);
      assert SubsFields(b, n)[m..] == SubFields(b[n - 1]);
      SubsDetermined(a, b, n - 1);
      SubDetermined(a[n - 1], b[n - 1]);
    }
  }

  /** A frame is determined by its fields. */
  lemma FrameDetermined(a: Frame, b: Frame)
    requires FrameFits(a) && FrameFits(b) && FrameFields(a) == FrameFields(b)
    ensures a == b
  {
    hide SubsFields, LarsFit, SubFits;
    assert FrameFields(a)[..8] == LarFields(a.larc) && FrameFields(b)[..8] == LarFields(b.larc);
    assert FrameFields(a)[8..] == SubsFields(a.subs, 4) && FrameFields(b)[8..] == SubsFields(b.subs, 4);
    LarsDetermined(a.larc, b.larc);
    SubsDetermined(a.subs, b.subs, 4);
    assert a.subs == a.subs[..4] && b.subs == b.subs[..4];
  }

  lemma {:induction false} SubsShape(a: SubFrames, b: SubFrames, n: nat)
    requires n <= 4
    requires forall i :: 0 <= i < 4 ==> SubFits(a[i]) && SubFits(b[i])
    ensures SameShape(SubsFields(a, n), SubsFields(b, n))
  {
    hide SubFits;
    if n == 0 {
    } else {
      SubsShape(a, b, n - 1);
    }
  }

  lemma FrameShape(a: Frame, b: Frame)
    requires FrameFits(a) && FrameFits(b)
    ensures SameShape(FrameFields(a), FrameFields(b))
  {
    hide SubsFields, SubFits;
    SubsShape(a.subs, b.subs, 4);
  }

  // ---------------------------------------------------------------- WAV #49, packing

  /** The packer of WAV #49: a 16 bit register that new fields enter from the top and bytes
      leave once eight pending bits have collected. */
  class Wav49Writer {
    var sr: nat
    var code: seq<byte>
    ghost var fields: seq<Field>
    ghost var pending: nat

    ghost predicate Valid()
      reads this
    {
      TopRegister(sr, pending, fields, code)
    }

    constructor ()
      ensures Valid() && code == [] && fields == [] && pending == 0
    {
      sr, code, fields, pending := 0, [], [], 0;
      new;
      EmptyTop();
    }

    /** sr = (sr >> w) | (f << top) */
    method Put(f: nat, w: nat, top: nat)
      requires Valid() && f < Pow2(w) && w + top == 16 && pending + w <= 16
      modifies this
      ensures Valid()
      ensures fields == old(fields) + [Field(f, w)] && code == old(code) && pending == old(pending) + w
    {
      hide TopRegister, Pow2, BitOr, Shl, Shr;
      TopKeeps(sr, pending, fields, code, f, w);
      sr := BitOr(Shr(sr, w), Shl(f, top));
      fields := fields + [Field(f, w)];
      pending := pending + w;
    }

    /** *c++ = (uint8_t) (sr >> shift) */
    method Emit(shift: nat)
      requires Valid() && shift + pending == 16 && pending >= 8
      modifies this
      ensures Valid()
      ensures fields == old(fields) && |code| == |old(code)| + 1 && pending == old(pending) - 8
    {
      hide TopRegister, Pow2, Shr;
      EmitKeeps(sr, pending, fields, code);
      var b: byte := Shr(sr, shift) % 0x100;
      code := code + [b];
      pending := pending - 8;
    }
  }

  /** The bytes written so far and the p top bits of the 16 bit register are the fields put
      so far. */
  ghost predicate TopRegister(sr: nat, p: nat, fields: seq<Field>, code: seq<byte>) {
    && sr < Pow2(16)
    && p <= 16
    && Width(fields) == 8 * |code| + p
    && LsbValue(fields) == LsbValue(Bytes(code)) + Shl(Shr(sr, 16 - p), 8 * |code|)
  }

  lemma EmptyTop()
    ensures TopRegister(0, 0, [], [])
  {
    hide Shl, Shr, Pow2;
    ShrZero(16);
    ShlZero(0);
  }

  lemma TopKeeps(sr: nat, p: nat, fields: seq<Field>, code: seq<byte>, f: nat, w: nat)
    requires TopRegister(sr, p, fields, code) && f < Pow2(w) && p + w <= 16
    ensures TopRegister(BitOr(Shr(sr, w), Shl(f, 16 - w)), p + w, fields + [Field(f, w)], code)
  {
    hide Pow2, Width, LsbValue, BitOr, Bytes, Shl, Shr;
    ValueSnoc(fields, Field(f, w));
    PutBits(sr, f, w, p);
    ShlAdd(Shr(sr, 16 - p), Shl(f, p), 8 * |code|);
    ShlShl(f, p, 8 * |code|);
  }

  lemma EmitKeeps(sr: nat, p: nat, fields: seq<Field>, code: seq<byte>)
    requires TopRegister(sr, p, fields, code) && p >= 8
    ensures TopRegister(sr, p - 8, fields, code + [Shr(sr, 16 - p) % 0x100])
  {
    hide Pow2, Width, LsbValue, Bytes, Shl, Shr;
    var t := Shr(sr, 16 - p);
    var b: byte := t % 0x100;
    BytesSnoc(code, b);
    BytesWidth(code);
    ValueSnoc(Bytes(code), Field(b, 8));
    ShrShr(sr, 16 - p, 8);
    ByteSplit(t);
    ShlAdd(b, Shl(t / 0x100, 8), 8 * |code|);
    ShlShl(t / 0x100, 8, 8 * |code|);
  }

  /** The low byte of a number and the rest. */
  lemma ByteSplit(t: nat)
    ensures Shr(t, 8) == t / 0x100 && Shl(t / 0x100, 8) == 0x100 * (t / 0x100)
    ensures t == t % 0x100 + Shl(t / 0x100, 8)
  {
    ShlTable(t / 0x100);
    ShrTable(t);
  }

  /** What entering a field does to the register: the pending bits move down and the field
      lands above them. */
  lemma PutBits(sr: nat, f: nat, w: nat, p: nat)
    requires sr < Pow2(16) && f < Pow2(w) && p + w <= 16
    ensures var sr' := BitOr(Shr(sr, w), Shl(f, 16 - w));
            && sr' < Pow2(16)
            && Shr(sr', 16 - (p + w)) == Shr(sr, 16 - p) + Shl(f, p)
  {
    hide BitOr, Pow2, Shl, Shr;
    ShrBound(sr, w, 16 - w);
    OrAbove(Shr(sr, w), f, 16 - w);
    JoinBound(Shr(sr, w), f, 16 - w, w);
    ShlShl(f, p, 16 - (p + w));
    ShrAdd(Shr(sr, w), Shl(f, p), 16 - (p + w));
    ShrShr(sr, w, 16 - (p + w));
  }

  /** The log area ratios of the first frame. */
  method PackLars0(f: Frame, w: Wav49Writer)
    requires w.Valid() && w.pending == 0 && LarsFit(f.larc)
    modifies w
    ensures w.Valid() && w.pending == 4 && |w.code| == |old(w.code)| + 4
    ensures w.fields == old(w.fields) + LarFields(f.larc)
  {
    hide Pow2, TopRegister;
    Pow2Table();
    w.Put(f.larc[0], 6, 10);
    w.Put(f.larc[1], 6, 10);
    w.Emit(4);
    w.Put(f.larc[2], 5, 11);
    w.Emit(7);
    w.Put(f.larc[3], 5, 11);
    w.Put(f.larc[4], 4, 12);
    w.Emit(6);
    w.Put(f.larc[5], 4, 12);
    w.Put(f.larc[6], 3, 13);
    w.Emit(7);
    w.Put(f.larc[7], 3, 13);
  }

  /** A sub-segment of the first frame: lag, gain, grid, maximum and first pulse. */
  method PackHead0(sub: SubFrame, w: Wav49Writer)
    requires w.Valid() && w.pending == 4 && SubFits(sub)
    modifies w
    ensures w.Valid() && w.pending == 8 && |w.code| == |old(w.code)| + 2
    ensures w.fields == old(w.fields) + HeadFields(sub)
  {
    hide Pow2, TopRegister;
    Pow2Table();
    w.Put(sub.nc, 7, 9);
    w.Emit(5);
    w.Put(sub.bc, 2, 14);
    w.Put(sub.p.mc, 2, 14);
    w.Put(sub.p.xmaxc, 6, 10);
    w.Emit(3);
    w.Put(sub.p.xMc[0], 3, 13);
  }

  /** A sub-segment of the first frame: pulses 1 to 6. */
  method PackPulses10(sub: SubFrame, w: Wav49Writer)
    requires w.Valid() && w.pending == 8 && SubFits(sub)
    modifies w
    ensures w.Valid() && w.pending == 10 && |w.code| == |old(w.code)| + 2
    ensures w.fields == old(w.fields) + PulseFields(sub, 1)
  {
    hide Pow2, TopRegister;
    Pow2Table();
    w.Emit(8);
    w.Put(sub.p.xMc[1], 3, 13);
    w.Put(sub.p.xMc[2], 3, 13);
    w.Put(sub.p.xMc[3], 3, 13);
    w.Emit(7);
    w.Put(sub.p.xMc[4], 3, 13);
    w.Put(sub.p.xMc[5], 3, 13);
    w.Put(sub.p.xMc[6], 3, 13);
  }

  /** A sub-segment of the first frame: pulses 7 to 12. */
  method PackPulses70(sub: SubFrame, w: Wav49Writer)
    requires w.Valid() && w.pending == 10 && SubFits(sub)
    modifies w
    ensures w.Valid() && w.pending == 4 && |w.code| == |old(w.code)| + 3
    ensures w.fields == old(w.fields) + PulseFields(sub, 7)
  {
    hide Pow2, TopRegister;
    Pow2Table();
    w.Emit(6);
    w.Put(sub.p.xMc[7], 3, 13);
    w.Put(sub.p.xMc[8], 3, 13);
    w.Emit(8);
    w.Put(sub.p.xMc[9], 3, 13);
    w.Put(sub.p.xMc[10], 3, 13);
    w.Put(sub.p.xMc[11], 3, 13);
    w.Emit(7);
    w.Put(sub.p.xMc[12], 3, 13);
  }

  /** A sub-segment of the first frame. */
  method PackSub0(sub: SubFrame, w: Wav49Writer)
    requires w.Valid() && w.pending == 4 && SubFits(sub)
    modifies w
    ensures w.Valid() && w.pending == 4 && |w.code| == |old(w.code)| + 7
    ensures w.fields == old(w.fields) + SubFields(sub)
  {
    hide SubFits, HeadFields, PulseFields;
    PackHead0(sub, w);
    PackPulses10(sub, w);
    PackPulses70(sub, w);
  }

  /** The log area ratios of the second frame. */
  method PackLars1(f: Frame, w: Wav49Writer)
    requires w.Valid() && w.pending == 4 && LarsFit(f.larc)
    modifies w
    ensures w.Valid() && w.pending == 0 && |w.code| == |old(w.code)| + 5
    ensures w.fields == old(w.fields) + LarFields(f.larc)
  {
    hide Pow2, TopRegister;
    Pow2Table();
    w.Put(f.larc[0], 6, 10);
    w.Emit(6);
    w.Put(f.larc[1], 6, 10);
    w.Emit(8);
    w.Put(f.larc[2], 5, 11);
    w.Put(f.larc[3], 5, 11);
    w.Emit(6);
    w.Put(f.larc[4], 4, 12);
    w.Put(f.larc[5], 4, 12);
    w.Emit(6);
    w.Put(f.larc[6], 3, 13);
    w.Put(f.larc[7], 3, 13);
    w.Emit(8);
  }

  /** A sub-segment of the second frame: lag, gain, grid, maximum and first pulse. */
  method PackHead1(sub: SubFrame, w: Wav49Writer)
    requires w.Valid() && w.pending == 0 && SubFits(sub)
    modifies w
    ensures w.Valid() && w.pending == 4 && |w.code| == |old(w.code)| + 2
    ensures w.fields == old(w.fields) + HeadFields(sub)
  {
    hide Pow2, TopRegister;
    Pow2Table();
    w.Put(sub.nc, 7, 9);
    w.Put(sub.bc, 2, 14);
    w.Emit(7);
    w.Put(sub.p.mc, 2, 14);
    w.Put(sub.p.xmaxc, 6, 10);
    w.Emit(7);
    w.Put(sub.p.xMc[0], 3, 13);
  }

  /** A sub-segment of the second frame: pulses 1 to 6. */
  method PackPulses11(sub: SubFrame, w: Wav49Writer)
    requires w.Valid() && w.pending == 4 && SubFits(sub)
    modifies w
    ensures w.Valid() && w.pending == 6 && |w.code| == |old(w.code)| + 2
    ensures w.fields == old(w.fields) + PulseFields(sub, 1)
  {
    hide Pow2, TopRegister;
    Pow2Table();
    w.Put(sub.p.xMc[1], 3, 13);
    w.Put(sub.p.xMc[2], 3, 13);
    w.Emit(6);
    w.Put(sub.p.xMc[3], 3, 13);
    w.Put(sub.p.xMc[4], 3, 13);
    w.Emit(8);
    w.Put(sub.p.xMc[5], 3, 13);
    w.Put(sub.p.xMc[6], 3, 13);
  }

  /** A sub-segment of the second frame: pulses 7 to 12. */
  method PackPulses71(sub: SubFrame, w: Wav49Writer)
    requires w.Valid() && w.pending == 6 && SubFits(sub)
    modifies w
    ensures w.Valid() && w.pending == 0 && |w.code| == |old(w.code)| + 3
    ensures w.fields == old(w.fields) + PulseFields(sub, 7)
  {
    hide Pow2, TopRegister;
    Pow2Table();
    w.Put(sub.p.xMc[7], 3, 13);
    w.Emit(7);
    w.Put(sub.p.xMc[8], 3, 13);
    w.Put(sub.p.xMc[9], 3, 13);
    w.Put(sub.p.xMc[10], 3, 13);
    w.Emit(6);
    w.Put(sub.p.xMc[11], 3, 13);
    w.Put(sub.p.xMc[12], 3, 13);
    w.Emit(8);
  }

  /** A sub-segment of the second frame. */
  method PackSub1(sub: SubFrame, w: Wav49Writer)
    requires w.Valid() && w.pending == 0 && SubFits(sub)
    modifies w
    ensures w.Valid() && w.pending == 0 && |w.code| == |old(w.code)| + 7
    ensures w.fields == old(w.fields) + SubFields(sub)
  {
    hide SubFits, HeadFields, PulseFields;
    PackHead1(sub, w);
    PackPulses11(sub, w);
    PackPulses71(sub, w);
  }

  /** code carries the two frames as the least significant bit first concatenation of
      their 152 fields. */
  ghost predicate IsWav49(code: seq<byte>, f0: Frame, f1: Frame) {
    && |code| == 65 && FrameFits(f0) && FrameFits(f1)
    && LsbValue(Bytes(code)) == LsbValue(FrameFields(f0) + FrameFields(f1))
  }

  method PackFrame(f: Frame, w: Wav49Writer, second: bool)
    requires w.Valid() && w.pending == (if second then 4 else 0) && FrameFits(f)
    modifies w
    ensures w.Valid() && w.pending == (if second then 0 else 4)
    ensures |w.code| == |old(w.code)| + (if second then 33 else 32)
    ensures w.fields == old(w.fields) + FrameFields(f)
  {
    hide LarFields, SubFields, LarsFit, SubFits, TopRegister;
    ghost var start := w.fields;
    if second {
      PackLars1(f, w);
    } else {
      PackLars0(f, w);
    }
    ghost var lars := w.fields;
    ghost var n := |w.code|;
    for i := 0 to 4
      invariant w.Valid() && w.pending == (if second then 0 else 4)
      invariant |w.code| == n + 7 * i
      invariant w.fields == lars + SubsFields(f.subs, i)
    {
      if second {
        PackSub1(f.subs[i], w);
      } else {
        PackSub0(f.subs[i], w);
      }
    }
    assert w.fields == start + (LarFields(f.larc) + SubsFields(f.subs, 4));
  }

  method PackWav49(f0: Frame, f1: Frame) returns (code: seq<byte>)
    requires FrameFits(f0) && FrameFits(f1)
    ensures IsWav49(code, f0, f1)
  {
    hide FrameFields, FrameFits, TopRegister;
    var w := new Wav49Writer();
    PackFrame(f0, w, false);
    PackFrame(f1, w, true);
    assert w.fields == FrameFields(f0) + FrameFields(f1);
    code := w.code;
    EmptyRegister(w);
  }

  lemma EmptyRegister(w: Wav49Writer)
    requires w.Valid() && w.pending == 0
    ensures LsbValue(Bytes(w.code)) == LsbValue(w.fields)
  {
    LowWhole(w.sr, 16);
    ShlZero(8 * |w.code|);
  }

  // ---------------------------------------------------------------- WAV #49, unpacking

  /** The unpacker of WAV #49: bytes are or-ed in above the pending bits and fields leave
      the register from the bottom. */
  class Wav49Reader {
    const code: seq<byte>
    var c: nat
    var sr: nat
    ghost var fields: seq<Field>
    ghost var pending: nat

    ghost predicate Valid()
      reads this
    {
      c <= |code| && Pending(fields, sr, pending, Bytes(code[..c]))
    }

    constructor (code: seq<byte>)
      ensures Valid() && this.code == code && c == 0 && fields == [] && pending == 0
    {
      this.code, c, sr, fields, pending := code, 0, 0, [], 0;
      new;
      NothingPut();
    }

    /** sr |= *c++ << k, within the 16 bits of the register */
    method Load(k: nat)
      requires Valid() && k == pending && k + 8 <= 16 && c < |code|
      modifies this
      ensures Valid()
      ensures fields == old(fields) && c == old(c) + 1 && pending == old(pending) + 8
    {
      var b := code[c];
      assert code[..c + 1] == code[..c] + [b];
      hide Pending, Bytes, Pow2, BitOr, Shl;
      BytesSnoc(code[..c], b);
      assert b < Pow2(8) by { Pow2Table(); }
      PutKeeps(fields, sr, k, Bytes(code[..c]), b, 8);
      sr := BitOr(sr, Shl(b, k));
      c := c + 1;
      pending := pending + 8;
    }

    /** sr = *c++ */
    method Restart()
      requires Valid() && pending == 0 && c < |code|
      modifies this
      ensures Valid()
      ensures fields == old(fields) && c == old(c) + 1 && pending == 8
    {
      hide Pending, Bytes, Pow2, BitOr, Shl;
      BytesSnoc(code[..c], code[c]);
      assert code[c] < Pow2(8) by { Pow2Table(); }
      PutFirst(fields, sr, Bytes(code[..c]), code[c], 8);
      assert code[..c + 1] == code[..c] + [code[c]];
      sr := code[c];
      c := c + 1;
      pending := 8;
    }

    /** field = sr & mask, sr >>= w, for a mask of w ones */
    method Take(w: nat) returns (f: nat)
      requires Valid() && w <= pending
      modifies this
      ensures Valid()
      ensures f < Pow2(w)
      ensures fields == old(fields) + [Field(f, w)] && c == old(c) && pending == old(pending) - w
    {
      hide Pending, Bytes, Pow2, Low, Shr;
      TakeKeeps(fields, sr, pending, Bytes(code[..c]), w);
      f := Low(sr, w);
      sr := Shr(sr, w);
      fields := fields + [Field(f, w)];
      pending := pending - w;
    }
  }

  /** The log area ratios of the first frame. */
  method UnpackLars0(r: Wav49Reader) returns (larc: Vec8)
    requires r.Valid() && r.pending == 0 && r.c + 5 <= |r.code|
    modifies r
    ensures r.Valid() && r.pending == 4 && r.c == old(r.c) + 5
    ensures LarsFit(larc) && r.fields == old(r.fields) + LarFields(larc)
  {
    hide Pow2, Pending;
    Pow2Table();
    r.Restart();
    var c0 := r.Take(6);
    r.Load(2);
    var c1 := r.Take(6);
    r.Load(4);
    var c2 := r.Take(5);
    var c3 := r.Take(5);
    r.Load(2);
    var c4 := r.Take(4);
    var c5 := r.Take(4);
    r.Load(2);
    var c6 := r.Take(3);
    var c7 := r.Take(3);
    larc := [c0, c1, c2, c3, c4, c5, c6, c7];
  }

  method UnpackHead0(r: Wav49Reader) returns (nc: nat, bc: nat, mc: nat, xmaxc: nat, x0: nat)
    requires r.Valid() && r.pending == 4 && r.c + 2 <= |r.code|
    modifies r
    ensures r.Valid() && r.pending == 0 && r.c == old(r.c) + 2
    ensures nc < 128 && bc < 4 && mc < 4 && xmaxc < 64 && x0 < 8
    ensures r.fields == old(r.fields)
                        + [Field(nc, 7), Field(bc, 2), Field(mc, 2), Field(xmaxc, 6), Field(x0, 3)]
  {
    hide Pow2, Pending;
    Pow2Table();
    r.Load(4);
    nc := r.Take(7);
    bc := r.Take(2);
    mc := r.Take(2);
    r.Load(1);
    xmaxc := r.Take(6);
    x0 := r.Take(3);
  }

  method UnpackPulses10(r: Wav49Reader) returns (x1: nat, x2: nat, x3: nat, x4: nat, x5: nat, x6: nat)
    requires r.Valid() && r.pending == 0 && r.c + 3 <= |r.code|
    modifies r
    ensures r.Valid() && r.pending == 6 && r.c == old(r.c) + 3
    ensures x1 < 8 && x2 < 8 && x3 < 8 && x4 < 8 && x5 < 8 && x6 < 8
    ensures r.fields == old(r.fields)
                        + [Field(x1, 3), Field(x2, 3), Field(x3, 3), Field(x4, 3), Field(x5, 3), Field(x6, 3)]
  {
    hide Pow2, Pending;
    Pow2Table();
    r.Restart();
    x1 := r.Take(3);
    x2 := r.Take(3);
    r.Load(2);
    x3 := r.Take(3);
    x4 := r.Take(3);
    x5 := r.Take(3);
    r.Load(1);
    x6 := r.Take(3);
  }

  method UnpackPulses70(r: Wav49Reader) returns (x7: nat, x8: nat, x9: nat, x10: nat, x11: nat, x12: nat)
    requires r.Valid() && r.pending == 6 && r.c + 2 <= |r.code|
    modifies r
    ensures r.Valid() && r.pending == 4 && r.c == old(r.c) + 2
    ensures x7 < 8 && x8 < 8 && x9 < 8 && x10 < 8 && x11 < 8 && x12 < 8
    ensures r.fields == old(r.fields)
                        + [Field(x7, 3), Field(x8, 3), Field(x9, 3), Field(x10, 3), Field(x11, 3), Field(x12, 3)]
  {
    hide Pow2, Pending;
    Pow2Table();
    x7 := r.Take(3);
    x8 := r.Take(3);
    r.Restart();
    x9 := r.Take(3);
    x10 := r.Take(3);
    r.Load(2);
    x11 := r.Take(3);
    x12 := r.Take(3);
  }

  /** A sub-segment of the first frame. */
  method UnpackSub0(r: Wav49Reader) returns (sub: SubFrame)
    requires r.Valid() && r.pending == 4 && r.c + 7 <= |r.code|
    modifies r
    ensures r.Valid() && r.pending == 4 && r.c == old(r.c) + 7
    ensures SubFits(sub) && r.fields == old(r.fields) + SubFields(sub)
  {
    hide Pow2, Pending;
    var nc, bc, mc, xmaxc, x0 := UnpackHead0(r);
    var x1, x2, x3, x4, x5, x6 := UnpackPulses10(r);
    var x7, x8, x9, x10, x11, x12 := UnpackPulses70(r);
    var xMc: Pulses := [x0, x1, x2, x3, x4, x5, x6, x7, x8, x9, x10, x11, x12];
    sub := SubFrame(nc, bc, Excitation(xmaxc, mc, xMc));
    assert r.fields == old(r.fields) + HeadFields(sub) + PulseFields(sub, 1) + PulseFields(sub, 7);
  }

  /** The log area ratios of the second frame. */
  method UnpackLars1(r: Wav49Reader) returns (larc: Vec8)
    requires r.Valid() && r.pending == 4 && r.c + 4 <= |r.code|
    modifies r
    ensures r.Valid() && r.pending == 0 && r.c == old(r.c) + 4
    ensures LarsFit(larc) && r.fields == old(r.fields) + LarFields(larc)
  {
    hide Pow2, Pending;
    Pow2Table();
    r.Load(4);
    var c0 := r.Take(6);
    var c1 := r.Take(6);
    r.Restart();
    var c2 := r.Take(5);
    r.Load(3);
    var c3 := r.Take(5);
    var c4 := r.Take(4);
    r.Load(2);
    var c5 := r.Take(4);
    var c6 := r.Take(3);
    var c7 := r.Take(3);
    larc := [c0, c1, c2, c3, c4, c5, c6, c7];
  }

  method UnpackHead1(r: Wav49Reader) returns (nc: nat, bc: nat, mc: nat, xmaxc: nat, x0: nat)
    requires r.Valid() && r.pending == 0 && r.c + 3 <= |r.code|
    modifies r
    ensures r.Valid() && r.pending == 4 && r.c == old(r.c) + 3
    ensures nc < 128 && bc < 4 && mc < 4 && xmaxc < 64 && x0 < 8
    ensures r.fields == old(r.fields)
                        + [Field(nc, 7), Field(bc, 2), Field(mc, 2), Field(xmaxc, 6), Field(x0, 3)]
  {
    hide Pow2, Pending;
    Pow2Table();
    r.Restart();
    nc := r.Take(7);
    r.Load(1);
    bc := r.Take(2);
    mc := r.Take(2);
    r.Load(5);
    xmaxc := r.Take(6);
    x0 := r.Take(3);
  }

  method UnpackPulses11(r: Wav49Reader) returns (x1: nat, x2: nat, x3: nat, x4: nat, x5: nat, x6: nat)
    requires r.Valid() && r.pending == 4 && r.c + 2 <= |r.code|
    modifies r
    ensures r.Valid() && r.pending == 2 && r.c == old(r.c) + 2
    ensures x1 < 8 && x2 < 8 && x3 < 8 && x4 < 8 && x5 < 8 && x6 < 8
    ensures r.fields == old(r.fields)
                        + [Field(x1, 3), Field(x2, 3), Field(x3, 3), Field(x4, 3), Field(x5, 3), Field(x6, 3)]
  {
    hide Pow2, Pending;
    Pow2Table();
    x1 := r.Take(3);
    r.Load(1);
    x2 := r.Take(3);
    x3 := r.Take(3);
    x4 := r.Take(3);
    r.Restart();
    x5 := r.Take(3);
    x6 := r.Take(3);
  }

  method UnpackPulses71(r: Wav49Reader) returns (x7: nat, x8: nat, x9: nat, x10: nat, x11: nat, x12: nat)
    requires r.Valid() && r.pending == 2 && r.c + 2 <= |r.code|
    modifies r
    ensures r.Valid() && r.pending == 0 && r.c == old(r.c) + 2
    ensures x7 < 8 && x8 < 8 && x9 < 8 && x10 < 8 && x11 < 8 && x12 < 8
    ensures r.fields == old(r.fields)
                        + [Field(x7, 3), Field(x8, 3), Field(x9, 3), Field(x10, 3), Field(x11, 3), Field(x12, 3)]
  {
    hide Pow2, Pending;
    Pow2Table();
    r.Load(2);
    x7 := r.Take(3);
    x8 := r.Take(3);
    x9 := r.Take(3);
    r.Load(1);
    x10 := r.Take(3);
    x11 := r.Take(3);
    x12 := r.Take(3);
  }

  /** A sub-segment of the second frame. */
  method UnpackSub1(r: Wav49Reader) returns (sub: SubFrame)
    requires r.Valid() && r.pending == 0 && r.c + 7 <= |r.code|
    modifies r
    ensures r.Valid() && r.pending == 0 && r.c == old(r.c) + 7
    ensures SubFits(sub) && r.fields == old(r.fields) + SubFields(sub)
  {
    hide Pow2, Pending;
    var nc, bc, mc, xmaxc, x0 := UnpackHead1(r);
    var x1, x2, x3, x4, x5, x6 := UnpackPulses11(r);
    var x7, x8, x9, x10, x11, x12 := UnpackPulses71(r);
    var xMc: Pulses := [x0, x1, x2, x3, x4, x5, x6, x7, x8, x9, x10, x11, x12];
    sub := SubFrame(nc, bc, Excitation(xmaxc, mc, xMc));
    assert r.fields == old(r.fields) + HeadFields(sub) + PulseFields(sub, 1) + PulseFields(sub, 7);
  }

  /** The four sub-segments of one frame, in either half of the block. */
  method UnpackSubs(r: Wav49Reader, second: bool) returns (subs: SubFrames)
    requires r.Valid() && r.pending == (if second then 0 else 4)
    requires r.c + 4 * 7 <= |r.code|
    modifies r
    ensures r.Valid() && r.pending == old(r.pending)
    ensures r.c == old(r.c) + 4 * 7
    ensures forall i :: 0 <= i < 4 ==> SubFits(subs[i])
    ensures r.fields == old(r.fields) + SubsFields(subs, 4)
  {
    hide SubFields, SubFits, Pending;
    ghost var start := r.fields;
    var list: seq<SubFrame> := [];
    for i := 0 to 4
      invariant r.Valid() && r.pending == old(r.pending) && |list| == i
      invariant r.c == old(r.c) + i * 7
      invariant forall j :: 0 <= j < i ==> SubFits(list[j])
      invariant r.fields == start + SubsFields(list, i)
    {
      var sub := UnpackSub(r, second);
      SubsFieldsSnoc(list, sub, i);
      list := list + [sub];
    }
    subs := list;
  }

  method UnpackSub(r: Wav49Reader, second: bool) returns (sub: SubFrame)
    requires r.Valid() && r.pending == (if second then 0 else 4)
    requires r.c + 7 <= |r.code|
    modifies r
    ensures r.Valid() && r.pending == old(r.pending)
    ensures r.c == old(r.c) + 7
    ensures SubFits(sub) && r.fields == old(r.fields) + SubFields(sub)
  {
    hide SubFields, SubFits, Pending;
    if second {
      sub := UnpackSub1(r);
    } else {
      sub := UnpackSub0(r);
    }
  }

  method UnpackWav49(code: seq<byte>) returns (f0: Frame, f1: Frame)
    requires |code| == 65
    ensures IsWav49(code, f0, f1)
  {
    hide LarFields, SubsFields, LarsFit, SubFits, Pending;
    var r := new Wav49Reader(code);
    var larc := UnpackLars0(r);
    var subs := UnpackSubs(r, false);
    f0 := Frame(larc, subs);
    assert r.fields == FrameFields(f0);
    ghost var half := r.fields;
    larc := UnpackLars1(r);
    subs := UnpackSubs(r, true);
    f1 := Frame(larc, subs);
    assert r.fields == half + (LarFields(larc) + SubsFields(subs, 4));
    assert code[..65] == code;
    NothingPending(r);
  }

  lemma NothingPending(r: Wav49Reader)
    requires r.Valid() && r.pending == 0
    ensures LsbValue(Bytes(r.code[..r.c])) == LsbValue(r.fields)
  {
    ShlZero(Width(r.fields));
  }

  /** The 65 byte format is a bijection: a pair of frames has one code and a code one pair
      of frames, so unpacking inverts packing and packing inverts unpacking. */
  lemma Wav49Bijective(c: seq<byte>, f0: Frame, f1: Frame, d: seq<byte>, g0: Frame, g1: Frame)
    requires IsWav49(c, f0, f1) && IsWav49(d, g0, g1)
    ensures c == d <==> f0 == g0 && f1 == g1
  {
    hide FrameFields;
    if c == d {
      FrameFieldsFit(f0);
      FrameFieldsFit(f1);
      FrameFieldsFit(g0);
      FrameFieldsFit(g1);
      FrameShape(f0, g0);
      FrameShape(f1, g1);
      var a, b := FrameFields(f0) + FrameFields(f1), FrameFields(g0) + FrameFields(g1);
      LsbUnique(a, b);
      assert a[..76] == FrameFields(f0) && b[..76] == FrameFields(g0);
      assert a[76..] == FrameFields(f1) && b[76..] == FrameFields(g1);
      FrameDetermined(f0, g0);
      FrameDetermined(f1, g1);
    }
    if f0 == g0 && f1 == g1 {
      BytesUnique(c, d);
    }
  }

  // ---------------------------------------------------------------- 33 byte frames

  /** Two, three or four pieces or-ed together at their places in a byte. */
  function Join2(a: nat, i: nat, c: nat): nat { BitOr(Shl(a, i), c) }

  function Join3(a: nat, i: nat, b: nat, j: nat, c: nat): nat {
    BitOr(Join2(a, i, Shl(b, j)), c)
  }

  function Join4(a: nat, i: nat, b: nat, j: nat, c: nat, k: nat, d: nat): nat {
    BitOr(Join3(a, i, b, j, Shl(c, k)), d)
  }

  lemma Or2(a: nat, i: nat, c: nat)
    requires c < Pow2(i)
    ensures Join2(a, i, c) == Shl(a, i) + c
  {
    OrAbove(c, a, i);
  }

  /** Three disjoint pieces of a byte. */
  lemma Or3(a: nat, i: nat, b: nat, j: nat, c: nat)
    requires j <= i && b < Pow2(i - j) && c < Pow2(j)
    ensures Join3(a, i, b, j, c) == Shl(a, i) + Shl(b, j) + c
  {
    hide BitOr, Shl, Pow2;
    JoinBound(0, b, j, i - j);
    Or2(a, i, Shl(b, j));
    ShlShl(a, i - j, j);
    ShlAdd(Shl(a, i - j), b, j);
    Or2(Shl(a, i - j) + b, j, c);
  }

  lemma ShiftedSum(a: nat, i: nat, b: nat, j: nat, c: nat, k: nat)
    requires k <= j <= i
    ensures Shl(Shl(a, i - k) + Shl(b, j - k) + c, k) == Shl(a, i) + Shl(b, j) + Shl(c, k)
    ensures c < Pow2(j - k) ==> Shl(c, k) < Pow2(j)
  {
    hide Shl, Pow2;
    ShlAdd(Shl(a, i - k) + Shl(b, j - k), c, k);
    ShlAdd(Shl(a, i - k), Shl(b, j - k), k);
    ShlShl(a, i - k, k);
    ShlShl(b, j - k, k);
    if c < Pow2(j - k) { JoinBound(0, c, k, j - k); }
  }

  lemma Or4(a: nat, i: nat, b: nat, j: nat, c: nat, k: nat, d: nat)
    requires k <= j <= i && b < Pow2(i - j) && c < Pow2(j - k) && d < Pow2(k)
    ensures Join4(a, i, b, j, c, k, d) == Shl(a, i) + Shl(b, j) + Shl(c, k) + d
  {
    hide BitOr, Shl, Pow2, Join2, Join3;
    ShiftedSum(a, i, b, j, c, k);
    Or3(a, i, b, j, Shl(c, k));
    OrAbove(d, Shl(a, i - k) + Shl(b, j - k) + c, k);
  }

  const MAGIC: nat := 0xD

  /** The bytes before the sub-segments, with the masks and shifts of gsm0610_pack_voip. */
  function VoipHeader(c: Vec8): (h: seq<nat>)
    requires LarsFit(c)
    ensures |h| == 5
  {
    [Join2(MAGIC % 16, 4, c[0] / 4 % 16),
     Join2(c[0] % 4, 6, c[1] % 64),
     Join2(c[2] % 32, 3, c[3] / 4 % 8),
     Join3(c[3] % 4, 6, c[4] % 16, 2, c[5] / 4 % 4),
     Join3(c[5] % 4, 6, c[6] % 8, 3, c[7] % 8)]
  }

  /** Byte i of a sub-segment. */
  function VoipByte(s: SubFrame, i: nat): nat
    requires SubFits(s) && i < 7
  {
    var x := s.p.xMc;
    match i
    case 0 => Join2(s.nc % 128, 1, s.bc / 2 % 2)
    case 1 => Join3(s.bc % 2, 7, s.p.mc % 4, 5, s.p.xmaxc / 2 % 32)
    case 2 => Join4(s.p.xmaxc % 2, 7, x[0] % 8, 4, x[1] % 8, 1, x[2] / 4 % 2)
    case 3 => Join3(x[2] % 4, 6, x[3] % 8, 3, x[4] % 8)
    case 4 => Join3(x[5] % 8, 5, x[6] % 8, 2, x[7] / 2 % 4)
    case 5 => Join4(x[7] % 2, 7, x[8] % 8, 4, x[9] % 8, 1, x[10] / 4 % 2)
    case _ => Join3(x[10] % 4, 6, x[11] % 8, 3, x[12] % 8)
  }

  function VoipSub(s: SubFrame): (h: seq<nat>)
    requires SubFits(s)
    ensures |h| == 7
  {
    seq(7, i requires 0 <= i < 7 => VoipByte(s, i))
  }

  lemma Piece2(a: nat, i: nat, c: nat)
    requires i in {1, 2, 3, 4, 6} && c < Pow2(i)
    ensures i == 1 ==> Join2(a, i, c) == 2 * a + c
    ensures i == 2 ==> Join2(a, i, c) == 4 * a + c
    ensures i == 3 ==> Join2(a, i, c) == 8 * a + c
    ensures i == 4 ==> Join2(a, i, c) == 16 * a + c
    ensures i == 6 ==> Join2(a, i, c) == 64 * a + c
  {
    hide Join2, Join3, Join4, Shl, Pow2;
    Or2(a, i, c);
    ShlTable(a);
  }

  lemma Piece3(a: nat, i: nat, b: nat, j: nat, c: nat)
    requires (i, j) in {(7, 5), (6, 3), (6, 2), (5, 2)}
    requires b < Pow2(i - j) && c < Pow2(j)
    ensures var v := Join3(a, i, b, j, c);
            && ((i, j) == (7, 5) ==> v == 128 * a + 32 * b + c)
            && ((i, j) == (6, 3) ==> v == 64 * a + 8 * b + c)
            && ((i, j) == (6, 2) ==> v == 64 * a + 4 * b + c)
            && ((i, j) == (5, 2) ==> v == 32 * a + 4 * b + c)
  {
    hide Join2, Join3, Join4, Shl, Pow2;
    Or3(a, i, b, j, c);
    ShlTable(a);
    ShlTable(b);
  }

  lemma Piece4(a: nat, b: nat, c: nat, d: nat)
    requires b < 8 && c < 8 && d < 2
    ensures Join4(a, 7, b, 4, c, 1, d) == 128 * a + 16 * b + 2 * c + d
  {
    hide Join2, Join3, Join4, Shl, Pow2;
    Pow2Table();
    Or4(a, 7, b, 4, c, 1, d);
    ShlTable(a);
    ShlTable(b);
    ShlTable(c);
  }

  /** The header bytes as sums of disjoint pieces. */
  lemma VoipHeaderBytes(c: Vec8)
    requires LarsFit(c)
    ensures VoipHeader(c)
            == [208 + c[0] / 4, 64 * (c[0] % 4) + c[1], 8 * c[2] + c[3] / 4,
                64 * (c[3] % 4) + 4 * c[4] + c[5] / 4, 64 * (c[5] % 4) + 8 * c[6] + c[7]]
  {
    hide VoipHeader;
    VoipHeaderFront(c);
    VoipHeaderBack(c);
  }

  lemma VoipHeaderFront(c: Vec8)
    requires LarsFit(c)
    ensures var h := VoipHeader(c);
            && h[0] == 208 + c[0] / 4 && h[1] == 64 * (c[0] % 4) + c[1] && h[2] == 8 * c[2] + c[3] / 4
  {
    hide Join2, Join3, Pow2;
    Pow2Table();
    Piece2(13, 4, c[0] / 4);
    Piece2(c[0] % 4, 6, c[1]);
    Piece2(c[2], 3, c[3] / 4);
  }

  lemma VoipHeaderBack(c: Vec8)
    requires LarsFit(c)
    ensures var h := VoipHeader(c);
            && h[3] == 64 * (c[3] % 4) + 4 * c[4] + c[5] / 4 && h[4] == 64 * (c[5] % 4) + 8 * c[6] + c[7]
  {
    hide Join2, Join3, Pow2;
    Pow2Table();
    Piece3(c[3] % 4, 6, c[4], 2, c[5] / 4);
    Piece3(c[5] % 4, 6, c[6], 3, c[7]);
  }

  /** The bytes of a sub-segment as sums of disjoint pieces. */
  function SubByte(s: SubFrame, i: nat): int
    requires i < 7
  {
    var x: seq<int> := s.p.xMc;
    match i
    case 0 => 2 * s.nc + s.bc / 2
    case 1 => 128 * (s.bc % 2) + 32 * s.p.mc + s.p.xmaxc / 2
    case 2 => 128 * (s.p.xmaxc % 2) + 16 * x[0] + 2 * x[1] + x[2] / 4
    case 3 => 64 * (x[2] % 4) + 8 * x[3] + x[4]
    case 4 => 32 * x[5] + 4 * x[6] + x[7] / 2
    case 5 => 128 * (x[7] % 2) + 16 * x[8] + 2 * x[9] + x[10] / 4
    case _ => 64 * (x[10] % 4) + 8 * x[11] + x[12]
  }

  lemma VoipHeadByte(s: SubFrame, i: nat)
    requires SubFits(s) && i < 3
    ensures VoipByte(s, i) == SubByte(s, i)
  {
    hide Join2, Join3, Join4, Pow2;
    Pow2Table();
    var x := s.p.xMc;
    if i == 0 {
      Piece2(s.nc, 1, s.bc / 2);
    } else if i == 1 {
      Piece3(s.bc % 2, 7, s.p.mc, 5, s.p.xmaxc / 2);
    } else {
      Piece4(s.p.xmaxc % 2, x[0], x[1], x[2] / 4);
    }
  }

  lemma VoipPulseByte(s: SubFrame, i: nat)
    requires SubFits(s) && 3 <= i < 7
    ensures VoipByte(s, i) == SubByte(s, i)
  {
    if i < 5 { VoipEarlyPulse(s, i); } else { VoipLatePulse(s, i); }
  }

  lemma VoipEarlyPulse(s: SubFrame, i: nat)
    requires SubFits(s) && 3 <= i < 5
    ensures VoipByte(s, i) == SubByte(s, i)
  {
    hide Join2, Join3, Join4, Pow2;
    Pow2Table();
    var x := s.p.xMc;
    if i == 3 { Piece3(x[2] % 4, 6, x[3], 3, x[4]); } else { Piece3(x[5], 5, x[6], 2, x[7] / 2); }
  }

  lemma VoipLatePulse(s: SubFrame, i: nat)
    requires SubFits(s) && 5 <= i < 7
    ensures VoipByte(s, i) == SubByte(s, i)
  {
    hide Join2, Join3, Join4, Pow2;
    Pow2Table();
    var x := s.p.xMc;
    if i == 5 { Piece4(x[7] % 2, x[8], x[9], x[10] / 4); } else { Piece3(x[10] % 4, 6, x[11], 3, x[12]); }
  }

  lemma VoipSubBytes(s: SubFrame)
    requires SubFits(s)
    ensures forall i :: 0 <= i < 7 ==> VoipSub(s)[i] == SubByte(s, i)
  {
    hide VoipByte, SubByte;
    forall i | 0 <= i < 7 ensures VoipSub(s)[i] == SubByte(s, i) {
      if i < 3 { VoipHeadByte(s, i); } else { VoipPulseByte(s, i); }
    }
  }

  /** A list of bytes. */
  ghost predicate AreBytes(h: seq<nat>) {
    forall i :: 0 <= i < |h| ==> h[i] < 0x100
  }

  /** Numbers below 256 as eight-bit fields. */
  function ByteFields(h: seq<nat>): (fs: seq<Field>)
    ensures |fs| == |h|
  {
    seq(|h|, i requires 0 <= i < |h| => Field(h[i], 8))
  }

  /** The value of a list of bytes, by Horner's rule. */
  lemma BytesHorner(h: seq<nat>, i: nat)
    requires i < |h|
    ensures MsbValue(ByteFields(h)[..0]) == 0 && Width(ByteFields(h)[..0]) == 0
    ensures MsbValue(ByteFields(h)[..i + 1]) == 0x100 * MsbValue(ByteFields(h)[..i]) + h[i]
    ensures Width(ByteFields(h)[..i + 1]) == Width(ByteFields(h)[..i]) + 8
  {
    MsbPrefix(ByteFields(h), i);
    ShlTable(MsbValue(ByteFields(h)[..i]));
  }

  lemma FiveBytes(h: seq<nat>)
    requires |h| == 5
    ensures Width(ByteFields(h)) == 40
    ensures MsbValue(ByteFields(h))
            == 0x1_0000_0000 * h[0] + 0x100_0000 * h[1] + 0x1_0000 * h[2] + 0x100 * h[3] + h[4]
  {
    hide MsbValue, Width, ByteFields;
    BytesHorner(h, 0);
    BytesHorner(h, 1);
    BytesHorner(h, 2);
    BytesHorner(h, 3);
    BytesHorner(h, 4);
    assert ByteFields(h)[..5] == ByteFields(h);
  }

  lemma SevenBytes(h: seq<nat>)
    requires |h| == 7
    ensures Width(ByteFields(h)) == 56
    ensures MsbValue(ByteFields(h))
            == 0x1_0000_0000_0000 * h[0] + 0x100_0000_0000 * h[1] + 0x1_0000_0000 * h[2]
               + 0x100_0000 * h[3] + 0x1_0000 * h[4] + 0x100 * h[5] + h[6]
  {
    hide MsbValue, Width, ByteFields;
    BytesHorner(h, 0);
    BytesHorner(h, 1);
    BytesHorner(h, 2);
    BytesHorner(h, 3);
    BytesHorner(h, 4);
    BytesHorner(h, 5);
    BytesHorner(h, 6);
    assert ByteFields(h)[..7] == ByteFields(h);
  }

  /** Appending a field by its width. */
  lemma AppendField(fs: seq<Field>, i: nat)
    requires i < |fs| && 1 <= fs[i].w <= 7
    ensures MsbValue(fs[..0]) == 0 && Width(fs[..0]) == 0
    ensures Width(fs[..i + 1]) == Width(fs[..i]) + fs[i].w
    ensures fs[i].w == 2 ==> MsbValue(fs[..i + 1]) == 4 * MsbValue(fs[..i]) + fs[i].v
    ensures fs[i].w == 3 ==> MsbValue(fs[..i + 1]) == 8 * MsbValue(fs[..i]) + fs[i].v
    ensures fs[i].w == 4 ==> MsbValue(fs[..i + 1]) == 16 * MsbValue(fs[..i]) + fs[i].v
    ensures fs[i].w == 5 ==> MsbValue(fs[..i + 1]) == 32 * MsbValue(fs[..i]) + fs[i].v
    ensures fs[i].w == 6 ==> MsbValue(fs[..i + 1]) == 64 * MsbValue(fs[..i]) + fs[i].v
    ensures fs[i].w == 7 ==> MsbValue(fs[..i + 1]) == 128 * MsbValue(fs[..i]) + fs[i].v
  {
    hide MsbValue, Width, Shl;
    MsbPrefix(fs, i);
    ShlTable(MsbValue(fs[..i]));
  }

  /** The magic nibble and the log area ratios as a 40 bit number. */
  lemma HeaderFront(m: nat, c: Vec8)
    requires LarsFit(c)
    ensures var fs := ([Field(m, 4)] + LarFields(c))[..5];
            && Width(fs) == 26
            && MsbValue(fs) == 32 * (32 * (64 * (64 * m + Int(c[0])) + Int(c[1])) + Int(c[2])) + Int(c[3])
  {
    hide MsbValue, Width;
    var fs := [Field(m, 4)] + LarFields(c);
    AppendField(fs, 0);
    AppendField(fs, 1);
    AppendField(fs, 2);
    AppendField(fs, 3);
    AppendField(fs, 4);
  }

  lemma HeaderValue(m: nat, c: Vec8)
    requires LarsFit(c)
    ensures Width([Field(m, 4)] + LarFields(c)) == 40
    ensures MsbValue([Field(m, 4)] + LarFields(c))
            == 8 * (8 * (16 * (16 * (32 * (32 * (64 * (64 * m + Int(c[0])) + Int(c[1])) + Int(c[2]))
               + Int(c[3])) + Int(c[4])) + Int(c[5])) + Int(c[6])) + Int(c[7])
  {
    hide MsbValue, Width;
    var fs := [Field(m, 4)] + LarFields(c);
    HeaderFront(m, c);
    AppendField(fs, 5);
    AppendField(fs, 6);
    AppendField(fs, 7);
    AppendField(fs, 8);
    assert fs[..9] == fs;
  }

  lemma HeadValue(s: SubFrame)
    requires SubFits(s)
    ensures Width(HeadFields(s)) == 20
    ensures MsbValue(HeadFields(s))
            == 8 * (64 * (4 * (4 * Int(s.nc) + Int(s.bc)) + Int(s.p.mc)) + Int(s.p.xmaxc)) + Int(s.p.xMc[0])
  {
    hide MsbValue, Width;
    var fs := HeadFields(s);
    AppendField(fs, 0);
    AppendField(fs, 1);
    AppendField(fs, 2);
    AppendField(fs, 3);
    AppendField(fs, 4);
    assert fs[..5] == fs;
  }

  lemma PulsesValue(s: SubFrame, k: nat)
    requires SubFits(s) && k + 6 <= 13
    ensures Width(PulseFields(s, k)) == 18
    ensures MsbValue(PulseFields(s, k))
            == 8 * (8 * (8 * (8 * (8 * Int(s.p.xMc[k]) + Int(s.p.xMc[k + 1])) + Int(s.p.xMc[k + 2]))
               + Int(s.p.xMc[k + 3])) + Int(s.p.xMc[k + 4])) + Int(s.p.xMc[k + 5])
  {
    hide MsbValue, Width;
    var fs := PulseFields(s, k);
    AppendField(fs, 0);
    AppendField(fs, 1);
    AppendField(fs, 2);
    AppendField(fs, 3);
    AppendField(fs, 4);
    AppendField(fs, 5);
    assert fs[..6] == fs;
  }

  lemma Shl18(x: nat)
    ensures Shl(x, 18) == 0x4_0000 * x
  {
    ShlShl(x, 8, 8);
    ShlShl(x, 16, 2);
    ShlTable(x);
    ShlTable(0x100 * x);
    ShlTable(0x1_0000 * x);
  }

  /** A sub-segment as a 56 bit number. */
  lemma SubValue(s: SubFrame)
    requires SubFits(s)
    ensures Width(SubFields(s)) == 56
    ensures MsbValue(SubFields(s))
            == 0x4_0000 * (0x4_0000 * MsbValue(HeadFields(s)) + MsbValue(PulseFields(s, 1)))
               + MsbValue(PulseFields(s, 7))
  {
    hide MsbValue, Width, HeadFields, PulseFields, Shl;
    HeadValue(s);
    PulsesValue(s, 1);
    PulsesValue(s, 7);
    MsbConcat(HeadFields(s), PulseFields(s, 1));
    MsbConcat(HeadFields(s) + PulseFields(s, 1), PulseFields(s, 7));
    Shl18(MsbValue(HeadFields(s)));
    Shl18(MsbValue(HeadFields(s) + PulseFields(s, 1)));
  }

  /** The header bytes are the magic nibble and the eight ratios, first bit highest. */
  lemma VoipHeaderValue(c: Vec8)
    requires LarsFit(c)
    ensures AreBytes(VoipHeader(c))
    ensures MsbValue(ByteFields(VoipHeader(c))) == MsbValue([Field(MAGIC, 4)] + LarFields(c))
    ensures Width(ByteFields(VoipHeader(c))) == Width([Field(MAGIC, 4)] + LarFields(c))
  {
    hide VoipHeader, LarFields, MsbValue, Width;
    VoipHeaderBytes(c);
    FiveBytes(VoipHeader(c));
    HeaderValue(MAGIC, c);
  }

  /** The seven bytes are the seventeen fields of the sub-segment, first bit highest. */
  lemma VoipSubValue(s: SubFrame)
    requires SubFits(s)
    ensures AreBytes(VoipSub(s))
    ensures MsbValue(ByteFields(VoipSub(s))) == MsbValue(SubFields(s))
    ensures Width(ByteFields(VoipSub(s))) == Width(SubFields(s))
  {
    hide VoipSub, SubFields, HeadFields, PulseFields, MsbValue, Width;
    VoipSubBytes(s);
    SevenBytes(VoipSub(s));
    SubValue(s);
    HeadValue(s);
    PulsesValue(s, 1);
    PulsesValue(s, 7);
  }

  // ---------------------------------------------------------------- whole 33 byte frames

  /** code carries magic nibble m and frame f as the most significant bit first
      concatenation of the 77 fields. */
  ghost predicate CarriesVoip(code: seq<byte>, m: nat, f: Frame) {
    && |code| == 33 && m < 16 && FrameFits(f)
    && MsbValue(Bytes(code)) == MsbValue([Field(m, 4)] + FrameFields(f))
  }

  /** Appending strings of equal width and value keeps two concatenations equal. */
  lemma ExtendEqual(a: seq<Field>, b: seq<Field>, x: seq<Field>, y: seq<Field>)
    requires MsbValue(a) == MsbValue(b) && MsbValue(x) == MsbValue(y) && Width(x) == Width(y)
    ensures MsbValue(a + x) == MsbValue(b + y)
  {
    MsbConcat(a, x);
    MsbConcat(b, y);
  }

  lemma BytesConcat(a: seq<byte>, b: seq<byte>)
    ensures Bytes(a + b) == Bytes(a) + Bytes(b)
  {
  }

  method PackVoip(f: Frame) returns (code: seq<byte>)
    requires FrameFits(f)
    ensures CarriesVoip(code, MAGIC, f)
  {
    hide VoipHeader, VoipSub, LarFields, SubFields, LarsFit, SubFits, MsbValue, Width;
    VoipHeaderValue(f.larc);
    code := AsBytes(VoipHeader(f.larc));
    ghost var fields := [Field(MAGIC, 4)] + LarFields(f.larc);
    assert fields + SubsFields(f.subs, 0) == fields;
    for i := 0 to 4
      invariant |code| == 5 + 7 * i
      invariant MsbValue(Bytes(code)) == MsbValue(fields + SubsFields(f.subs, i))
    {
      VoipSubValue(f.subs[i]);
      var sub := AsBytes(VoipSub(f.subs[i]));
      ExtendEqual(Bytes(code), fields + SubsFields(f.subs, i), Bytes(sub), SubFields(f.subs[i]));
      BytesConcat(code, sub);
      assert fields + SubsFields(f.subs, i) + SubFields(f.subs[i]) == fields + SubsFields(f.subs, i + 1);
      code := code + sub;
    }
    assert fields + SubsFields(f.subs, 4) == [Field(MAGIC, 4)] + FrameFields(f);
  }

  /** The list itself, known to hold bytes. */
  function AsBytes(h: seq<nat>): (code: seq<byte>)
    requires AreBytes(h)
    ensures |code| == |h| && Bytes(code) == ByteFields(h)
  {
    seq(|h|, i requires 0 <= i < |h| => h[i])
  }

  /** Two pieces of a parameter from neighbouring bytes. */
  function Over2(a: nat, c: nat): (r: nat)
    requires c < 4
    ensures r == 4 * a + c
  {
    hide *;
    Pow2Table();
    Piece2(a, 2, c);
    Join2(a, 2, c)
  }

  function Over1(a: nat, c: nat): (r: nat)
    requires c < 2
    ensures r == 2 * a + c
  {
    hide *;
    Pow2Table();
    Piece2(a, 1, c);
    Join2(a, 1, c)
  }

  /** Ratio k of a frame, with the masks and shifts of gsm0610_unpack_voip. */
  function VoipLar(b0: byte, b1: byte, b2: byte, b3: byte, b4: byte, k: nat): (r: int16)
    requires k < 8
    ensures 0 <= r < 64
  {
    match k
    case 0 => Over2(b0 % 16, b1 / 64 % 4)
    case 1 => b1 % 64
    case 2 => b2 / 8 % 32
    case 3 => Over2(b2 % 8, b3 / 64 % 4)
    case 4 => b3 / 4 % 16
    case 5 => Over2(b3 % 4, b4 / 64 % 4)
    case 6 => b4 / 8 % 8
    case _ => b4 % 8
  }

  function VoipLars(c: seq<byte>): (r: Vec8)
    requires |c| == 5
  {
    seq(8, k requires 0 <= k < 8 => VoipLar(c[0], c[1], c[2], c[3], c[4], k))
  }

  /** Pulse k of a sub-segment, with the masks and shifts of gsm0610_unpack_voip. */
  function VoipPulse(b2: byte, b3: byte, b4: byte, b5: byte, b6: byte, k: nat): (r: int16)
    requires k < 13
    ensures 0 <= r < 8
  {
    match k
    case 0 => b2 / 16 % 8
    case 1 => b2 / 2 % 8
    case 2 => Over2(b2 % 2, b3 / 64 % 4)
    case 3 => b3 / 8 % 8
    case 4 => b3 % 8
    case 5 => b4 / 32 % 8
    case 6 => b4 / 4 % 8
    case 7 => Over1(b4 % 4, b5 / 128 % 2)
    case 8 => b5 / 16 % 8
    case 9 => b5 / 2 % 8
    case 10 => Over2(b5 % 2, b6 / 64 % 4)
    case 11 => b6 / 8 % 8
    case _ => b6 % 8
  }

  /** A sub-segment from its seven bytes. */
  function VoipSubFrame(c: seq<byte>): (s: SubFrame)
    requires |c| == 7
    ensures SubFits(s)
  {
    SubFrame(c[0] / 2 % 128, Over1(c[0] % 2, c[1] / 128 % 2),
             Excitation(Over1(c[1] % 32, c[2] / 128 % 2), c[1] / 32 % 4,
                        seq(13, k requires 0 <= k < 13 => VoipPulse(c[2], c[3], c[4], c[5], c[6], k))))
  }

  lemma VoipLarsFit(c: seq<byte>)
    requires |c| == 5
    ensures LarsFit(VoipLars(c))
  {
  }

  /** A byte cut in two and in three. */
  lemma Cut64(b: byte)
    ensures b == 64 * (b / 64) + 4 * (b / 4 % 16) + b % 4
  {
    assert b / 64 == b / 4 / 16;
  }

  lemma Cut643(b: byte)
    ensures b == 64 * (b / 64) + 8 * (b / 8 % 8) + b % 8
  {
    assert b / 64 == b / 8 / 8;
  }

  lemma Cut128(b: byte)
    ensures b == 128 * (b / 128) + 32 * (b / 32 % 4) + b % 32
  {
    assert b / 128 == b / 32 / 4;
  }

  lemma Cut1284(b: byte)
    ensures b == 128 * (b / 128) + 16 * (b / 16 % 8) + 2 * (b / 2 % 8) + b % 2
  {
    assert b / 16 == b / 2 / 8;
    assert b / 128 == b / 16 / 8;
  }

  lemma BytesAsFields(c: seq<byte>)
    ensures Bytes(c) == ByteFields(c)
  {
  }

  /** The five header bytes are the nibble and ratios read from them, first bit highest. */
  lemma VoipLarsValue(c: seq<byte>)
    requires |c| == 5
    ensures LarsFit(VoipLars(c))
    ensures MsbValue(Bytes(c)) == MsbValue([Field(c[0] / 16, 4)] + LarFields(VoipLars(c)))
    ensures Width(Bytes(c)) == Width([Field(c[0] / 16, 4)] + LarFields(VoipLars(c)))
  {
    hide LarFields, LarsFit, MsbValue, Width;
    VoipLarsFit(c);
    BytesAsFields(c);
    FiveBytes(c);
    HeaderValue(c[0] / 16, VoipLars(c));
    LarsArith(c[0], c[1], c[2], c[3], c[4]);
  }

  lemma LarParts(b0: byte, b1: byte, b2: byte, b3: byte, b4: byte)
    ensures VoipLar(b0, b1, b2, b3, b4, 0) == 4 * (b0 % 16) + b1 / 64
    ensures VoipLar(b0, b1, b2, b3, b4, 1) == b1 % 64
    ensures VoipLar(b0, b1, b2, b3, b4, 2) == b2 / 8
    ensures VoipLar(b0, b1, b2, b3, b4, 3) == 4 * (b2 % 8) + b3 / 64
    ensures VoipLar(b0, b1, b2, b3, b4, 4) == b3 / 4 % 16
    ensures VoipLar(b0, b1, b2, b3, b4, 5) == 4 * (b3 % 4) + b4 / 64
    ensures VoipLar(b0, b1, b2, b3, b4, 6) == b4 / 8 % 8
    ensures VoipLar(b0, b1, b2, b3, b4, 7) == b4 % 8
  {
    hide Over2;
    TopBits(b1);
    TopBits(b3);
    TopBits(b4);
    assert b2 / 8 % 32 == b2 / 8;
  }

  lemma LarsArith(b0: byte, b1: byte, b2: byte, b3: byte, b4: byte)
    ensures 0x1_0000_0000 * b0 + 0x100_0000 * b1 + 0x1_0000 * b2 + 0x100 * b3 + b4
            == 8 * (8 * (16 * (16 * (32 * (32 * (64 * (64 * (b0 / 16) + Int(VoipLar(b0, b1, b2, b3, b4, 0)))
               + Int(VoipLar(b0, b1, b2, b3, b4, 1))) + Int(VoipLar(b0, b1, b2, b3, b4, 2)))
               + Int(VoipLar(b0, b1, b2, b3, b4, 3))) + Int(VoipLar(b0, b1, b2, b3, b4, 4)))
               + Int(VoipLar(b0, b1, b2, b3, b4, 5))) + Int(VoipLar(b0, b1, b2, b3, b4, 6)))
               + Int(VoipLar(b0, b1, b2, b3, b4, 7))
  {
    hide VoipLar;
    LarParts(b0, b1, b2, b3, b4);
    Cut64(b3);
    Cut643(b4);
    LarsSum(b0 / 16, b0 % 16, b1 / 64, b1 % 64, b2 / 8, b2 % 8, b3 / 64, b3 / 4 % 16, b3 % 4,
            b4 / 64, b4 / 8 % 8, b4 % 8);
  }

  lemma LarsSum(h0: int, l0: int, h1: int, l1: int, h2: int, l2: int, h3: int, m3: int, l3: int, h4: int, m4: int, l4: int)
    ensures 0x1_0000_0000 * (16 * h0 + l0) + 0x100_0000 * (64 * h1 + l1) + 0x1_0000 * (8 * h2 + l2)
            + 0x100 * (64 * h3 + 4 * m3 + l3) + (64 * h4 + 8 * m4 + l4)
            == 8 * (8 * (16 * (16 * (32 * (32 * (64 * (64 * h0 + 4 * l0 + h1) + l1) + h2) + 4 * l2 + h3) + m3)
               + 4 * l3 + h4) + m4) + l4
  {
  }

  /** The seven bytes are the fields read from them, first bit highest. */
  lemma VoipSubFrameValue(c: seq<byte>)
    requires |c| == 7
    ensures MsbValue(Bytes(c)) == MsbValue(SubFields(VoipSubFrame(c)))
    ensures Width(Bytes(c)) == Width(SubFields(VoipSubFrame(c)))
  {
    hide VoipPulse, VoipSubFrame, SubFields, HeadFields, PulseFields, SubFits, MsbValue, Width, Bytes, ByteFields;
    BytesAsFields(c);
    SevenBytes(c);
    var s := VoipSubFrame(c);
    VoipSubParts(c);
    PulsesOfBytes(c[2], c[3], c[4], c[5], c[6]);
    SubValue(s);
    HeadValue(s);
    PulsesValue(s, 1);
    PulsesValue(s, 7);
    HeadArith(c[0], c[1], c[2]);
  }

  /** Pulse k as disjoint pieces. */
  function PulseBits(b2: byte, b3: byte, b4: byte, b5: byte, b6: byte, k: nat): int {
    match k
    case 0 => b2 / 16 % 8
    case 1 => b2 / 2 % 8
    case 2 => 4 * (b2 % 2) + b3 / 64
    case 3 => b3 / 8 % 8
    case 4 => b3 % 8
    case 5 => b4 / 32
    case 6 => b4 / 4 % 8
    case 7 => 2 * (b4 % 4) + b5 / 128
    case 8 => b5 / 16 % 8
    case 9 => b5 / 2 % 8
    case 10 => 4 * (b5 % 2) + b6 / 64
    case 11 => b6 / 8 % 8
    case _ => b6 % 8
  }

  lemma PulseParts(b2: byte, b3: byte, b4: byte, b5: byte, b6: byte, k: nat)
    requires k < 13
    ensures VoipPulse(b2, b3, b4, b5, b6, k) == PulseBits(b2, b3, b4, b5, b6, k)
  {
    hide Over1, Over2;
    TopBits(b3);
    TopBits(b4);
    TopBits(b5);
    TopBits(b6);
  }

  /** Masks that keep the whole shifted byte. */
  lemma TopBits(b: byte)
    ensures b / 64 % 4 == b / 64 && b / 32 % 8 == b / 32 && b / 128 % 2 == b / 128
  {
  }

  lemma VoipSubParts(c: seq<byte>)
    requires |c| == 7
    ensures var s := VoipSubFrame(c);
            && s.nc == c[0] / 2 && s.bc == 2 * (c[0] % 2) + c[1] / 128 && s.p.mc == c[1] / 32 % 4
            && s.p.xmaxc == 2 * (c[1] % 32) + c[2] / 128
            && forall k :: 0 <= k < 13 ==> s.p.xMc[k] == VoipPulse(c[2], c[3], c[4], c[5], c[6], k)
  {
    hide VoipPulse;
  }

  lemma PulsesOfBytes(b2: byte, b3: byte, b4: byte, b5: byte, b6: byte)
    ensures VoipPulse(b2, b3, b4, b5, b6, 0) == b2 / 16 % 8
    ensures 8 * (8 * (8 * (8 * (8 * Int(VoipPulse(b2, b3, b4, b5, b6, 1)) + Int(VoipPulse(b2, b3, b4, b5, b6, 2)))
            + Int(VoipPulse(b2, b3, b4, b5, b6, 3))) + Int(VoipPulse(b2, b3, b4, b5, b6, 4)))
            + Int(VoipPulse(b2, b3, b4, b5, b6, 5))) + Int(VoipPulse(b2, b3, b4, b5, b6, 6))
            == 0x4000 * (b2 % 16) + 0x40 * b3 + b4 / 4
    ensures 8 * (8 * (8 * (8 * (8 * Int(VoipPulse(b2, b3, b4, b5, b6, 7)) + Int(VoipPulse(b2, b3, b4, b5, b6, 8)))
            + Int(VoipPulse(b2, b3, b4, b5, b6, 9))) + Int(VoipPulse(b2, b3, b4, b5, b6, 10)))
            + Int(VoipPulse(b2, b3, b4, b5, b6, 11))) + Int(VoipPulse(b2, b3, b4, b5, b6, 12))
            == 0x1_0000 * (b4 % 4) + 0x100 * b5 + b6
  {
    hide VoipPulse;
    forall k: nat | k < 13 ensures VoipPulse(b2, b3, b4, b5, b6, k) == PulseBits(b2, b3, b4, b5, b6, k) {
      PulseParts(b2, b3, b4, b5, b6, k);
    }
    PulsesArith(b2, b3, b4);
    TailArith(b4, b5, b6);
  }

  lemma HeadArith(b0: byte, b1: byte, b2: byte)
    ensures 8 * (64 * (4 * (4 * (b0 / 2) + 2 * (b0 % 2) + b1 / 128) + b1 / 32 % 4) + 2 * (b1 % 32) + b2 / 128)
            + b2 / 16 % 8 == 0x1000 * b0 + 0x10 * b1 + b2 / 16
  {
    Cut128(b1);
    assert b2 / 128 == b2 / 16 / 8;
  }

  lemma PulsesArith(b2: byte, b3: byte, b4: byte)
    ensures 8 * (8 * (8 * (8 * (8 * (b2 / 2 % 8) + 4 * (b2 % 2) + b3 / 64) + b3 / 8 % 8) + b3 % 8) + b4 / 32)
            + b4 / 4 % 8 == 0x4000 * (b2 % 16) + 0x40 * b3 + b4 / 4
  {
    Cut643(b3);
    assert b4 / 32 == b4 / 4 / 8;
    assert b2 % 16 == 2 * (b2 / 2 % 8) + b2 % 2;
  }

  lemma TailArith(b4: byte, b5: byte, b6: byte)
    ensures 8 * (8 * (8 * (8 * (8 * (2 * (b4 % 4) + b5 / 128) + b5 / 16 % 8) + b5 / 2 % 8)
            + 4 * (b5 % 2) + b6 / 64) + b6 / 8 % 8) + b6 % 8 == 0x1_0000 * (b4 % 4) + 0x100 * b5 + b6
  {
    Cut1284(b5);
    Cut643(b6);
  }

  method UnpackVoip(code: seq<byte>) returns (f: Frame)
    requires |code| == 33
    ensures CarriesVoip(code, code[0] / 16, f)
  {
    hide VoipLars, VoipSubFrame, LarFields, SubFields, LarsFit, SubFits, MsbValue, Width, Bytes;
    var larc := VoipLars(code[..5]);
    VoipLarsValue(code[..5]);
    ghost var fields := [Field(code[0] / 16, 4)] + LarFields(larc);
    var subs: seq<SubFrame> := [];
    assert fields + SubsFields(subs, 0) == fields;
    for i := 0 to 4
      invariant |subs| == i && forall k :: 0 <= k < i ==> SubFits(subs[k])
      invariant MsbValue(Bytes(code[..5 + 7 * i])) == MsbValue(fields + SubsFields(subs, i))
    {
      var piece := code[5 + 7 * i..12 + 7 * i];
      var s := VoipSubFrame(piece);
      VoipSubFrameValue(piece);
      ExtendEqual(Bytes(code[..5 + 7 * i]), fields + SubsFields(subs, i), Bytes(piece), SubFields(s));
      BytesConcat(code[..5 + 7 * i], piece);
      assert code[..5 + 7 * i] + piece == code[..5 + 7 * (i + 1)];
      SubsFieldsSnoc(subs, s, i);
      assert fields + SubsFields(subs, i) + SubFields(s) == fields + SubsFields(subs + [s], i + 1);
      subs := subs + [s];
    }
    f := Frame(larc, subs);
    assert code[..33] == code;
    assert fields + SubsFields(subs, 4) == [Field(code[0] / 16, 4)] + FrameFields(f);
  }

  /** Two 33 byte blocks are equal exactly when they carry the same nibble and frame. With
      the contracts of the packer and the unpacker: unpacking what was packed gives the
      frame back, and packing what was unpacked gives the block back whenever its magic
      nibble was 0xD. */
  lemma VoipBijective(c: seq<byte>, m: nat, f: Frame, d: seq<byte>, n: nat, g: Frame)
    requires CarriesVoip(c, m, f) && CarriesVoip(d, n, g)
    ensures c == d <==> m == n && f == g
  {
    hide FrameFields, MsbValue, Bytes, FrameFits, Pow2;
    var a, b := [Field(m, 4)] + FrameFields(f), [Field(n, 4)] + FrameFields(g);
    if c == d {
      FrameFieldsFit(f);
      FrameFieldsFit(g);
      FrameShape(f, g);
      Pow2Table();
      MsbUnique(a, b);
      assert a[0] == b[0] && a[1..] == FrameFields(f) && b[1..] == FrameFields(g);
      FrameDetermined(f, g);
    }
    if m == n && f == g {
      BytesUnique(c, d);
    }
  }

  // ---------------------------------------------------------------- one parameter a byte

  /** The parameters of a sub-segment from byte i on. */
  ghost predicate IsPlainSub(code: seq<byte>, i: nat, s: SubFrame) {
    && i + 17 <= |code|
    && s.nc == code[i] && s.bc == code[i + 1] && s.p.mc == code[i + 2] && s.p.xmaxc == code[i + 3]
    && forall k :: 0 <= k < 13 ==> s.p.xMc[k] == code[i + 4 + k]
  }

  /** The 76 bytes are the parameters of frame f. */
  ghost predicate IsPlain(code: seq<byte>, f: Frame) {
    && |code| == 76
    && (forall j :: 0 <= j < 8 ==> f.larc[j] == code[j])
    && forall j :: 0 <= j < 4 ==> IsPlainSub(code, 8 + 17 * j, f.subs[j])
  }

  /** The same up to the conversion to a byte. */
  ghost predicate HoldsLowSub(code: seq<byte>, i: nat, s: SubFrame) {
    && i + 17 <= |code|
    && s.nc % 0x100 == code[i] && s.bc % 0x100 == code[i + 1]
    && s.p.mc % 0x100 == code[i + 2] && s.p.xmaxc % 0x100 == code[i + 3]
    && forall k :: 0 <= k < 13 ==> s.p.xMc[k] % 0x100 == code[i + 4 + k]
  }

  /** The 76 bytes are the low bytes of the parameters of frame f. */
  ghost predicate HoldsLow(code: seq<byte>, f: Frame) {
    && |code| == 76
    && (forall j :: 0 <= j < 8 ==> f.larc[j] % 0x100 == code[j])
    && forall j :: 0 <= j < 4 ==> HoldsLowSub(code, 8 + 17 * j, f.subs[j])
  }

  ghost predicate SubInBytes(s: SubFrame) {
    && 0 <= s.nc < 0x100 && 0 <= s.bc < 0x100 && 0 <= s.p.mc < 0x100 && 0 <= s.p.xmaxc < 0x100
    && forall k :: 0 <= k < 13 ==> 0 <= s.p.xMc[k] < 0x100
  }

  /** Every parameter is a byte. */
  ghost predicate FrameInBytes(f: Frame) {
    (forall j :: 0 <= j < 8 ==> 0 <= f.larc[j] < 0x100) && forall j :: 0 <= j < 4 ==> SubInBytes(f.subs[j])
  }

  lemma FittingInBytes(f: Frame)
    requires FrameFits(f)
    ensures FrameInBytes(f)
  {
    forall j | 0 <= j < 4 ensures SubInBytes(f.subs[j]) {
      assert SubFits(f.subs[j]);
    }
  }

  lemma LowSubIsPlain(code: seq<byte>, i: nat, s: SubFrame)
    requires HoldsLowSub(code, i, s)
    ensures IsPlainSub(code, i, s) <==> SubInBytes(s)
  {
    if IsPlainSub(code, i, s) {
      forall k | 0 <= k < 13 ensures 0 <= s.p.xMc[k] < 0x100 {
        assert s.p.xMc[k] == code[i + 4 + k];
      }
    }
  }

  /** The format keeps a frame if and only if every parameter is a byte. */
  lemma PlainKeeps(code: seq<byte>, f: Frame)
    requires HoldsLow(code, f)
    ensures IsPlain(code, f) <==> FrameInBytes(f)
  {
    hide HoldsLowSub, IsPlainSub, SubInBytes;
    forall j | 0 <= j < 4 ensures IsPlainSub(code, 8 + 17 * j, f.subs[j]) <==> SubInBytes(f.subs[j]) {
      LowSubIsPlain(code, 8 + 17 * j, f.subs[j]);
    }
  }

  lemma LowSubExtend(code: seq<byte>, more: seq<byte>, i: nat, s: SubFrame)
    requires HoldsLowSub(code, i, s)
    ensures HoldsLowSub(code + more, i, s)
  {
  }

  method PackPlainSub(s: SubFrame, head: seq<byte>) returns (code: seq<byte>)
    ensures |code| == |head| + 17 && code[..|head|] == head && HoldsLowSub(code, |head|, s)
  {
    code := head + [s.nc % 0x100, s.bc % 0x100, s.p.mc % 0x100, s.p.xmaxc % 0x100];
    for k := 0 to 13
      invariant |code| == |head| + 4 + k && code[..|head|] == head
      invariant code[|head|] == s.nc % 0x100 && code[|head| + 1] == s.bc % 0x100
      invariant code[|head| + 2] == s.p.mc % 0x100 && code[|head| + 3] == s.p.xmaxc % 0x100
      invariant forall i :: 0 <= i < k ==> s.p.xMc[i] % 0x100 == code[|head| + 4 + i]
    {
      code := code + [s.p.xMc[k] % 0x100];
    }
  }

  /** gsm0610_pack_none, which packs any frame. */
  method PackPlain(f: Frame) returns (code: seq<byte>)
    ensures HoldsLow(code, f)
  {
    hide HoldsLowSub;
    code := [];
    for j := 0 to 8
      invariant |code| == j && forall i :: 0 <= i < j ==> code[i] == f.larc[i] % 0x100
    {
      code := code + [f.larc[j] % 0x100];
    }
    for j := 0 to 4
      invariant |code| == 8 + 17 * j && forall i :: 0 <= i < 8 ==> code[i] == f.larc[i] % 0x100
      invariant forall i :: 0 <= i < j ==> HoldsLowSub(code, 8 + 17 * i, f.subs[i])
    {
      var head := code;
      code := PackPlainSub(f.subs[j], head);
      assert code == head + code[8 + 17 * j..];
      forall i | 0 <= i < j ensures HoldsLowSub(code, 8 + 17 * i, f.subs[i]) {
        LowSubExtend(head, code[8 + 17 * j..], 8 + 17 * i, f.subs[i]);
      }
    }
  }

  /** A byte as a parameter. */
  function Widen(b: byte): int16 { b }

  method UnpackPlain(code: seq<byte>) returns (f: Frame)
    requires |code| == 76
    ensures IsPlain(code, f)
  {
    var larc: seq<int16> := [];
    for j := 0 to 8
      invariant |larc| == j && forall i :: 0 <= i < j ==> larc[i] == code[i]
    {
      larc := larc + [Widen(code[j])];
    }
    var subs: seq<SubFrame> := [];
    for j := 0 to 4
      invariant |subs| == j && forall i :: 0 <= i < j ==> IsPlainSub(code, 8 + 17 * i, subs[i])
    {
      var i := 8 + 17 * j;
      var xMc: seq<int16> := [];
      for k := 0 to 13
        invariant |xMc| == k && forall m :: 0 <= m < k ==> xMc[m] == code[i + 4 + m]
      {
        xMc := xMc + [Widen(code[i + 4 + k])];
      }
      subs := subs + [SubFrame(code[i], code[i + 1], Excitation(code[i + 3], code[i + 2], xMc))];
    }
    f := Frame(larc, subs);
  }

  lemma PlainSubDetermined(c: seq<byte>, i: nat, s: SubFrame, t: SubFrame)
    requires IsPlainSub(c, i, s) && IsPlainSub(c, i, t)
    ensures s == t
  {
    assert s.p.xMc == t.p.xMc;
  }

  /** Two plain blocks are equal exactly when their frames are. */
  lemma PlainBijective(c: seq<byte>, f: Frame, d: seq<byte>, g: Frame)
    requires IsPlain(c, f) && IsPlain(d, g)
    ensures c == d <==> f == g
  {
    if c == d {
      forall j | 0 <= j < 4 ensures f.subs[j] == g.subs[j] {
        PlainSubDetermined(c, 8 + 17 * j, f.subs[j], g.subs[j]);
      }
      assert f.larc == g.larc && f.subs == g.subs;
    }
    if f == g {
      forall n | 0 <= n < 76 ensures c[n] == d[n] {
        if n >= 8 { PlainByte(c, d, f.subs[(n - 8) / 17], n, 8 + 17 * ((n - 8) / 17)); }
      }
    }
  }

  lemma PlainByte(c: seq<byte>, d: seq<byte>, s: SubFrame, n: nat, i: nat)
    requires IsPlainSub(c, i, s) && IsPlainSub(d, i, s) && i <= n < i + 17
    ensures c[n] == d[n]
  {
    if n >= i + 4 { assert s.p.xMc[n - i - 4] == c[i + 4 + (n - i - 4)]; }
  }

  /** The bytes of a sub-segment that the decoder uses as indices are in range. */
  predicate PlainSubDecodes(code: seq<byte>, i: nat)
    requires i + 17 <= |code|
  {
    && code[i + 1] < 4 && code[i + 2] < 4 && code[i + 3] < 64
    && forall n: nat :: i + 4 <= n < i + 17 ==> code[n] < 8
  }

  predicate PlainUnitDecodes(unit: seq<byte>)
    requires |unit| == 76
  {
    PlainSubDecodes(unit, 8) && PlainSubDecodes(unit, 25) && PlainSubDecodes(unit, 42) && PlainSubDecodes(unit, 59)
  }

  lemma PlainSubDecodesIff(code: seq<byte>, i: nat, s: SubFrame)
    requires IsPlainSub(code, i, s)
    ensures SubDecodes(s) <==> PlainSubDecodes(code, i)
  {
    if SubDecodes(s) {
      forall n: nat | i + 4 <= n < i + 17 ensures code[n] < 8 {
        assert s.p.xMc[n - i - 4] == code[i + 4 + (n - i - 4)];
      }
    }
  }

  /** The unmasked bytes of the format give a frame the decoder can use if and only if its
      index bytes are in range. */
  lemma PlainUnitDecodesIff(unit: seq<byte>, f: Frame)
    requires IsPlain(unit, f)
    ensures FrameDecodes(f) <==> PlainUnitDecodes(unit)
  {
    hide IsPlainSub, SubDecodes, PlainSubDecodes;
    PlainSubDecodesIff(unit, 8 + 17 * 0, f.subs[0]);
    PlainSubDecodesIff(unit, 8 + 17 * 1, f.subs[1]);
    PlainSubDecodesIff(unit, 8 + 17 * 2, f.subs[2]);
    PlainSubDecodesIff(unit, 8 + 17 * 3, f.subs[3]);
  }

  /** A block of zeros with a 4 for the first gain: unpacked, the gain indexes past the end
      of the four entries of gsm_QLB. */
  lemma PlainCanFail(unit: seq<byte>, f: Frame)
    requires |unit| == 76 && unit[9] == 4 && (forall i :: 0 <= i < 76 && i != 9 ==> unit[i] == 0)
    requires IsPlain(unit, f)
    ensures f.subs[0].bc == 4 && !FrameDecodes(f)
  {
    assert IsPlainSub(unit, 8 + 17 * 0, f.subs[0]);
    assert !SubDecodes(f.subs[0]);
  }
}
