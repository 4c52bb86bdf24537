/** The 80 bit frame of BroadVoice16 (section 3 of RFC 4298): packed into ten bytes, and as
    the bit array of the ITU-T G.192 format. */
module Bv16Packing {
  import opened FixedPoint
  import opened Bits

  type Lspidx = s: seq<nat> | |s| == 2 witness [0, 0]
  type Qvidx = s: seq<nat> | |s| == 10 witness seq(10, _ => 0)

  /** BV16_Bit_Stream */
  datatype Frame = Frame(lspidx: Lspidx, ppidx: nat, bqidx: nat, gidx: nat, qvidx: Qvidx)

  /** The fifteen indices in the order of the structure's members. */
  function Indices(f: Frame): (ix: seq<nat>)
    ensures |ix| == 15
  {
    f.lspidx + [f.ppidx, f.bqidx, f.gidx] + f.qvidx
  }

  lemma IndicesDetermine(f: Frame, g: Frame)
    requires Indices(f) == Indices(g)
    ensures f == g
  {
    var a, b := Indices(f), Indices(g);
    assert a[..2] == f.lspidx && b[..2] == g.lspidx;
    assert a[2] == f.ppidx && b[2] == g.ppidx && a[3] == f.bqidx && b[3] == g.bqidx;
    assert a[4] == f.gidx && b[4] == g.gidx;
    assert a[5..] == f.qvidx && b[5..] == g.qvidx;
  }

  /** bit_table_16 */
  function BitTable(n: nat): (w: nat)
    requires n < 15
    ensures 4 <= w <= 7
  {
    if n < 3 then 7 else if n == 4 then 4 else 5
  }

  ghost predicate FrameFits(f: Frame) {
    forall n :: 0 <= n < 15 ==> Indices(f)[n] < Pow2(BitTable(n))
  }

  /** The first n indices as fields. */
  function FieldsTo(ix: seq<nat>, n: nat): (fs: seq<Field>)
    requires n <= 15 && n <= |ix|
    ensures |fs| == n
  {
    if n == 0 then [] else FieldsTo(ix, n - 1) + [Field(ix[n - 1], BitTable(n - 1))]
  }

  function Fields(f: Frame): (fs: seq<Field>)
    ensures |fs| == 15
  {
    FieldsTo(Indices(f), 15)
  }

  lemma {:induction false} FieldsAt(ix: seq<nat>, n: nat, i: nat)
    requires i < n <= 15 && n <= |ix|
    ensures FieldsTo(ix, n)[i] == Field(ix[i], BitTable(i))
  {
    if i >= n - 1 {
    } else {
      FieldsAt(ix, n - 1, i);
    }
  }

  /** The ten bytes carry the frame: as numbers with the first bit highest they are equal. */
  ghost predicate CarriesFrame(code: seq<byte>, f: Frame) {
    |code| == 10 && FrameFits(f) && MsbValue(Bytes(code)) == MsbValue(Fields(f))
  }

  /** Ten byte blocks and frames that fit correspond one to one. */
  lemma PackingBijective(c: seq<byte>, f: Frame, d: seq<byte>, g: Frame)
    requires CarriesFrame(c, f) && CarriesFrame(d, g)
    ensures c == d <==> f == g
  {
    hide Indices, MsbValue, Bytes, FieldsTo, BitTable, Pow2;
    if c == d {
      var a, b := Fields(f), Fields(g);
      forall i | 0 <= i < 15 ensures a[i] == Field(Indices(f)[i], BitTable(i)) && b[i] == Field(Indices(g)[i], BitTable(i)) {
        FieldsAt(Indices(f), 15, i);
        FieldsAt(Indices(g), 15, i);
      }
      MsbUnique(a, b);
      forall i | 0 <= i < 15 ensures Indices(f)[i] == Indices(g)[i] {
        assert a[i] == b[i];
      }
      assert Indices(f) == Indices(g);
      IndicesDetermine(f, g);
    }
    if f == g {
      BytesUnique(c, d);
    }
  }

  // ---------------------------------------------------------------- packing

  /** The packer: fields are or-ed in below the pending bits of a 32 bit word, whose upper
      half leaves as two bytes. The p pending bits are top aligned and have the value v. */
  ghost predicate TopAligned(reg: nat, v: nat, p: nat, fields: seq<Field>, code: seq<byte>) {
    && p <= 32 && v < Pow2(p) && reg == Shl(v, 32 - p)
    && MsbValue(fields) == Shl(MsbValue(Bytes(code)), p) + v
  }

  lemma StartPacking(fields: seq<Field>, code: seq<byte>)
    requires fields == [] && code == []
    ensures TopAligned(0, 0, 0, fields, code)
  {
    hide Shl;
    ShlZero(32);
    ShlZero(0);
    assert Bytes(code) == [];
  }

  /** word |= f << (32 - p - w) */
  lemma FieldEnters(reg: nat, v: nat, p: nat, fields: seq<Field>, code: seq<byte>, f: nat, w: nat)
    requires TopAligned(reg, v, p, fields, code) && f < Pow2(w) && p + w <= 32
    ensures TopAligned(BitOr(reg, Shl(f, 32 - p - w)), Shl(v, w) + f, p + w, fields + [Field(f, w)], code)
  {
    hide Shl, BitOr, MsbValue, Bytes, Pow2;
    var k := 32 - p - w;
    ValueSnoc(fields, Field(f, w));
    JoinBound(f, v, w, p);
    JoinBound(0, f, k, w);
    ShlShl(v, w, k);
    ShlAdd(Shl(v, w), f, k);
    OrAbove(Shl(f, k), v, k + w);
    ShlAdd(Shl(MsbValue(Bytes(code)), p), v, w);
    ShlShl(MsbValue(Bytes(code)), p, w);
  }

  lemma WordHalves(h: nat, r: nat)
    requires h < 0x1_0000 && r < 0x1_0000
    ensures var reg := 0x1_0000 * h + r;
            && Shr(reg, 24) == h / 0x100
            && Shr(reg * 0x100 % 0x1_0000_0000, 24) == h % 0x100
            && reg * 0x1_0000 % 0x1_0000_0000 == 0x1_0000 * r
  {
    hide Shr;
    var reg := 0x1_0000 * h + r;
    Shr24(reg);
    WordRemainders(h, r);
    Shr24(reg * 0x100 % 0x1_0000_0000);
  }

  lemma WordRemainders(h: nat, r: nat)
    requires h < 0x1_0000 && r < 0x1_0000
    ensures var reg := 0x1_0000 * h + r;
            && reg * 0x100 % 0x1_0000_0000 == 0x100_0000 * (h % 0x100) + 0x100 * r
            && reg * 0x1_0000 % 0x1_0000_0000 == 0x1_0000 * r
  {
    var reg := 0x1_0000 * h + r;
    DivIs(reg * 0x100, 0x1_0000_0000, h / 0x100, 0x100_0000 * (h % 0x100) + 0x100 * r);
    DivIs(reg * 0x1_0000, 0x1_0000_0000, h, 0x1_0000 * r);
  }

  lemma Shr24(x: nat)
    ensures Shr(x, 24) == x / 0x100_0000
  {
    hide Shr;
    ShrShr(x, 8, 16);
    ShrShr(x / 0x100, 8, 8);
    ShrTable(x);
    ShrTable(x / 0x100);
    ShrTable(x / 0x1_0000);
  }

  lemma Shl16(x: nat)
    ensures Shl(x, 16) == 0x1_0000 * x
  {
    hide Shl;
    ShlShl(x, 8, 8);
    ShlTable(x);
    ShlTable(0x100 * x);
  }

  /** Two bytes appended to a stream. */
  lemma TwoBytes(code: seq<byte>, h: nat)
    requires h < 0x1_0000
    ensures MsbValue(Bytes(code + [h / 0x100, h % 0x100])) == Shl(MsbValue(Bytes(code)), 16) + h
  {
    hide Shl, MsbValue, Bytes;
    var b0: byte, b1: byte := h / 0x100, h % 0x100;
    var m := MsbValue(Bytes(code));
    assert code + [b0, b1] == code + [b0] + [b1];
    BytesSnoc(code, b0);
    BytesSnoc(code + [b0], b1);
    ValueSnoc(Bytes(code), Field(b0, 8));
    ValueSnoc(Bytes(code + [b0]), Field(b1, 8));
    ShlTable(m);
    ShlTable(0x100 * m + b0);
    Shl16(m);
  }

  /** The upper half leaves as two bytes, (word >> 24) and ((word << 8) >> 24), and the
      word moves up by sixteen. */
  lemma BytesLeave(reg: nat, v: nat, p: nat, fields: seq<Field>, code: seq<byte>)
    requires TopAligned(reg, v, p, fields, code) && 16 <= p
    ensures var b0, b1 := Shr(reg, 24), Shr(reg * 0x100 % 0x1_0000_0000, 24);
            && b0 < 0x100 && b1 < 0x100
            && TopAligned(reg * 0x1_0000 % 0x1_0000_0000, Low(v, p - 16), p - 16, fields, code + [b0, b1])
  {
    hide Shl, Shr, Low, MsbValue, Bytes, Pow2;
    var q := p - 16;
    var h, lo := Shr(v, q), Low(v, q);
    var r := Shl(lo, 16 - q);
    var m := MsbValue(Bytes(code));
    SplitAt(v, q);
    ShrBound(v, q, 16);
    Pow2Table();
    JoinBound(0, lo, 16 - q, q);
    ShlAdd(lo, Shl(h, q), 16 - q);
    ShlShl(h, q, 16 - q);
    Shl16(h);
    WordHalves(h, r);
    Shl16(r);
    ShlShl(lo, 16 - q, 16);
    TwoBytes(code, h);
    ShlAdd(Shl(m, 16), h, q);
    ShlShl(m, 16, q);
  }

  class Packer {
    var word: nat
    var code: seq<byte>
    ghost var fields: seq<Field>
    ghost var v: nat
    ghost var pending: nat

    ghost predicate Valid()
      reads this
    {
      TopAligned(word, v, pending, fields, code)
    }

    constructor ()
      ensures Valid() && pending == 0 && fields == [] && code == []
    {
      hide TopAligned;
      word, code, fields, v, pending := 0, [], [], 0, 0;
      new;
      StartPacking(fields, code);
    }

    /** temppack |= f << shift, for index n of the frame. */
    method Put(f: nat, shift: nat, ghost ix: seq<nat>, ghost n: nat)
      requires Valid() && n < 15 && n < |ix| && f == ix[n] < Pow2(BitTable(n))
      requires fields == FieldsTo(ix, n) && pending + BitTable(n) + shift == 32
      modifies this
      ensures Valid() && pending == old(pending) + BitTable(n) && code == old(code)
      ensures fields == FieldsTo(ix, n + 1)
    {
      hide TopAligned, Pow2, Shl, BitOr;
      FieldEnters(word, v, pending, fields, code, f, BitTable(n));
      word := BitOr(word, Shl(f, shift));
      v := Shl(v, BitTable(n)) + f;
      pending := pending + BitTable(n);
      fields := fields + [Field(f, BitTable(n))];
    }

    /** Two bytes out, and temppack <<= 16. */
    method Emit()
      requires Valid() && pending >= 16
      modifies this
      ensures Valid() && pending == old(pending) - 16 && |code| == |old(code)| + 2 && fields == old(fields)
    {
      hide TopAligned, Shr, Low;
      BytesLeave(word, v, pending, fields, code);
      code := code + [Shr(word, 24), Shr(word * 0x100 % 0x1_0000_0000, 24)];
      word := word * 0x1_0000 % 0x1_0000_0000;
      v := Low(v, pending - 16);
      pending := pending - 16;
    }
  }

  /** Bytes 1 to 4 of BV16_BitPack. */
  method PackHead(f: Frame, p: Packer)
    requires FrameFits(f) && p.Valid() && p.pending == 0 && p.code == [] && p.fields == FieldsTo(Indices(f), 0)
    modifies p
    ensures p.Valid() && p.pending == 3 && |p.code| == 4 && p.fields == FieldsTo(Indices(f), 6)
  {
    hide TopAligned, FieldsTo, Indices, Pow2, FrameFits;
    ghost var ix := Indices(f);
    IndexFits(f);
    IndexIs(f);
    p.Put(f.lspidx[0], 25, ix, 0);
    p.Put(f.lspidx[1], 18, ix, 1);
    p.Put(f.ppidx, 11, ix, 2);
    p.Emit();
    p.Put(f.bqidx, 22, ix, 3);
    p.Put(f.gidx, 18, ix, 4);
    p.Put(f.qvidx[0], 13, ix, 5);
    p.Emit();
  }

  /** Bytes 5 to 10. */
  method PackTail(f: Frame, p: Packer)
    requires FrameFits(f) && p.Valid() && p.pending == 3 && |p.code| == 4 && p.fields == FieldsTo(Indices(f), 6)
    modifies p
    ensures p.Valid() && p.pending == 0 && |p.code| == 10 && p.fields == FieldsTo(Indices(f), 15)
  {
    hide TopAligned, FieldsTo, Indices, Pow2, FrameFits;
    ghost var ix := Indices(f);
    IndexFits(f);
    IndexIs(f);
    p.Put(f.qvidx[1], 24, ix, 6);
    p.Put(f.qvidx[2], 19, ix, 7);
    p.Put(f.qvidx[3], 14, ix, 8);
    p.Emit();
    p.Put(f.qvidx[4], 25, ix, 9);
    p.Put(f.qvidx[5], 20, ix, 10);
    p.Put(f.qvidx[6], 15, ix, 11);
    p.Emit();
    p.Put(f.qvidx[7], 26, ix, 12);
    p.Put(f.qvidx[8], 21, ix, 13);
    p.Put(f.qvidx[9], 16, ix, 14);
    p.Emit();
  }

  /** BV16_BitPack */
  method BitPack(f: Frame) returns (code: seq<byte>)
    requires FrameFits(f)
    ensures CarriesFrame(code, f)
  {
    hide TopAligned, FieldsTo, Indices, Pow2, FrameFits, MsbValue, Bytes;
    NoFields(Indices(f));
    var p := new Packer();
    PackHead(f, p);
    PackTail(f, p);
    AllSent(p);
    code := p.code;
  }

  lemma AllSent(p: Packer)
    requires p.Valid() && p.pending == 0
    ensures MsbValue(Bytes(p.code)) == MsbValue(p.fields)
  {
    hide MsbValue, Bytes;
  }

  lemma IndexFits(f: Frame)
    requires FrameFits(f)
    ensures forall n :: 0 <= n < 15 ==> Indices(f)[n] < Pow2(BitTable(n))
  {
  }

  lemma IndexIs(f: Frame)
    ensures var ix := Indices(f);
            && ix[0] == f.lspidx[0] && ix[1] == f.lspidx[1] && ix[2] == f.ppidx && ix[3] == f.bqidx && ix[4] == f.gidx
            && forall k :: 0 <= k < 10 ==> ix[5 + k] == f.qvidx[k]
  {
  }

  lemma NoFields(ix: seq<nat>)
    requires |ix| == 15
    ensures FieldsTo(ix, 0) == []
  {
  }

  // ---------------------------------------------------------------- unpacking

  lemma {:induction false} LowLow(x: nat, p: nat, q: nat)
    requires q <= p
    ensures Low(Low(x, p), q) == Low(x, q)
  {
    if q == 0 {
    } else {
      LowLow(x / 2, p - 1, q - 1);
    }
  }

  /** The p pending bits are the lowest of the word. */
  ghost predicate BottomAligned(word: nat, p: nat, fields: seq<Field>, read: seq<byte>) {
    MsbValue(Bytes(read)) == Shl(MsbValue(fields), p) + Low(word, p)
  }

  /** word = ((word & mask) << 8) | b */
  lemma ByteEnters(word: nat, p: nat, fields: seq<Field>, read: seq<byte>, b: byte)
    requires BottomAligned(word, p, fields, read)
    ensures var next := BitOr(Shl(Low(word, p), 8), b);
            next < Pow2(p + 8) && BottomAligned(next, p + 8, fields, read + [b])
  {
    hide Shl, BitOr, Low, MsbValue, Bytes, Pow2;
    var v := Low(word, p);
    SplitAt(word, p);
    Pow2Table();
    OrAbove(b, v, 8);
    JoinBound(b, v, 8, p);
    LowWhole(b + Shl(v, 8), p + 8);
    BytesSnoc(read, b);
    ValueSnoc(Bytes(read), Field(b, 8));
    ShlAdd(Shl(MsbValue(fields), p), v, 8);
    ShlShl(MsbValue(fields), p, 8);
  }

  /** field = (word & mask) >> (p - w) */
  lemma FieldLeaves(word: nat, p: nat, fields: seq<Field>, read: seq<byte>, w: nat)
    requires BottomAligned(word, p, fields, read) && w <= p
    ensures var f := Shr(Low(word, p), p - w);
            f < Pow2(w) && BottomAligned(word, p - w, fields + [Field(f, w)], read)
  {
    hide Shl, Shr, Low, MsbValue, Bytes, Pow2;
    var v, q := Low(word, p), p - w;
    var f := Shr(v, q);
    SplitAt(word, p);
    ShrBound(v, q, w);
    SplitAt(v, q);
    LowLow(word, p, q);
    ValueSnoc(fields, Field(f, w));
    ShlAdd(Shl(MsbValue(fields), w), f, q);
    ShlShl(MsbValue(fields), w, q);
  }

  class Unpacker {
    const code: seq<byte>
    var c: nat
    var word: nat
    ghost var got: seq<nat>
    ghost var pending: nat

    ghost predicate Valid()
      reads this
    {
      && c <= |code| && |got| <= 15
      && (forall n :: 0 <= n < |got| ==> got[n] < Pow2(BitTable(n)))
      && BottomAligned(word, pending, FieldsTo(got, |got|), code[..c])
    }

    constructor (code: seq<byte>)
      ensures Valid() && c == 0 && word == 0 && pending == 0 && got == [] && this.code == code
    {
      hide BottomAligned, Pow2;
      this.code, c, word, got, pending := code, 0, 0, [], 0;
      new;
      StartUnpacking(got, code[..c]);
    }

    /** bitword32 = ((bitword32 & mask) << 8) | *PackedStream++, for a mask of k ones */
    method Load(k: nat)
      requires Valid() && k == pending && k + 8 <= 32 && c < |code|
      modifies this
      ensures Valid() && c == old(c) + 1 && pending == old(pending) + 8 && got == old(got)
      ensures word < Pow2(pending)
    {
      hide BottomAligned, Pow2, BitOr, Shl, Low, Bytes, FieldsTo;
      ByteEnters(word, k, FieldsTo(got, |got|), code[..c], code[c]);
      assert code[..c + 1] == code[..c] + [code[c]];
      word := BitOr(Shl(Low(word, k), 8), code[c]);
      c := c + 1;
      pending := pending + 8;
    }

    /** bitword32 = (bitword32 << 8) | *PackedStream++ */
    method LoadNext()
      requires Valid() && word < Pow2(pending) && pending + 8 <= 32 && c < |code|
      modifies this
      ensures Valid() && c == old(c) + 1 && pending == old(pending) + 8 && got == old(got)
      ensures word < Pow2(pending)
    {
      hide BottomAligned, Pow2, BitOr, Shl, Low, Bytes, FieldsTo;
      LowWhole(word, pending);
      ByteEnters(word, pending, FieldsTo(got, |got|), code[..c], code[c]);
      assert code[..c + 1] == code[..c] + [code[c]];
      word := BitOr(Shl(word, 8), code[c]);
      c := c + 1;
      pending := pending + 8;
    }

    /** (bitword32 & mask) >> shift, for a mask of k ones */
    method Take(k: nat, shift: nat) returns (f: nat)
      requires Valid() && k == pending && |got| < 15 && shift + BitTable(|got|) == k
      modifies this`got, this`pending
      ensures Valid() && pending == shift && got == old(got) + [f]
    {
      hide BottomAligned, Pow2, Shr, Low, Bytes;
      FieldLeaves(word, k, FieldsTo(got, |got|), code[..c], BitTable(|got|));
      f := Shr(Low(word, k), shift);
      FieldsLonger(got, f, |got|);
      pending := shift;
      got := got + [f];
    }

    /** bitword32 >> shift */
    method TakeFirst(shift: nat) returns (f: nat)
      requires Valid() && word < Pow2(pending) && |got| < 15 && shift + BitTable(|got|) == pending
      modifies this`got, this`pending
      ensures Valid() && pending == shift && got == old(got) + [f]
    {
      hide BottomAligned, Pow2, Shr, Low, Bytes;
      LowWhole(word, pending);
      FieldLeaves(word, pending, FieldsTo(got, |got|), code[..c], BitTable(|got|));
      f := Shr(word, shift);
      FieldsLonger(got, f, |got|);
      pending := shift;
      got := got + [f];
    }
  }

  lemma {:induction false} FieldsLonger(ix: seq<nat>, f: nat, n: nat)
    requires n <= 15 && n <= |ix|
    ensures FieldsTo(ix + [f], n) == FieldsTo(ix, n)
  {
    if n == 0 {
    } else {
      FieldsLonger(ix, f, n - 1);
    }
  }

  lemma StartUnpacking(ix: seq<nat>, read: seq<byte>)
    requires ix == [] && read == []
    ensures BottomAligned(0, 0, FieldsTo(ix, |ix|), read)
  {
    assert FieldsTo(ix, |ix|) == [] && Bytes(read) == [];
  }

  /** Bytes 1 to 6 of BV16_BitUnPack. */
  method UnpackHead(u: Unpacker) returns (l0: nat, l1: nat, pp: nat, bq: nat, g: nat, q0: nat, q1: nat, q2: nat)
    requires u.Valid() && u.c == 0 && u.word == 0 && u.pending == 0 && u.got == [] && |u.code| == 10
    modifies u
    ensures u.Valid() && u.c == 6 && u.pending == 3
    ensures u.got == [l0, l1, pp, bq, g, q0, q1, q2]
  {
    hide BottomAligned, FieldsTo, Pow2, Bytes;
    u.Load(0);
    u.LoadNext();
    l0 := u.TakeFirst(9);
    l1 := u.Take(9, 2);
    u.Load(2);
    u.LoadNext();
    pp := u.TakeFirst(11);
    bq := u.Take(11, 6);
    g := u.Take(6, 2);
    u.Load(2);
    u.LoadNext();
    q0 := u.TakeFirst(13);
    q1 := u.Take(13, 8);
    q2 := u.Take(8, 3);
  }

  /** Bytes 7 to 10. */
  method UnpackTail(u: Unpacker) returns (q3: nat, q4: nat, q5: nat, q6: nat, q7: nat, q8: nat, q9: nat)
    requires u.Valid() && u.c == 6 && u.pending == 3 && |u.got| == 8 && |u.code| == 10
    modifies u
    ensures u.Valid() && u.c == 10 && u.pending == 0
    ensures u.got == old(u.got) + [q3, q4, q5, q6, q7, q8, q9]
  {
    hide BottomAligned, FieldsTo, Pow2, Bytes;
    u.Load(3);
    u.LoadNext();
    q3 := u.TakeFirst(14);
    q4 := u.Take(14, 9);
    q5 := u.Take(9, 4);
    u.Load(4);
    u.LoadNext();
    q6 := u.TakeFirst(15);
    q7 := u.Take(15, 10);
    q8 := u.Take(10, 5);
    q9 := u.Take(5, 0);
  }

  /** BV16_BitUnPack */
  method BitUnPack(code: seq<byte>) returns (f: Frame)
    requires |code| == 10
    ensures CarriesFrame(code, f)
  {
    hide BottomAligned, FieldsTo, Pow2, Bytes, CarriesFrame;
    var u := new Unpacker(code);
    var l0, l1, pp, bq, g, q0, q1, q2 := UnpackHead(u);
    var q3, q4, q5, q6, q7, q8, q9 := UnpackTail(u);
    f := Frame([l0, l1], pp, bq, g, [q0, q1, q2, q3, q4, q5, q6, q7, q8, q9]);
    IndicesOf(f, u.got);
    AllRead(u, f);
  }

  lemma IndicesOf(f: Frame, got: seq<nat>)
    requires |got| == 15 && got[..8] == f.lspidx + [f.ppidx, f.bqidx, f.gidx] + f.qvidx[..3]
    requires got[8..] == f.qvidx[3..]
    ensures Indices(f) == got
  {
    assert got == got[..8] + got[8..] && f.qvidx == f.qvidx[..3] + f.qvidx[3..];
  }

  lemma AllRead(u: Unpacker, f: Frame)
    requires u.Valid() && u.pending == 0 && u.c == |u.code| == 10 && u.got == Indices(f)
    ensures CarriesFrame(u.code, f)
  {
    hide MsbValue, Bytes, Indices, FieldsTo, Pow2;
    assert u.code[..u.c] == u.code;
  }

  // ---------------------------------------------------------------- G.192

  /** The bits of the n lowest positions of index, first the highest. */
  function BitFields(index: nat, n: nat): (fs: seq<Field>)
    ensures |fs| == n
  {
    if n == 0 then [] else BitFields(index / 2, n - 1) + [Field(index % 2, 1)]
  }

  lemma {:induction false} BitFieldsFit(index: nat, n: nat)
    ensures Fits(BitFields(index, n)) && Width(BitFields(index, n)) == n
  {
    if n == 0 {
    } else {
      BitFieldsFit(index / 2, n - 1);
      ValueSnoc(BitFields(index / 2, n - 1), Field(index % 2, 1));
    }
    Pow2Table();
  }

  /** n bits of an index of at most n bits have its value. */
  lemma OneBitUp(x: nat)
    ensures Shl(x, 1) == 2 * x
  {
    ShlTable(x);
  }

  lemma {:induction false} BitFieldsValue(index: nat, n: nat)
    requires index < Pow2(n)
    ensures MsbValue(BitFields(index, n)) == index
  {
    hide Shl;
    if n == 0 {
    } else {
      BitFieldsValue(index / 2, n - 1);
      ValueSnoc(BitFields(index / 2, n - 1), Field(index % 2, 1));
      OneBitUp(index / 2);
    }
  }

  const BIT_0: int16 := 0x7f
  const BIT_1: int16 := 0x81

  /** A G.192 word as a bit: anything but BIT_1 reads as a zero. */
  function SoftBit(x: int16): Field { Field(if x == BIT_1 then 1 else 0, 1) }

  function SoftBits(a: seq<int16>): (fs: seq<Field>)
    ensures |fs| == |a|
  {
    seq(|a|, i requires 0 <= i < |a| => SoftBit(a[i]))
  }

  /** int2bin_16 at bitstream + off: written from the last position back. */
  method Int2Bin(index: nat, n: nat, bitstream: array<int16>, off: nat)
    requires off + n <= bitstream.Length
    modifies bitstream
    ensures SoftBits(bitstream[off..off + n]) == BitFields(index, n)
    ensures forall i :: off <= i < off + n ==> bitstream[i] == BIT_0 || bitstream[i] == BIT_1
    ensures bitstream[..off] == old(bitstream[..off]) && bitstream[off + n..] == old(bitstream[off + n..])
  {
    hide BitFields, SoftBits;
    var ix := index;
    assert SoftBits(bitstream[off + n..off + n]) == BitFields(index, n)[n..] by { NoSoftBits(bitstream[off + n..off + n]); }
    for b := 0 to n
      invariant SoftBits(bitstream[off + n - b..off + n]) == BitFields(index, n)[n - b..]
      invariant BitFields(ix, n - b) == BitFields(index, n)[..n - b]
      invariant forall i :: off + n - b <= i < off + n ==> bitstream[i] == BIT_0 || bitstream[i] == BIT_1
      invariant bitstream[..off] == old(bitstream[..off]) && bitstream[off + n..] == old(bitstream[off + n..])
    {
      ghost var tail := bitstream[off + n - b..off + n];
      bitstream[off + n - 1 - b] := if ix % 2 == 1 then BIT_1 else BIT_0;
      assert bitstream[off + n - b..off + n] == tail;
      assert bitstream[off + n - 1 - b..off + n] == [bitstream[off + n - 1 - b]] + tail;
      NextBit(index, n, ix, b, tail, bitstream[off + n - 1 - b]);
      ix := ix / 2;
    }
  }

  /** A bit written in front of those below it. */
  lemma NextBit(index: nat, n: nat, ix: nat, b: nat, tail: seq<int16>, x: int16)
    requires b < n && x == (if ix % 2 == 1 then BIT_1 else BIT_0)
    requires SoftBits(tail) == BitFields(index, n)[n - b..]
    requires BitFields(ix, n - b) == BitFields(index, n)[..n - b]
    ensures SoftBits([x] + tail) == BitFields(index, n)[n - 1 - b..]
    ensures BitFields(ix / 2, n - 1 - b) == BitFields(index, n)[..n - 1 - b]
  {
    var all := BitFields(index, n);
    assert BitFields(ix, n - b) == BitFields(ix / 2, n - b - 1) + [Field(ix % 2, 1)];
    hide BitFields;
    SoftBitsConcat([x], tail);
    assert SoftBits([x]) == [Field(ix % 2, 1)];
    assert all[..n - b][n - 1 - b] == all[n - 1 - b];
    assert all[n - 1 - b..] == [all[n - 1 - b]] + all[n - b..];
    assert all[..n - b][..n - 1 - b] == all[..n - 1 - b];
  }

  /** bin2int_16 */
  method Bin2Int(n: nat, bitstream: seq<int16>) returns (index: nat)
    requires n <= |bitstream|
    ensures index == MsbValue(SoftBits(bitstream[..n])) && index < Pow2(n)
  {
    index := 0;
    for b := 0 to n
      invariant index == MsbValue(SoftBits(bitstream[..b])) && index < Pow2(b)
    {
      assert bitstream[..b + 1] == bitstream[..b] + [bitstream[b]];
      assert SoftBits(bitstream[..b + 1]) == SoftBits(bitstream[..b]) + [SoftBit(bitstream[b])];
      ValueSnoc(SoftBits(bitstream[..b]), SoftBit(bitstream[b]));
      ShlTable(MsbValue(SoftBits(bitstream[..b])));
      index := index * 2;
      if bitstream[b] == BIT_1 {
        index := index + 1;
      }
    }
  }

  const SYNC_WORD: int16 := 0x6b21

  /** The bits of the first n indices, each in its width. */
  function FrameBits(ix: seq<nat>, n: nat): (fs: seq<Field>)
    requires n <= 15 && n <= |ix|
  {
    if n == 0 then [] else FrameBits(ix, n - 1) + BitFields(ix[n - 1], BitTable(n - 1))
  }

  /** The bits of a byte string, the highest of each byte first. */
  function ByteBits(code: seq<byte>): (fs: seq<Field>)
    ensures |fs| == 8 * |code|
  {
    if code == [] then [] else ByteBits(code[..|code| - 1]) + BitFields(code[|code| - 1], 8)
  }

  ghost predicate SingleBits(fs: seq<Field>) {
    Fits(fs) && forall i :: 0 <= i < |fs| ==> fs[i].w == 1
  }

  lemma {:induction false} SingleBitsWidth(fs: seq<Field>)
    requires SingleBits(fs)
    ensures Width(fs) == |fs|
  {
    if fs == [] {
    } else {
      SingleBitsWidth(fs[..|fs| - 1]);
    }
  }

  lemma {:induction false} BitFieldsSingle(index: nat, n: nat)
    ensures SingleBits(BitFields(index, n))
  {
    hide Pow2;
    Pow2Table();
    if n == 0 {
    } else {
      BitFieldsSingle(index / 2, n - 1);
    }
  }

  /** One field more, as bits and whole. */
  lemma FieldBits(bits: seq<Field>, fs: seq<Field>, index: nat, w: nat)
    requires SingleBits(bits) && Width(bits) == Width(fs) && MsbValue(bits) == MsbValue(fs) && index < Pow2(w)
    ensures var more, longer := bits + BitFields(index, w), fs + [Field(index, w)];
            SingleBits(more) && Width(more) == Width(longer) && MsbValue(more) == MsbValue(longer)
  {
    hide Pow2, Shl, BitFields;
    BitFieldsSingle(index, w);
    BitFieldsFit(index, w);
    BitFieldsValue(index, w);
    MsbConcat(bits, BitFields(index, w));
    ValueSnoc(fs, Field(index, w));
  }

  lemma {:induction false} FrameBitsValue(ix: seq<nat>, n: nat)
    requires n <= 15 && n <= |ix| && forall k :: 0 <= k < n ==> ix[k] < Pow2(BitTable(k))
    ensures SingleBits(FrameBits(ix, n)) && Width(FrameBits(ix, n)) == Width(FieldsTo(ix, n))
    ensures MsbValue(FrameBits(ix, n)) == MsbValue(FieldsTo(ix, n))
  {
    hide Pow2, BitTable, Width, MsbValue, BitFields;
    if n == 0 {
    } else {
      FrameBitsValue(ix, n - 1);
      FieldBits(FrameBits(ix, n - 1), FieldsTo(ix, n - 1), ix[n - 1], BitTable(n - 1));
    }
  }

  lemma {:induction false} ByteBitsValue(code: seq<byte>)
    ensures SingleBits(ByteBits(code)) && MsbValue(ByteBits(code)) == MsbValue(Bytes(code))
  {
    hide Pow2, Shl, BitFields, Bytes;
    if code == [] {
      assert Bytes(code) == [];
    } else {
      var n := |code| - 1;
      var b := code[n];
      ByteBitsValue(code[..n]);
      BitFieldsSingle(b, 8);
      BitFieldsFit(b, 8);
      assert b < Pow2(8) by { Pow2Table(); }
      BitFieldsValue(b, 8);
      MsbConcat(ByteBits(code[..n]), BitFields(b, 8));
      assert code == code[..n] + [b];
      BytesSnoc(code[..n], b);
      ValueSnoc(Bytes(code[..n]), Field(b, 8));
    }
  }

  lemma FrameBitsCount(ix: seq<nat>)
    requires |ix| == 15
    ensures Width(FieldsTo(ix, 15)) == 80
  {
    hide Width;
    WidthTo(ix, 15);
  }

  /** Bits in the first n entries of the table. */
  function TableSum(n: nat): nat
    requires n <= 15
  {
    if n == 0 then 0 else TableSum(n - 1) + BitTable(n - 1)
  }

  lemma {:induction false} WidthTo(ix: seq<nat>, n: nat)
    requires n <= 15 == |ix|
    ensures Width(FieldsTo(ix, n)) == TableSum(n) == if n <= 4 then (if n == 4 then 26 else 7 * n) else 30 + 5 * (n - 5)
  {
    if n == 0 {
    } else {
      WidthTo(ix, n - 1);
      ValueSnoc(FieldsTo(ix, n - 1), Field(ix[n - 1], BitTable(n - 1)));
    }
  }

  /** The ten packed bytes, read highest bit first, are exactly the 80 bits of the G.192
      frame. */
  lemma PackedBitsAreG192(code: seq<byte>, f: Frame)
    requires CarriesFrame(code, f)
    ensures ByteBits(code) == FrameBits(Indices(f), 15) && |ByteBits(code)| == 80
  {
    hide Indices, Pow2, MsbValue, Width, FieldsTo, FrameBits, ByteBits, Bytes, BitTable;
    var ix := Indices(f);
    FrameBitsValue(ix, 15);
    FrameBitsCount(ix);
    SingleBitsWidth(FrameBits(ix, 15));
    ByteBitsValue(code);
    MsbUnique(ByteBits(code), FrameBits(ix, 15));
  }

  /** The bit array of bv16_fwrite_g192bitstrm; writing it to a file is left out. */
  method WriteG192(f: Frame) returns (words: array<int16>)
    ensures fresh(words) && words.Length == 82 && words[0] == SYNC_WORD && words[1] == 80
    ensures SoftBits(words[2..]) == FrameBits(Indices(f), 15)
    ensures forall i :: 2 <= i < 82 ==> words[i] == BIT_0 || words[i] == BIT_1
  {
    hide Indices, BitFields, SoftBits, FrameBits, TableSum, BitTable;
    words := new int16[82];
    words[0] := SYNC_WORD;
    words[1] := 80;
    var ix := Indices(f);
    var p := 2;
    NothingRead(words[..], []);
    FrameBitsStart(ix, []);
    assert words[..][2..2] == words[2..2];
    for n := 0 to 15
      invariant words[0] == SYNC_WORD && words[1] == 80
      invariant p == 2 + TableSum(n) <= 82
      invariant SoftBits(words[2..p]) == FrameBits(ix, n)
      invariant forall i :: 2 <= i < p ==> words[i] == BIT_0 || words[i] == BIT_1
      modifies words
    {
      var m := BitTable(n);
      TableSumNext(n);
      ghost var before := words[..p];
      Int2Bin(ix[n], m, words, p);
      assert words[..p] == before;
      assert words[2..p] == words[..p][2..] == before[2..];
      assert words[0] == words[..p][0] && words[1] == words[..p][1];
      assert forall i :: 2 <= i < p ==> words[i] == words[..p][i] == before[i];
      WrittenStep(words[..], p, ix, n);
      p := p + m;
    }
    TableSumBound(15);
    assert words[2..82] == words[2..];
  }

  lemma FrameBitsStart(ix: seq<nat>, jx: seq<nat>)
    ensures FrameBits(ix, 0) == FrameBits(jx, 0)
  {
  }

  lemma WrittenStep(words: seq<int16>, p: nat, ix: seq<nat>, n: nat)
    requires n < 15 == |ix| && 2 <= p && p + BitTable(n) <= |words|
    requires SoftBits(words[2..p]) == FrameBits(ix, n)
    requires SoftBits(words[p..p + BitTable(n)]) == BitFields(ix[n], BitTable(n))
    ensures SoftBits(words[2..p + BitTable(n)]) == FrameBits(ix, n + 1)
  {
    hide SoftBits, BitFields, BitTable;
    var m := BitTable(n);
    assert words[2..p + m] == words[2..p] + words[p..p + m];
    SoftBitsConcat(words[2..p], words[p..p + m]);
  }

  lemma {:induction false} TableSumBound(n: nat)
    requires n <= 15
    ensures TableSum(n) == (if n <= 4 then (if n == 4 then 26 else 7 * n) else 30 + 5 * (n - 5))
    ensures TableSum(n) <= 80
  {
    if n == 0 {
    } else {
      TableSumBound(n - 1);
    }
  }

  lemma NoSoftBits(a: seq<int16>)
    requires a == []
    ensures SoftBits(a) == []
  {
  }

  lemma SoftBitsConcat(a: seq<int16>, b: seq<int16>)
    ensures SoftBits(a + b) == SoftBits(a) + SoftBits(b)
  {
  }

  lemma SoftBitsSingle(a: seq<int16>)
    ensures SingleBits(SoftBits(a))
  {
    Pow2Table();
  }

  /** bv16_fread_g192bitstrm on a whole record of 82 words: the bad frame flag, and the one
      frame the bits stand for. */
  method ReadG192(words: seq<int16>) returns (bfi: bool, f: Frame)
    requires |words| == 82
    ensures bfi <==> words[0] != SYNC_WORD
    ensures FrameFits(f) && SoftBits(words[2..]) == FrameBits(Indices(f), 15)
  {
    hide BitFields, SoftBits, Indices, FrameBits, MsbValue, TableSum, BitTable, Pow2;
    bfi := words[0] != SYNC_WORD;
    var ix: seq<nat> := [];
    var p := 2;
    NothingRead(words, ix);
    for n := 0 to 15
      invariant |ix| == n && p == 2 + TableSum(n) <= 82
      invariant forall k :: 0 <= k < n ==> ix[k] < Pow2(BitTable(k))
      invariant SoftBits(words[2..p]) == FrameBits(ix, n)
    {
      var m := BitTable(n);
      TableSumNext(n);
      var piece := words[p..p + m];
      var index := Bin2Int(m, piece);
      ReadStep(words, p, ix, n, index);
      ix := ix + [index];
      p := p + m;
    }
    TableSumBound(15);
    assert words[2..82] == words[2..];
    f := Frame(ix[..2], ix[2], ix[3], ix[4], ix[5..]);
    IndicesSplit(f, ix);
  }

  lemma NothingRead(words: seq<int16>, ix: seq<nat>)
    requires |words| == 82 && ix == []
    ensures TableSum(0) == 0 && SoftBits(words[2..2]) == FrameBits(ix, 0)
  {
  }

  lemma TableSumNext(n: nat)
    requires n < 15
    ensures TableSum(n + 1) == TableSum(n) + BitTable(n) <= 80
  {
    TableSumBound(n + 1);
  }

  lemma ReadStep(words: seq<int16>, p: nat, ix: seq<nat>, n: nat, index: nat)
    requires |ix| == n < 15 && 2 <= p && p + BitTable(n) <= |words|
    requires SoftBits(words[2..p]) == FrameBits(ix, n)
    requires index == MsbValue(SoftBits(words[p..p + BitTable(n)][..BitTable(n)])) && index < Pow2(BitTable(n))
    ensures SoftBits(words[2..p + BitTable(n)]) == FrameBits(ix + [index], n + 1)
  {
    hide BitFields, SoftBits, MsbValue, Pow2, BitTable;
    var m := BitTable(n);
    var piece := words[p..p + m];
    assert piece[..m] == piece;
    BitsOfValue(piece, index);
    FrameBitsLonger(ix, index, n);
    assert words[2..p + m] == words[2..p] + piece;
    SoftBitsConcat(words[2..p], piece);
  }

  lemma IndicesSplit(f: Frame, ix: seq<nat>)
    requires |ix| == 15 && f == Frame(ix[..2], ix[2], ix[3], ix[4], ix[5..])
    ensures Indices(f) == ix
  {
  }

  lemma {:induction false} FrameBitsLonger(ix: seq<nat>, x: nat, n: nat)
    requires n <= 15 && n <= |ix|
    ensures FrameBits(ix + [x], n) == FrameBits(ix, n)
  {
    hide BitFields;
    if n == 0 {
    } else {
      FrameBitsLonger(ix, x, n - 1);
    }
  }

  /** Soft bits are the bits of their own value. */
  lemma BitsOfValue(a: seq<int16>, index: nat)
    requires index == MsbValue(SoftBits(a)) && index < Pow2(|a|)
    ensures SoftBits(a) == BitFields(index, |a|)
  {
    hide MsbValue, Pow2, BitFields, SoftBits;
    SoftBitsSingle(a);
    BitFieldsSingle(index, |a|);
    BitFieldsValue(index, |a|);
    MsbUnique(SoftBits(a), BitFields(index, |a|));
  }

  /** The two formats agree: a frame read back from the bits of another is that frame, and
      its packed bytes hold those very bits. */
  lemma G192RoundTrip(words: seq<int16>, f: Frame, g: Frame)
    requires |words| == 82 && FrameFits(f) && FrameFits(g)
    requires SoftBits(words[2..]) == FrameBits(Indices(f), 15)
    requires SoftBits(words[2..]) == FrameBits(Indices(g), 15)
    ensures f == g
  {
    hide Indices, FrameBits, MsbValue, FieldsTo, BitTable, Pow2, SoftBits;
    FrameBitsValue(Indices(f), 15);
    FrameBitsValue(Indices(g), 15);
    FieldsFit(f);
    FieldsFit(g);
    MsbUnique(Fields(f), Fields(g));
    forall i | 0 <= i < 15 ensures Indices(f)[i] == Indices(g)[i] {
      FieldsAt(Indices(f), 15, i);
      FieldsAt(Indices(g), 15, i);
    }
    assert Indices(f) == Indices(g);
    IndicesDetermine(f, g);
  }

  lemma FieldsFit(f: Frame)
    requires FrameFits(f)
    ensures Fits(Fields(f)) && forall i :: 0 <= i < 15 ==> Fields(f)[i].w == BitTable(i)
  {
    hide Indices, FieldsTo, BitTable, Pow2;
    forall i | 0 <= i < 15 ensures Fields(f)[i] == Field(Indices(f)[i], BitTable(i)) {
      FieldsAt(Indices(f), 15, i);
    }
  }
}
