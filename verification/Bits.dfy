/** Bit strings as numbers: shifts, bitwise or, and lists of fields of given widths read as
    the number whose binary digits are the concatenated fields. Shifts are defined bit by
    bit, so that what follows needs no multiplication. */
module Bits {
  import opened FixedPoint

  type byte = x: int | 0 <= x < 0x100

  /** x << n */
  function Shl(x: nat, n: nat): nat {
    if n == 0 then x else 2 * Shl(x, n - 1)
  }

  /** x >> n */
  function Shr(x: nat, n: nat): nat {
    if n == 0 then x else Shr(x / 2, n - 1)
  }

  /** x & ((1 << n) - 1) */
  function Low(x: nat, n: nat): nat {
    if n == 0 then 0 else x % 2 + 2 * Low(x / 2, n - 1)
  }

  /** Bitwise or of two non-negative numbers. */
  function BitOr(a: nat, b: nat): nat
    decreases a + b
  {
    if a == 0 then b
    else if b == 0 then a
    else 2 * BitOr(a / 2, b / 2) + (if a % 2 == 1 || b % 2 == 1 then 1 else 0)
  }

  lemma ShlTable(x: nat)
    ensures Shl(x, 1) == 2 * x && Shl(x, 2) == 4 * x && Shl(x, 3) == 8 * x && Shl(x, 4) == 16 * x
    ensures Shl(x, 5) == 32 * x && Shl(x, 6) == 64 * x && Shl(x, 7) == 128 * x && Shl(x, 8) == 256 * x
  {
    assert Shl(x, 2) == 2 * Shl(x, 1);
    assert Shl(x, 4) == 2 * Shl(x, 3) == 4 * Shl(x, 2);
    assert Shl(x, 6) == 2 * Shl(x, 5) == 4 * Shl(x, 4);
    assert Shl(x, 8) == 2 * Shl(x, 7) == 4 * Shl(x, 6);
  }

  lemma ShrTable(x: nat)
    ensures Shr(x, 1) == x / 2 && Shr(x, 2) == x / 4 && Shr(x, 4) == x / 16 && Shr(x, 8) == x / 256
  {
    assert Shr(x, 2) == Shr(x / 2, 1);
    ShrShr(x, 2, 2);
    assert Shr(x / 4, 2) == Shr(x / 4 / 2, 1);
    ShrShr(x, 4, 4);
    ShrShr(x / 16, 2, 2);
    assert Shr(x / 16, 2) == Shr(x / 16 / 2, 1);
    assert Shr(x / 64, 2) == Shr(x / 64 / 2, 1);
  }

  lemma {:induction false} ShlAdd(x: nat, y: nat, n: nat)
    ensures Shl(x + y, n) == Shl(x, n) + Shl(y, n)
  {
    if n == 0 {
    } else {
      ShlAdd(x, y, n - 1);
    }
  }

  lemma {:induction false} ShlShl(x: nat, a: nat, b: nat)
    ensures Shl(Shl(x, a), b) == Shl(x, a + b)
  {
    if b == 0 {
    } else {
      ShlShl(x, a, b - 1);
    }
  }

  lemma {:induction false} ShlDouble(x: nat, n: nat)
    ensures Shl(2 * x, n) == 2 * Shl(x, n)
  {
    if n == 0 {
    } else {
      ShlDouble(x, n - 1);
    }
  }

  lemma {:induction false} ShlZero(n: nat)
    ensures Shl(0, n) == 0
  {
    if n == 0 {
    } else {
      ShlZero(n - 1);
    }
  }

  lemma {:induction false} ShrZero(n: nat)
    ensures Shr(0, n) == 0 && Low(0, n) == 0
  {
    if n == 0 {
    } else {
      ShrZero(n - 1);
    }
  }

  lemma {:induction false} ShrShr(x: nat, a: nat, b: nat)
    ensures Shr(Shr(x, a), b) == Shr(x, a + b)
  {
    if a == 0 {
    } else {
      ShrShr(x / 2, a - 1, b);
    }
  }

  /** Adding a number shifted up by n adds the number to the quotient. */
  lemma {:induction false} ShrAdd(x: nat, k: nat, n: nat)
    ensures Shr(x + Shl(k, n), n) == Shr(x, n) + k
    ensures Low(x + Shl(k, n), n) == Low(x, n)
  {
    if n == 0 {
    } else {
      assert (x + 2 * Shl(k, n - 1)) / 2 == x / 2 + Shl(k, n - 1);
      ShrAdd(x / 2, k, n - 1);
    }
  }

  /** The low bits and the quotient make up the number. */
  lemma {:induction false} SplitAt(x: nat, n: nat)
    ensures Low(x, n) < Pow2(n)
    ensures x == Low(x, n) + Shl(Shr(x, n), n)
  {
    if n == 0 {
    } else {
      SplitAt(x / 2, n - 1);
    }
  }

  lemma {:induction false} ShrBound(x: nat, a: nat, b: nat)
    requires x < Pow2(a + b)
    ensures Shr(x, a) < Pow2(b)
  {
    if a == 0 {
    } else {
      ShrBound(x / 2, a - 1, b);
    }
  }

  lemma {:induction false} LowWhole(x: nat, n: nat)
    requires x < Pow2(n)
    ensures Low(x, n) == x && Shr(x, n) == 0
  {
    if n == 0 {
    } else {
      LowWhole(x / 2, n - 1);
    }
  }

  /** A number below 2^a over one below 2^b. */
  lemma {:induction false} JoinBound(lo: nat, hi: nat, a: nat, b: nat)
    requires lo < Pow2(a) && hi < Pow2(b)
    ensures lo + Shl(hi, a) < Pow2(a + b)
  {
    if a == 0 {
    } else {
      JoinBound(lo / 2, hi, a - 1, b);
    }
  }

  /** Or-ing in a value above the bits in use adds it. */
  lemma {:induction false} OrAbove(lo: nat, v: nat, k: nat)
    requires lo < Pow2(k)
    ensures BitOr(lo, Shl(v, k)) == lo + Shl(v, k)
    ensures BitOr(Shl(v, k), lo) == lo + Shl(v, k)
  {
    if lo == 0 || Shl(v, k) == 0 {
    } else {
      OrAbove(lo / 2, v, k - 1);
    }
  }

  // ---------------------------------------------------------------- fields

  /** The value v in w bits. */
  datatype Field = Field(v: nat, w: nat)

  ghost predicate Fits(fs: seq<Field>) {
    forall i :: 0 <= i < |fs| ==> fs[i].v < Pow2(fs[i].w)
  }

  function Width(fs: seq<Field>): nat {
    if fs == [] then 0 else Width(fs[..|fs| - 1]) + fs[|fs| - 1].w
  }

  /** The first field in the lowest bits. */
  function LsbValue(fs: seq<Field>): nat {
    if fs == [] then 0
    else LsbValue(fs[..|fs| - 1]) + Shl(fs[|fs| - 1].v, Width(fs[..|fs| - 1]))
  }

  /** The first field in the highest bits. */
  function MsbValue(fs: seq<Field>): nat {
    if fs == [] then 0
    else Shl(MsbValue(fs[..|fs| - 1]), fs[|fs| - 1].w) + fs[|fs| - 1].v
  }

  lemma ValueSnoc(fs: seq<Field>, f: Field)
    ensures Width(fs + [f]) == Width(fs) + f.w
    ensures LsbValue(fs + [f]) == LsbValue(fs) + Shl(f.v, Width(fs))
    ensures MsbValue(fs + [f]) == Shl(MsbValue(fs), f.w) + f.v
  {
    assert (fs + [f])[..|fs|] == fs;
  }

  /** Equally many fields of equal widths. */
  ghost predicate SameShape(a: seq<Field>, b: seq<Field>) {
    |a| == |b| && forall i :: 0 <= i < |a| ==> a[i].w == b[i].w
  }

  lemma {:induction false} SameShapeWidth(a: seq<Field>, b: seq<Field>)
    requires SameShape(a, b)
    ensures Width(a) == Width(b)
  {
    if a == [] {
    } else {
      SameShapeWidth(a[..|a| - 1], b[..|b| - 1]);
    }
  }

  lemma {:induction false} LsbBound(fs: seq<Field>)
    requires Fits(fs)
    ensures LsbValue(fs) < Pow2(Width(fs))
  {
    if fs == [] {
    } else {
      var n := |fs| - 1;
      LsbBound(fs[..n]);
      JoinBound(LsbValue(fs[..n]), fs[n].v, Width(fs[..n]), fs[n].w);
    }
  }

  /** Low and high part of a join are determined by it. */
  lemma JoinUnique(lo1: nat, hi1: nat, lo2: nat, hi2: nat, n: nat)
    requires lo1 < Pow2(n) && lo2 < Pow2(n) && lo1 + Shl(hi1, n) == lo2 + Shl(hi2, n)
    ensures lo1 == lo2 && hi1 == hi2
  {
    ShrAdd(lo1, hi1, n);
    ShrAdd(lo2, hi2, n);
    LowWhole(lo1, n);
    LowWhole(lo2, n);
  }

  /** Fields of known widths are determined by their concatenation. */
  lemma {:induction false} LsbUnique(a: seq<Field>, b: seq<Field>)
    requires SameShape(a, b) && Fits(a) && Fits(b)
    requires LsbValue(a) == LsbValue(b)
    ensures a == b
  {
    if a == [] {
    } else {
      var n := |a| - 1;
      SameShapeWidth(a[..n], b[..n]);
      LsbBound(a[..n]);
      LsbBound(b[..n]);
      JoinUnique(LsbValue(a[..n]), a[n].v, LsbValue(b[..n]), b[n].v, Width(a[..n]));
      LsbUnique(a[..n], b[..n]);
      assert a == a[..n] + [a[n]] && b == b[..n] + [b[n]];
    }
  }

  lemma {:induction false} MsbUnique(a: seq<Field>, b: seq<Field>)
    requires SameShape(a, b) && Fits(a) && Fits(b)
    requires MsbValue(a) == MsbValue(b)
    ensures a == b
  {
    if a == [] {
    } else {
      var n := |a| - 1;
      assert a[n].w == b[n].w;
      JoinUnique(a[n].v, MsbValue(a[..n]), b[n].v, MsbValue(b[..n]), a[n].w);
      MsbUnique(a[..n], b[..n]);
      assert a == a[..n] + [a[n]] && b == b[..n] + [b[n]];
    }
  }

  /** A byte string as a list of eight-bit fields. */
  function Bytes(code: seq<byte>): (fs: seq<Field>)
    ensures |fs| == |code|
  {
    seq(|code|, i requires 0 <= i < |code| => Field(code[i], 8))
  }

  lemma BytesSnoc(code: seq<byte>, b: byte)
    ensures Bytes(code + [b]) == Bytes(code) + [Field(b, 8)]
  {
  }

  lemma {:induction false} BytesWidth(code: seq<byte>)
    ensures Width(Bytes(code)) == 8 * |code|
    ensures Fits(Bytes(code))
  {
    if code == [] {
    } else {
      var n := |code| - 1;
      BytesWidth(code[..n]);
      assert Bytes(code)[..n] == Bytes(code[..n]);
    }
    Pow2Table();
  }

  lemma BytesUnique(a: seq<byte>, b: seq<byte>)
    requires |a| == |b|
    requires LsbValue(Bytes(a)) == LsbValue(Bytes(b)) || MsbValue(Bytes(a)) == MsbValue(Bytes(b))
    ensures a == b
  {
    BytesWidth(a);
    BytesWidth(b);
    if LsbValue(Bytes(a)) == LsbValue(Bytes(b)) {
      LsbUnique(Bytes(a), Bytes(b));
    } else {
      MsbUnique(Bytes(a), Bytes(b));
    }
    forall i | 0 <= i < |a| ensures a[i] == b[i] {
      assert Bytes(a)[i] == Bytes(b)[i];
    }
  }

  // ---------------------------------------------------------------- shift registers

  /** Of the fields put into a register, lowest bit first, the fields taken have left it from
      the bottom, and the p bits of sr are still in it. */
  ghost predicate Pending(taken: seq<Field>, sr: nat, p: nat, put: seq<Field>) {
    && sr < Pow2(p)
    && Width(taken) + p == Width(put)
    && Fits(taken)
    && LsbValue(taken) + Shl(sr, Width(taken)) == LsbValue(put)
  }

  lemma NothingPut()
    ensures Pending([], 0, 0, [])
  {
  }

  /** sr |= v << p */
  lemma PutKeeps(taken: seq<Field>, sr: nat, p: nat, put: seq<Field>, v: nat, w: nat)
    requires Pending(taken, sr, p, put) && v < Pow2(w)
    ensures Pending(taken, BitOr(sr, Shl(v, p)), p + w, put + [Field(v, w)])
  {
    hide Width, LsbValue, Fits, BitOr, Shl;
    OrAbove(sr, v, p);
    JoinBound(sr, v, p, w);
    ValueSnoc(put, Field(v, w));
    ShlAdd(sr, Shl(v, p), Width(taken));
    ShlShl(v, p, Width(taken));
  }

  /** sr = v, when nothing is pending */
  lemma PutFirst(taken: seq<Field>, sr: nat, put: seq<Field>, v: nat, w: nat)
    requires Pending(taken, sr, 0, put) && v < Pow2(w)
    ensures Pending(taken, v, w, put + [Field(v, w)])
  {
    PutKeeps(taken, sr, 0, put, v, w);
  }

  /** The lowest w bits leave, sr >>= w. */
  lemma TakeKeeps(taken: seq<Field>, sr: nat, p: nat, put: seq<Field>, w: nat)
    requires Pending(taken, sr, p, put) && w <= p
    ensures Low(sr, w) < Pow2(w)
    ensures Pending(taken + [Field(Low(sr, w), w)], Shr(sr, w), p - w, put)
  {
    hide Pow2, Width, LsbValue, Low, Shl, Shr;
    SplitAt(sr, w);
    ShrBound(sr, w, p - w);
    ValueSnoc(taken, Field(Low(sr, w), w));
    ShlAdd(Low(sr, w), Shl(Shr(sr, w), w), Width(taken));
    ShlShl(Shr(sr, w), w, Width(taken));
  }

  // ---------------------------------------------------------------- concatenation

  lemma {:induction false} MsbConcat(a: seq<Field>, b: seq<Field>)
    ensures Width(a + b) == Width(a) + Width(b)
    ensures MsbValue(a + b) == Shl(MsbValue(a), Width(b)) + MsbValue(b)
  {
    if b == [] {
      assert a + b == a;
    } else {
      var n := |b| - 1;
      MsbConcat(a, b[..n]);
      ValueSnoc(a + b[..n], b[n]);
      assert a + b == a + b[..n] + [b[n]];
      ShlAdd(Shl(MsbValue(a), Width(b[..n])), MsbValue(b[..n]), b[n].w);
      ShlShl(MsbValue(a), Width(b[..n]), b[n].w);
    }
  }

  lemma {:induction false} LsbConcat(a: seq<Field>, b: seq<Field>)
    ensures Width(a + b) == Width(a) + Width(b)
    ensures LsbValue(a + b) == LsbValue(a) + Shl(LsbValue(b), Width(a))
  {
    hide Shl;
    if b == [] {
      assert a + b == a;
      ShlZero(Width(a));
    } else {
      var n := |b| - 1;
      LsbConcat(a, b[..n]);
      ValueSnoc(a + b[..n], b[n]);
      assert a + b == a + b[..n] + [b[n]];
      ShlAdd(LsbValue(b[..n]), Shl(b[n].v, Width(b[..n])), Width(a));
      ShlShl(b[n].v, Width(b[..n]), Width(a));
    }
  }

  /** Fields of the same widths at the bottom of equal numbers are the same. */
  lemma LowFieldsUnique(a: seq<Field>, x: nat, b: seq<Field>)
    requires Fits(a) && Fits(b) && |a| <= |b| && SameShape(a, b[..|a|])
    requires LsbValue(a) + Shl(x, Width(a)) == LsbValue(b)
    ensures a == b[..|a|]
  {
    hide Shl, LsbValue, Width, Pow2;
    var low, high := b[..|a|], b[|a|..];
    assert b == low + high;
    LsbConcat(low, high);
    SameShapeWidth(a, low);
    LsbBound(a);
    LsbBound(low);
    JoinUnique(LsbValue(a), x, LsbValue(low), LsbValue(high), Width(a));
    LsbUnique(a, low);
  }

  /** The value of a list from the value of its first i fields. */
  lemma MsbPrefix(fs: seq<Field>, i: nat)
    requires i < |fs|
    ensures MsbValue(fs[..0]) == 0 && Width(fs[..0]) == 0
    ensures MsbValue(fs[..i + 1]) == Shl(MsbValue(fs[..i]), fs[i].w) + fs[i].v
    ensures Width(fs[..i + 1]) == Width(fs[..i]) + fs[i].w
  {
    assert fs[..i + 1] == fs[..i] + [fs[i]];
    ValueSnoc(fs[..i], fs[i]);
  }
}
