/** Integer arithmetic shared by the three codecs: 16 and 32 bit ranges, saturation,
    two's complement wrap-around and arithmetic shifts.

    A C shift to the right of a signed value rounds towards minus infinity, which is
    Dafny's division by a positive constant. */
module FixedPoint {

  type int16 = x: int | -0x8000 <= x <= 0x7fff
  type int32 = x: int | -0x8000_0000 <= x <= 0x7fff_ffff

  const MIN16: int16 := -0x8000
  const MAX16: int16 := 0x7fff
  const MIN32: int32 := -0x8000_0000
  const MAX32: int32 := 0x7fff_ffff

  /** The nearest 16 bit value. */
  function Saturate(x: int): int16 {
    if x > 0x7fff then 0x7fff else if x < -0x8000 then -0x8000 else x
  }

  /** The nearest 32 bit value. */
  function Saturate32(x: int): int32 {
    if x > 0x7fff_ffff then 0x7fff_ffff else if x < -0x8000_0000 then -0x8000_0000 else x
  }

  /** Conversion to int16_t: the low 16 bits, read as two's complement. */
  function Wrap16(x: int): int16 {
    (x + 0x8000) % 0x1_0000 - 0x8000
  }

  /** A 16 bit value as a plain integer. */
  function Int(x: int16): int { x }

  ghost predicate Fits16(x: int) { -0x8000 <= x <= 0x7fff }

  ghost predicate Fits32(x: int) { -0x8000_0000 <= x <= 0x7fff_ffff }

  /** Conversion and saturation leave alone what fits. */
  lemma FitsExact(x: int)
    requires Fits16(x)
    ensures Wrap16(x) == x && Saturate(x) == x
  {
  }

  function SatAdd16(a: int16, b: int16): int16 { Saturate(a + b) }

  function SatSub16(a: int16, b: int16): int16 { Saturate(a - b) }

  function SatAdd32(a: int32, b: int32): int32 { Saturate32(a + b) }

  function SatAbs16(a: int16): int16 {
    if a == -0x8000 then 0x7fff else if a < 0 then -a else a
  }

  /** Q15 product, truncated; only -1 * -1 saturates. */
  function SatMul16(a: int16, b: int16): int16 {
    if a == -0x8000 && b == -0x8000 then 0x7fff else Wrap16(Mul(a, b) / 0x8000)
  }

  /** The integer product. It is written as repeated addition so that a proof sees a
      product as a symbol unless it calls MulIsProduct. */
  function Mul(a: int, b: int): int
    decreases Abs(b)
  {
    if b == 0 then 0 else if b > 0 then Mul(a, b - 1) + a else Mul(a, b + 1) - a
  }

  lemma {:induction false} MulIsProduct(a: int, b: int)
    ensures Mul(a, b) == a * b
    decreases Abs(b)
  {
    if b > 0 {
      MulIsProduct(a, b - 1);
    } else if b < 0 {
      MulIsProduct(a, b + 1);
    }
  }

  function Abs(x: int): nat { if x < 0 then -x else x }

  function Min(a: int, b: int): int { if a < b then a else b }

  function Pow2(n: nat): nat
    ensures Pow2(n) >= 1
  {
    if n == 0 then 1 else 2 * Pow2(n - 1)
  }

  /** Arithmetic shift to the right by a variable amount, one bit at a time. */
  function Asr(x: int, n: nat): int
    decreases n
  {
    if n == 0 then x else Asr(x / 2, n - 1)
  }

  /** Shift to the left by a variable amount, without loss. */
  function Asl(x: int, n: nat): int
    decreases n
  {
    if n == 0 then x else Asl(2 * x, n - 1)
  }

  lemma {:induction false} AslIsProduct(x: int, n: nat)
    ensures Asl(x, n) == x * Pow2(n)
    decreases n
  {
    if n == 0 {
    } else {
      AslIsProduct(2 * x, n - 1);
      assert 2 * x * Pow2(n - 1) == x * (2 * Pow2(n - 1));
    }
  }

  lemma QuotientOfHalf(x: int, p: nat)
    requires p >= 1
    ensures x / 2 / p == x / (2 * p)
  {
    var q, r := x / 2 / p, x / 2 % p;
    assert x / 2 == p * q + r;
    assert 2 * p * q == 2 * (p * q);
    DivIs(x, 2 * p, q, 2 * r + x % 2);
  }

  /** It is division by the power of two, rounded towards minus infinity. */
  lemma {:induction false} AsrIsQuotient(x: int, n: nat)
    ensures Asr(x, n) == x / Pow2(n)
    decreases n
  {
    if n == 0 {
    } else {
      AsrIsQuotient(x / 2, n - 1);
      QuotientOfHalf(x, Pow2(n - 1));
    }
  }

  /** Monotonicity of a product in one non-negative factor. */
  lemma MulMono(a: int, b: int, c: int)
    requires a <= b && 0 <= c
    ensures a * c <= b * c
  {
    assert 0 <= (b - a) * c;
  }

  /** The product of two bounded values is bounded. */
  lemma MulBound(a: int, b: int, ma: int, mb: int)
    requires -ma <= a <= ma && -mb <= b <= mb
    ensures -(ma * mb) <= a * b <= ma * mb
  {
    var x, y := Abs(a), Abs(b);
    MulMono(x, ma, y);
    MulMono(y, mb, ma);
    assert x * y <= ma * y <= ma * mb;
    assert a * b == x * y || a * b == -(x * y);
  }

  /** A truncated or rounded Q15 product fits 16 bits unless both operands are -1.0. */
  lemma Q15Bound(a: int16, b: int16)
    ensures -0x8000 <= Mul(a, b) / 0x8000 <= 0x8000
    ensures a != -0x8000 || b != -0x8000 ==> Mul(a, b) / 0x8000 <= 0x7fff
    ensures -0x8000 <= (Mul(a, b) + 0x4000) / 0x8000 <= 0x8000
    ensures a != -0x8000 || b != -0x8000 ==> (Mul(a, b) + 0x4000) / 0x8000 <= 0x7fff
  {
    MulIsProduct(a, b);
    MulBound(a, b, 0x8000, 0x8000);
    if a != -0x8000 { MulBound(a, b, 0x7fff, 0x8000); }
    if b != -0x8000 { MulBound(a, b, 0x8000, 0x7fff); }
  }

  lemma {:induction false} Pow2Add(a: nat, b: nat)
    ensures Pow2(a + b) == Pow2(a) * Pow2(b)
  {
    if a == 0 {
    } else {
      Pow2Add(a - 1, b);
      assert 2 * (Pow2(a - 1) * Pow2(b)) == (2 * Pow2(a - 1)) * Pow2(b);
    }
  }

  lemma {:induction false} Pow2Mono(a: nat, b: nat)
    requires a <= b
    ensures Pow2(a) <= Pow2(b)
  {
    if a >= b {
    } else {
      Pow2Mono(a, b - 1);
    }
  }

  /** The powers of two the codecs shift by. */
  lemma Pow2Table()
    ensures Pow2(0) == 1 && Pow2(1) == 2 && Pow2(2) == 4 && Pow2(3) == 8 && Pow2(4) == 16 && Pow2(5) == 32
    ensures Pow2(6) == 64 && Pow2(7) == 128 && Pow2(8) == 256 && Pow2(9) == 512 && Pow2(10) == 1024
    ensures Pow2(11) == 2048 && Pow2(12) == 4096 && Pow2(13) == 8192 && Pow2(14) == 16384
    ensures Pow2(15) == 32768 && Pow2(16) == 65536
  {
    assert Pow2(5) == 2 * Pow2(4) == 4 * Pow2(3) == 8 * Pow2(2);
    assert Pow2(10) == 2 * Pow2(9) == 4 * Pow2(8) == 8 * Pow2(7) == 16 * Pow2(6);
    assert Pow2(15) == 2 * Pow2(14) == 4 * Pow2(13) == 8 * Pow2(12) == 16 * Pow2(11);
  }

  lemma Pow2Word()
    ensures Pow2(30) == 0x4000_0000 && Pow2(31) == 0x8000_0000
  {
    Pow2Table();
    Pow2Add(15, 15);
    Pow2Add(1, 30);
  }

  /** Quotient and remainder are unique. */
  lemma DivIs(x: int, d: int, q: int, r: int)
    requires d > 0 && x == d * q + r && 0 <= r < d
    ensures x / d == q && x % d == r
  {
    var q', r' := x / d, x % d;
    assert x == d * q' + r';
    assert (q - q') * d == r' - r;
    if q > q' { MulMono(1, q - q', d); }
    if q < q' { MulMono(q - q', -1, d); }
  }

  lemma ModStep(x: int, d: nat)
    requires d > 0
    ensures (x + d) % d == x % d
  {
    assert x + d == d * (x / d + 1) + x % d;
    DivIs(x + d, d, x / d + 1, x % d);
  }

  /** Where a loop that counts from i in steps and asks only for i < len comes to a stop. */
  function LoopEnd(i: nat, len: int, step: nat): (n: nat)
    requires step > 0
    ensures i <= n && len <= n
    decreases len - i
  {
    if i < len then LoopEnd(i + step, len, step) else i
  }

  /** It takes whole steps, and stops at len itself if and only if they fit. */
  lemma {:induction false} LoopEndWhole(i: nat, len: int, step: nat)
    requires step > 0
    ensures (LoopEnd(i, len, step) - i) % step == 0
    ensures i <= len ==> (LoopEnd(i, len, step) == len <==> (len - i) % step == 0)
    decreases len - i
  {
    if i >= len {
      DivIs(0, step, 0, 0);
    } else {
      LoopEndWhole(i + step, len, step);
      ModStep(LoopEnd(i, len, step) - (i + step), step);
      ModStep(len - (i + step), step);
      if len < i + step {
        DivIs(len - i, step, 0, len - i);
      }
    }
  }
}
