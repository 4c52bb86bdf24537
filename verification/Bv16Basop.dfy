/** The ITU-T G.191 basic operators the BroadVoice16 code is written in. The saturating
    operators are those of FixedPoint under their G.191 meaning: add is SatAdd16, sub is
    SatSub16 and abs_s is SatAbs16. The Overflow flag, which nothing reads, is left out. */
module Bv16Basop {
  import opened FixedPoint

  function Negate(a: int16): int16 { if a == MIN16 then MAX16 else -a }

  /** shl and shr, whose negative counts shift the other way. */
  function Shl16(a: int16, n: int): int16 {
    if n >= 0 then Saturate(Mul(a, Pow2(n))) else Shr16Up(a, Min(-n, 16))
  }

  function Shr16(a: int16, n: int): int16 {
    if n >= 0 then Shr16Up(a, n) else Saturate(Mul(a, Pow2(Min(-n, 16))))
  }

  function Shr16Up(a: int16, n: nat): int16 {
    if n >= 15 then (if a < 0 then -1 else 0)
    else (AsrStays(a, n, 0x8000); Asr(a, n))
  }

  /** Shifting to the right keeps a value in a range around zero. */
  lemma {:induction false} AsrStays(x: int, n: nat, m: int)
    requires -m <= x < m
    ensures -m <= Asr(x, n) < m
    decreases n
  {
    if n == 0 {
    } else {
      AsrStays(x / 2, n - 1, m);
    }
  }

  /** mult */
  function Mult(a: int16, b: int16): int16 { Saturate(Mul(a, b) / 0x8000) }

  /** mult_r */
  function MultRound(a: int16, b: int16): int16 { Saturate((Mul(a, b) + 0x4000) / 0x8000) }

  lemma ProductFloor(a: int16, b: int16)
    ensures Mul(a, b) >= -0x3fff_8000
  {
    hide Mul;
    MulIsProduct(a, b);
    if a == MIN16 && b == MIN16 {
      assert a * b == 0x4000_0000;
    } else if a == MIN16 {
      MulBound(a, b, 0x8000, 0x7fff);
    } else {
      MulBound(a, b, 0x7fff, 0x8000);
    }
  }

  /** A rounded product is never -1.0. */
  lemma MultRoundNeverMin(a: int16, b: int16)
    ensures MultRound(a, b) != MIN16
  {
    hide Mul;
    ProductFloor(a, b);
  }

  function LAdd(a: int32, b: int32): int32 { Saturate32(a + b) }

  function LSub(a: int32, b: int32): int32 { Saturate32(a - b) }

  /** L_mult */
  function LMult(a: int16, b: int16): int32 { Saturate32(2 * Mul(a, b)) }

  function LMac(x: int32, a: int16, b: int16): int32 { LAdd(x, LMult(a, b)) }

  function LMsu(x: int32, a: int16, b: int16): int32 { LSub(x, LMult(a, b)) }

  /** L_mult0 */
  function LMult0(a: int16, b: int16): int32 {
    MulIsProduct(a, b);
    MulBound(a, b, 0x8000, 0x8000);
    Mul(a, b)
  }

  function LMac0(x: int32, a: int16, b: int16): int32 { LAdd(x, LMult0(a, b)) }

  function DepositH(a: int16): int32 { a as int * 0x1_0000 }

  function ExtractH(x: int32): int16 { x / 0x1_0000 }

  function ExtractL(x: int32): int16 { Wrap16(x) }

  /** intround */
  function Round(x: int32): int16 { ExtractH(LAdd(x, 0x8000)) }

  // ---------------------------------------------------------------- 32 bit shifts

  /** n saturating doublings. */
  function Doubled(x: int32, n: nat): int32
    decreases n
  {
    if n == 0 then x else Doubled(Saturate32(2 * x), n - 1)
  }

  /** Doubling with saturation at every step saturates exactly where the whole shift
      would. */
  lemma {:induction false} DoubledIsShift(x: int32, n: nat)
    ensures Doubled(x, n) == Saturate32(x * Pow2(n))
    decreases n
  {
    if n == 0 {
    } else {
      var y := Saturate32(2 * x);
      DoubledIsShift(y, n - 1);
      var p := Pow2(n - 1);
      assert x * Pow2(n) == 2 * x * p;
      if y > 2 * x { MulMono(2 * x, y, p); MulMono(1, p, -y); }
      if y < 2 * x { MulMono(y, 2 * x, p); MulMono(1, p, y); }
    }
  }

  function ShiftedDown(x: int32, n: nat): int32 {
    if n >= 31 then (if x < 0 then -1 else 0)
    else (AsrStays(x, n, 0x8000_0000); Asr(x, n))
  }

  /** L_shl */
  function LShl(x: int32, n: int): int32 {
    if n <= 0 then ShiftedDown(x, Min(-n, 32)) else Doubled(x, n)
  }

  /** L_shr */
  function LShr(x: int32, n: int): int32 {
    if n < 0 then Doubled(x, Min(-n, 32)) else ShiftedDown(x, n)
  }

  /** L_shr_r: rounds by the last bit shifted out. */
  function LShrR(x: int32, n: int): int32 {
    if n > 31 then 0
    else if n > 0 && Asr(x, n - 1) % 2 == 1 then Saturate32(LShr(x, n) + 1)
    else LShr(x, n)
  }

  /** The loop of L_shl for a positive count. */
  method LShlLoop(x: int32, n: nat) returns (r: int32)
    ensures n > 0 ==> r == Doubled(x, n)
  {
    var v: int := x;
    r := 0;
    var k := n;
    while k > 0
      invariant 0 <= k <= n
      invariant -0x8000_0000 <= v <= 0x7fff_ffff
      invariant Doubled(v, k) == Doubled(x, n)
      invariant k < n ==> r == v
    {
      if v > 0x3fff_ffff {
        r := MAX32;
        SaturatedStays(v, k);
        return;
      }
      if v < -0x4000_0000 {
        r := MIN32;
        SaturatedStays(v, k);
        return;
      }
      v := v * 2;
      r := v;
      k := k - 1;
    }
  }

  lemma {:induction false} SaturatedStays(x: int32, n: nat)
    requires n > 0
    ensures x > 0x3fff_ffff ==> Doubled(x, n) == MAX32
    ensures x < -0x4000_0000 ==> Doubled(x, n) == MIN32
    decreases n
  {
    if n <= 1 || -0x4000_0000 <= x <= 0x3fff_ffff {
    } else {
      SaturatedStays(Saturate32(2 * x), n - 1);
    }
  }

  // ---------------------------------------------------------------- normalisation

  /** How often x can be doubled below 2^31. */
  function Headroom(x: int): (n: nat)
    requires 0 < x <= 0x7fff_ffff
    decreases 0x8000_0000 - x
  {
    if x >= 0x4000_0000 then 0 else 1 + Headroom(2 * x)
  }

  /** norm_l */
  function NormL(x: int32): (n: nat)
    ensures n <= 31
  {
    if x == 0 then 0
    else if x == -1 then 31
    else
      var v := if x < 0 then -(x as int) - 1 else x;
      HeadroomSmall(v);
      Headroom(v)
  }

  lemma {:induction false} HeadroomBounds(x: int)
    requires 0 < x <= 0x7fff_ffff
    ensures 0x4000_0000 <= x * Pow2(Headroom(x)) <= 0x7fff_ffff
    decreases 0x8000_0000 - x
  {
    if x >= 0x4000_0000 {
    } else {
      HeadroomBounds(2 * x);
      assert x * Pow2(Headroom(x)) == 2 * x * Pow2(Headroom(2 * x));
    }
  }

  lemma HeadroomSmall(x: int)
    requires 0 < x <= 0x7fff_ffff
    ensures Headroom(x) <= 30
  {
    HeadroomBounds(x);
    if Headroom(x) > 30 {
      Pow2Mono(31, Headroom(x));
      Pow2Word();
      MulMono(1, x, Pow2(Headroom(x)));
    }
  }

  /** norm_l does normalise: shifted by it, a positive number has its top bit at bit 30. */
  lemma NormLNormalises(x: int32)
    requires x > 0
    ensures NormL(x) <= 30
    ensures LShl(x, NormL(x)) == x * Pow2(NormL(x))
    ensures 0x4000_0000 <= LShl(x, NormL(x)) <= 0x7fff_ffff
  {
    HeadroomBounds(x);
    HeadroomSmall(x);
    if NormL(x) > 0 { DoubledIsShift(x, NormL(x)); }
  }

  method NormLLoop(x: int32) returns (n: nat)
    ensures n == NormL(x)
  {
    n := 0;
    if x == 0 {
      return;
    }
    if x == -1 {
      n := 31;
      return;
    }
    var v: int := if x < 0 then -(x as int) - 1 else x;
    ghost var goal := Headroom(v);
    while v < 0x4000_0000
      invariant 0 < v <= 0x7fff_ffff
      invariant n + Headroom(v) == goal
      decreases 0x8000_0000 - v
    {
      v := v * 2;
      n := n + 1;
    }
  }

  // ---------------------------------------------------------------- division

  /** div_s: the quotient in Q15, rounded down, except that x / x gives the largest
      fraction. */
  function DivS(a: int16, b: int16): (q: int16)
    requires 0 <= a <= b && b > 0
    ensures 0 <= q
    ensures a < b ==> q == a as int * 0x8000 / b
  {
    DivSFits(a, b);
    if a == b then MAX16 else a as int * 0x8000 / b
  }

  lemma DivSFits(a: int, b: int)
    requires 0 <= a <= b && b > 0
    ensures 0 <= a * 0x8000 / b
    ensures a < b ==> a * 0x8000 / b <= 0x7fff
  {
    var q := a * 0x8000 / b;
    assert a * 0x8000 == b * q + a * 0x8000 % b;
    if q < 0 { MulMono(q, -1, b); }
    if a < b && q > 0x7fff { MulMono(0x8000, q, b); }
  }

  /** After k steps the bits found and the remainder account for the numerator. */
  ghost predicate Divided(a: int, b: int, k: nat, out: int, num: int) {
    && 0 <= num < b && 0 <= out < Pow2(k)
    && a * Pow2(k) == Mul(b, out) + num
  }

  lemma DividedStep(a: int, b: int, k: nat, out: int, num: int)
    requires Divided(a, b, k, out, num)
    ensures 2 * num < b ==> Divided(a, b, k + 1, 2 * out, 2 * num)
    ensures 2 * num >= b ==> Divided(a, b, k + 1, 2 * out + 1, 2 * num - b)
  {
    hide Mul;
    var p, p2 := Pow2(k), Pow2(k + 1);
    assert p2 == 2 * p;
    hide Pow2;
    MulIsProduct(b, out);
    MulIsProduct(b, 2 * out);
    MulIsProduct(b, 2 * out + 1);
    assert a * p2 == 2 * (a * p);
    assert b * (2 * out) == 2 * (b * out);
    assert b * (2 * out + 1) == 2 * (b * out) + b;
  }

  lemma DividedAll(a: int16, b: int16, out: int, num: int)
    requires 0 <= a < b && Divided(a, b, 15, out, num)
    ensures out == DivS(a, b)
  {
    Pow2Table();
    MulIsProduct(b, out);
    DivIs(a as int * 0x8000, b, out, num);
  }

  /** div_s aborts the program unless 0 <= a <= b and b is positive. */
  method DivSLoop(a: int16, b: int16) returns (out: int16)
    requires 0 <= a <= b && b > 0
    ensures out == DivS(a, b)
  {
    hide DivS, Divided, Pow2;
    if a == 0 {
      DivSEnds(a, b);
      return 0;
    }
    if a == b {
      DivSEnds(a, b);
      return MAX16;
    }
    var o: int, num: int := 0, a;
    DividedFirst(a, b);
    for k := 0 to 15
      invariant Divided(a, b, k, o, num)
    {
      DividedStep(a, b, k, o, num);
      DividedRange(a, b, k, o, num);
      o := o * 2;
      num := num * 2;
      if num >= b {
        num := num - b;
        o := o + 1;
      }
    }
    DividedAll(a, b, o, num);
    out := o;
  }

  lemma DividedFirst(a: int, b: int)
    requires 0 <= a < b
    ensures Divided(a, b, 0, 0, a)
  {
    assert a * Pow2(0) == a;
  }

  lemma DividedRange(a: int, b: int, k: nat, out: int, num: int)
    requires Divided(a, b, k, out, num) && k < 15
    ensures 0 <= 2 * out + 1 <= MAX16
  {
    Pow2Table();
    Pow2Mono(k, 14);
  }

  lemma DivSEnds(a: int16, b: int16)
    requires 0 <= a <= b && b > 0
    ensures a == 0 ==> DivS(a, b) == 0
    ensures a == b ==> DivS(a, b) == MAX16
  {
    if a == 0 { DivIs(0, b, 0, 0); }
  }
}
