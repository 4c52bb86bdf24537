/** The portable branches of the inline arithmetic in gsm0610_local.h. */
module GsmArith {
  import opened FixedPoint

  /** gsm_mult_r: rounded Q15 product. */
  function MultR(a: int16, b: int16): int16 {
    if b == MIN16 && a == MIN16 then MAX16 else Wrap16((Mul(a, b) + 0x4000) / 0x8000)
  }

  /** The rounded Q15 product as the analysis lattice writes it, in 32 bits. */
  function Round15(a: int16, b: int16): int { (Mul(a, b) + 0x4000) / 0x8000 }

  /** Both spellings agree, without truncation, unless both operands are -1.0. */
  lemma MultRIsRound15(a: int16, b: int16)
    requires a != MIN16 || b != MIN16
    ensures MultR(a, b) == Round15(a, b)
  {
    Q15Bound(a, b);
  }

  /** gsm_asr: shift right, or left when n is negative. */
  function Asr16(a: int16, n: int): int16 {
    if n >= 16 then (if a < 0 then -1 else 0)
    else if n <= -16 then 0
    else if n < 0 then Wrap16(Asl(a, -n))
    else (AsrFits(a, n); Asr(a, n))
  }

  /** gsm_asl: shift left, or right when n is negative. */
  function Asl16(a: int16, n: int): int16 {
    if n >= 16 then 0
    else if n <= -16 then (if a < 0 then -1 else 0)
    else if n < 0 then Asr16(a, -n)
    else Wrap16(Asl(a, n))
  }

  lemma {:induction false} AsrFits(a: int, n: nat)
    requires -0x8000 <= a <= 0x7fff
    ensures -0x8000 <= Asr(a, n) <= 0x7fff
    decreases n
  {
    if n == 0 {
    } else {
      AsrFits(a / 2, n - 1);
    }
  }

  /** a >> n on a 16 bit value. */
  function ShiftRight(a: int16, n: nat): int16 {
    AsrFits(a, n);
    Asr(a, n)
  }

  /** gsm_l_add, with its unsigned intermediate sums taken modulo 2^32. */
  function LAdd(a: int32, b: int32): int32 {
    if a < 0 then
      if b >= 0 then a + b
      else
        var s := (-(a + 1) + -(b + 1)) % 0x1_0000_0000;
        if s >= 0x7fff_ffff then MIN32 else -s - 2
    else if b <= 0 then a + b
    else
      var s := (a + b) % 0x1_0000_0000;
      if s > 0x7fff_ffff then MAX32 else s
  }

  /** gsm_l_add is the saturating sum although it only ever adds non-negative magnitudes. */
  lemma LAddSaturates(a: int32, b: int32)
    ensures LAdd(a, b) == SatAdd32(a, b)
  {
    if a < 0 && b < 0 {
      var x: int, y: int := a, b;
      assert (-(x + 1) + -(y + 1)) % 0x1_0000_0000 == -x - y - 2;
    }
  }

  /** Index of the highest bit set, -1 for zero. */
  function TopBit(x: nat): int {
    if x == 0 then -1 else 1 + TopBit(x / 2)
  }

  lemma {:induction false} TopBitBounds(x: nat)
    requires x > 0
    ensures TopBit(x) >= 0
    ensures Pow2(TopBit(x)) <= x < 2 * Pow2(TopBit(x))
  {
    if x <= 1 {
    } else {
      TopBitBounds(x / 2);
    }
  }

  lemma {:induction false} TopBitUnique(x: nat, k: nat)
    requires Pow2(k) <= x < 2 * Pow2(k)
    ensures TopBit(x) == k
  {
    if k == 0 {
    } else {
      TopBitUnique(x / 2, k - 1);
    }
  }

  /** gsm0610_norm: the left shift that normalises x. */
  function Norm(x: int32): int
    requires x != 0
  {
    if x < 0 then
      if x <= -0x4000_0000 then 0 else 30 - TopBit(-x - 1)
    else 30 - TopBit(x)
  }

  lemma TopBitBelow31(x: int32)
    requires x > 0
    ensures 0 <= TopBit(x) <= 30
  {
    TopBitBounds(x);
    if TopBit(x) > 30 {
      Pow2Mono(31, TopBit(x));
      Pow2Word();
    }
  }

  lemma ScaledOctave(x: int, p: int, q: int)
    requires p <= x < 2 * p && q >= 1
    ensures p * q <= x * q < 2 * (p * q)
  {
    MulMono(p, x, q);
    MulMono(x, 2 * p - 1, q);
    assert (2 * p - 1) * q == 2 * (p * q) - q;
  }

  /** Normalising a positive number leaves bit 30 set and bit 31 clear. */
  lemma NormShifts(x: int32)
    requires x > 0
    ensures 0 <= Norm(x) <= 30
    ensures 0x4000_0000 <= x * Pow2(Norm(x)) < 0x8000_0000
  {
    TopBitBelow31(x);
    TopBitBounds(x);
    Pow2Add(TopBit(x), Norm(x));
    Pow2Word();
    ScaledOctave(x, Pow2(TopBit(x)), Pow2(Norm(x)));
  }

  /** A negative number below -1 keeps its sign and loses the copies of the sign bit. */
  lemma NegativeNormShifts(x: int32)
    requires x < -1
    ensures 0 <= Norm(x) <= 30
    ensures -0x8000_0000 <= x * Pow2(Norm(x)) && (x > -0x4000_0000 ==> x * Pow2(Norm(x)) < -0x4000_0000)
  {
    hide TopBit, Pow2;
    if x <= -0x4000_0000 {
      Pow2Table();
    } else {
      var y: int32 := -(x + 1);
      TopBitBelow31(y);
      TopBitBounds(y);
      HighestBit(y);
      Pow2Add(TopBit(y), Norm(x));
      Pow2Word();
      OctaveBelow(y, Pow2(TopBit(y)), Pow2(Norm(x)));
      Negated(x, Pow2(Norm(x)));
    }
  }

  lemma HighestBit(y: int32)
    requires 0 < y < 0x4000_0000
    ensures TopBit(y) <= 29
  {
    hide Pow2, TopBit;
    TopBitBelow31(y);
    TopBitBounds(y);
    Pow2Word();
    if TopBit(y) > 29 { Pow2Mono(30, TopBit(y)); }
  }

  lemma Negated(x: int, q: int)
    ensures x * q == -(-x * q)
  {
  }

  lemma OctaveBelow(y: int, p: int, q: int)
    requires p <= y < 2 * p && q >= 1
    ensures p * q < (y + 1) * q <= 2 * (p * q)
  {
    MulMono(p + 1, y + 1, q);
    MulMono(y + 1, 2 * p, q);
    assert (p + 1) * q == p * q + q && 2 * p * q == 2 * (p * q);
  }

  /** The largest magnitude, as saturated_abs16 sees it. */
  function PeakAbs(s: seq<int16>): (m: int16)
    ensures 0 <= m
    ensures forall i :: 0 <= i < |s| ==> SatAbs16(s[i]) <= m
  {
    if s == [] then 0
    else
      var m := PeakAbs(s[..|s| - 1]);
      if SatAbs16(s[|s| - 1]) > m then SatAbs16(s[|s| - 1]) else m
  }

  /** The search loop for the largest magnitude, shared by the three analysis stages. */
  method FindPeak(s: seq<int16>) returns (m: int16)
    ensures m == PeakAbs(s)
  {
    m := 0;
    for k := 0 to |s|
      invariant m == PeakAbs(s[..k])
    {
      assert s[..k + 1][..k] == s[..k];
      var temp := SatAbs16(s[k]);
      if temp > m {
        m := temp;
      }
    }
    assert s[..|s|] == s;
  }
}
