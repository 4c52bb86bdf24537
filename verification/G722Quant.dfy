/** The quantisers of the two G.722 sub-bands and the adaptation of their scale factors
    (section 6.2 of ITU-T G.722). */
module G722Quant {
  import opened FixedPoint

  // ---------------------------------------------------------------- tables

  /** High band inverse quantiser. */
  function Qm2(i: nat): (v: int16)
    requires i < 4
  {
    match i
    case 0 => -7408
    case 1 => -1616
    case 2 => 7408
    case _ => 1616
  }

  /** Low band inverse quantiser, four bits. */
  function Qm4(i: nat): (v: int16)
    requires i < 16
  {
    match i
    case 0 => 0
    case 1 => -20456
    case 2 => -12896
    case 3 => -8968
    case 4 => -6288
    case 5 => -4240
    case 6 => -2584
    case 7 => -1200
    case 8 => 20456
    case 9 => 12896
    case 10 => 8968
    case 11 => 6288
    case 12 => 4240
    case 13 => 2584
    case 14 => 1200
    case _ => 0
  }

  function Qm5(i: nat): (v: int16)
    requires i < 32
  {
    match i
    case 0 => -280
    case 1 => -280
    case 2 => -23352
    case 3 => -17560
    case 4 => -14120
    case 5 => -11664
    case 6 => -9752
    case 7 => -8184
    case 8 => -6864
    case 9 => -5712
    case 10 => -4696
    case 11 => -3784
    case 12 => -2960
    case 13 => -2208
    case 14 => -1520
    case 15 => -880
    case 16 => 23352
    case 17 => 17560
    case 18 => 14120
    case 19 => 11664
    case 20 => 9752
    case 21 => 8184
    case 22 => 6864
    case 23 => 5712
    case 24 => 4696
    case 25 => 3784
    case 26 => 2960
    case 27 => 2208
    case 28 => 1520
    case 29 => 880
    case 30 => 280
    case _ => -280
  }

  function Qm6(i: nat): (v: int16)
    requires i < 64
  {
    match i
    case 0 => -136
    case 1 => -136
    case 2 => -136
    case 3 => -136
    case 4 => -24808
    case 5 => -21904
    case 6 => -19008
    case 7 => -16704
    case 8 => -14984
    case 9 => -13512
    case 10 => -12280
    case 11 => -11192
    case 12 => -10232
    case 13 => -9360
    case 14 => -8576
    case 15 => -7856
    case 16 => -7192
    case 17 => -6576
    case 18 => -6000
    case 19 => -5456
    case 20 => -4944
    case 21 => -4464
    case 22 => -4008
    case 23 => -3576
    case 24 => -3168
    case 25 => -2776
    case 26 => -2400
    case 27 => -2032
    case 28 => -1688
    case 29 => -1360
    case 30 => -1040
    case 31 => -728
    case 32 => 24808
    case 33 => 21904
    case 34 => 19008
    case 35 => 16704
    case 36 => 14984
    case 37 => 13512
    case 38 => 12280
    case 39 => 11192
    case 40 => 10232
    case 41 => 9360
    case 42 => 8576
    case 43 => 7856
    case 44 => 7192
    case 45 => 6576
    case 46 => 6000
    case 47 => 5456
    case 48 => 4944
    case 49 => 4464
    case 50 => 4008
    case 51 => 3576
    case 52 => 3168
    case 53 => 2776
    case 54 => 2400
    case 55 => 2032
    case 56 => 1688
    case 57 => 1360
    case 58 => 1040
    case 59 => 728
    case 60 => 432
    case 61 => 136
    case 62 => -432
    case _ => -136
  }

  /** Decision levels of the low band. */
  function Q6(i: nat): (v: int16)
    requires i < 32
    ensures 0 <= v <= 2919
  {
    match i
    case 0 => 0
    case 1 => 35
    case 2 => 72
    case 3 => 110
    case 4 => 150
    case 5 => 190
    case 6 => 233
    case 7 => 276
    case 8 => 323
    case 9 => 370
    case 10 => 422
    case 11 => 473
    case 12 => 530
    case 13 => 587
    case 14 => 650
    case 15 => 714
    case 16 => 786
    case 17 => 858
    case 18 => 940
    case 19 => 1023
    case 20 => 1121
    case 21 => 1219
    case 22 => 1339
    case 23 => 1458
    case 24 => 1612
    case 25 => 1765
    case 26 => 1980
    case 27 => 2195
    case 28 => 2557
    case 29 => 2919
    case 30 => 0
    case _ => 0
  }

  /** Mantissas of the logarithmic scale. */
  function Ilb(i: nat): (v: int16)
    requires i < 32
    ensures 2048 <= v <= 4008
  {
    match i
    case 0 => 2048
    case 1 => 2093
    case 2 => 2139
    case 3 => 2186
    case 4 => 2233
    case 5 => 2282
    case 6 => 2332
    case 7 => 2383
    case 8 => 2435
    case 9 => 2489
    case 10 => 2543
    case 11 => 2599
    case 12 => 2656
    case 13 => 2714
    case 14 => 2774
    case 15 => 2834
    case 16 => 2896
    case 17 => 2960
    case 18 => 3025
    case 19 => 3091
    case 20 => 3158
    case 21 => 3228
    case 22 => 3298
    case 23 => 3371
    case 24 => 3444
    case 25 => 3520
    case 26 => 3597
    case 27 => 3676
    case 28 => 3756
    case 29 => 3838
    case 30 => 3922
    case _ => 4008
  }

  /** Codes of a negative difference. */
  function Iln(i: nat): (v: nat)
    requires i < 32
    ensures v < 64 && (1 <= i <= 30 ==> v >= 4)
  {
    match i
    case 0 => 0
    case 1 => 63
    case 2 => 62
    case 3 => 31
    case 4 => 30
    case 5 => 29
    case 6 => 28
    case 7 => 27
    case 8 => 26
    case 9 => 25
    case 10 => 24
    case 11 => 23
    case 12 => 22
    case 13 => 21
    case 14 => 20
    case 15 => 19
    case 16 => 18
    case 17 => 17
    case 18 => 16
    case 19 => 15
    case 20 => 14
    case 21 => 13
    case 22 => 12
    case 23 => 11
    case 24 => 10
    case 25 => 9
    case 26 => 8
    case 27 => 7
    case 28 => 6
    case 29 => 5
    case 30 => 4
    case _ => 0
  }

  /** Codes of a non-negative difference. */
  function Ilp(i: nat): (v: nat)
    requires i < 32
    ensures v < 64 && (1 <= i <= 30 ==> v >= 32)
  {
    match i
    case 0 => 0
    case 1 => 61
    case 2 => 60
    case 3 => 59
    case 4 => 58
    case 5 => 57
    case 6 => 56
    case 7 => 55
    case 8 => 54
    case 9 => 53
    case 10 => 52
    case 11 => 51
    case 12 => 50
    case 13 => 49
    case 14 => 48
    case 15 => 47
    case 16 => 46
    case 17 => 45
    case 18 => 44
    case 19 => 43
    case 20 => 42
    case 21 => 41
    case 22 => 40
    case 23 => 39
    case 24 => 38
    case 25 => 37
    case 26 => 36
    case 27 => 35
    case 28 => 34
    case 29 => 33
    case 30 => 32
    case _ => 0
  }

  /** Low band scale adaptation. */
  function Wl(i: nat): (v: int16)
    requires i < 8
    ensures -60 <= v <= 3042
  {
    match i
    case 0 => -60
    case 1 => -30
    case 2 => 58
    case 3 => 172
    case 4 => 334
    case 5 => 538
    case 6 => 1198
    case _ => 3042
  }

  function Rl42(i: nat): (v: nat)
    requires i < 16
    ensures v < 8
  {
    match i
    case 0 => 0
    case 1 => 7
    case 2 => 6
    case 3 => 5
    case 4 => 4
    case 5 => 3
    case 6 => 2
    case 7 => 1
    case 8 => 7
    case 9 => 6
    case 10 => 5
    case 11 => 4
    case 12 => 3
    case 13 => 2
    case 14 => 1
    case _ => 0
  }

  /** High band scale adaptation. */
  function Wh(i: nat): (v: int16)
    requires i < 3
    ensures -214 <= v <= 798
  {
    match i
    case 0 => 0
    case 1 => -214
    case _ => 798
  }

  function Rh2(i: nat): (v: nat)
    requires i < 4
    ensures 1 <= v < 3
  {
    match i
    case 0 => 2
    case 1 => 1
    case 2 => 2
    case _ => 1
  }

  // ---------------------------------------------------------------- low band quantiser

  /** Decision level i at scale factor det. */
  function Level(det: int16, i: nat): int
    requires i < 30
  {
    Mul(Q6(i), det) / 4096
  }

  /** The first of the cells from i on whose upper level exceeds wd. */
  function CellFrom(det: int16, wd: int, i: nat): (n: nat)
    requires 1 <= i <= 30
    ensures i <= n <= 30
    decreases 30 - i
  {
    if i == 30 || wd < Level(det, i) then i else CellFrom(det, wd, i + 1)
  }

  /** The magnitude the cells are for: el, or its one's complement. */
  function Magnitude(el: int16): (wd: int)
    ensures 0 <= wd <= 0x7fff
  {
    var x: int := el;
    if x >= 0 then x else -x - 1
  }

  /** QUANTL */
  function QuantLow(det: int16, el: int16): (ilow: nat)
    ensures 4 <= ilow < 64
  {
    var i := CellFrom(det, Magnitude(el), 1);
    if el < 0 then Iln(i) else Ilp(i)
  }

  /** Cell i holds wd. */
  ghost predicate InCell(det: int16, wd: int, i: nat) {
    1 <= i <= 30 && Level(det, i - 1) <= wd && (i < 30 ==> wd < Level(det, i))
  }

  lemma LevelsRise(det: int16, i: nat, j: nat)
    requires i <= j < 30 && det >= 0
    ensures 0 <= Level(det, i) <= Level(det, j)
  {
    hide Mul;
    LevelTableRises(i, j);
    MulIsProduct(Q6(i), det);
    MulIsProduct(Q6(j), det);
    MulMono(Q6(i), Q6(j), det);
    MulMono(0, Q6(i), det);
  }

  lemma {:induction false} LevelTableRises(i: nat, j: nat)
    requires i <= j < 30
    ensures Q6(i) <= Q6(j)
    decreases j - i
  {
    if i >= j {
    } else {
      LevelTableRises(i, j - 1);
      NextLevel(j - 1);
    }
  }

  lemma NextLevel(i: nat)
    requires i < 29
    ensures Q6(i) <= Q6(i + 1)
  {
  }

  lemma {:induction false} CellFromHolds(det: int16, wd: int, i: nat)
    requires 1 <= i <= 30 && Level(det, i - 1) <= wd
    ensures InCell(det, wd, CellFrom(det, wd, i))
    decreases 30 - i
  {
    hide Level;
    if i == 30 || wd < Level(det, i) {
    } else {
      CellFromHolds(det, wd, i + 1);
    }
  }

  /** QUANTL picks the one cell that holds the difference. */
  lemma CellIsUnique(det: int16, el: int16, i: nat)
    requires det >= 0
    ensures InCell(det, Magnitude(el), CellFrom(det, Magnitude(el), 1))
    ensures InCell(det, Magnitude(el), i) ==> i == CellFrom(det, Magnitude(el), 1)
  {
    hide Level;
    var wd := Magnitude(el);
    LevelZero(det);
    CellFromHolds(det, wd, 1);
    var n := CellFrom(det, wd, 1);
    if InCell(det, wd, i) {
      if i < n { LevelsRise(det, i, n - 1); }
      if n < i { LevelsRise(det, n, i - 1); }
    }
  }

  lemma LevelZero(det: int16)
    ensures Level(det, 0) == 0
  {
    MulIsProduct(0, det);
  }

  /** The product of scale factor and inverse quantiser value. */
  function Inverse(det: int16, q: int16): int16 { Wrap16(Mul(det, q) / 0x8000) }

  lemma InverseExact(det: int16, q: int16)
    requires det != MIN16
    ensures Inverse(det, q) == Mul(det, q) / 0x8000
  {
    hide Mul;
    Q15Bound(det, q);
  }

  /** The six bit inverse values lie between the decision levels of their cells. */
  lemma PositiveInverses(i: nat)
    requires 1 <= i <= 30
    ensures 8 * Q6(i - 1) <= Qm6(Ilp(i)) && (i < 30 ==> Qm6(Ilp(i)) <= 8 * Q6(i))
  {
  }

  lemma NegativeInverses(i: nat)
    requires 1 <= i <= 30
    ensures 8 * Q6(i - 1) <= -Qm6(Iln(i)) && (i < 30 ==> -Qm6(Iln(i)) <= 8 * Q6(i))
  {
  }

  /** Those of the five bit codes lie between the outer levels of two cells. */
  lemma FiveBitInverses(i: nat)
    requires 1 <= i <= 30
    ensures var lo, hi := (i - 1) / 2 * 2, (i - 1) / 2 * 2 + 2;
            && 8 * Q6(lo) <= Qm5(Ilp(i) / 2) && (hi < 30 ==> Qm5(Ilp(i) / 2) <= 8 * Q6(hi))
            && 8 * Q6(lo) <= -Int(Qm5(Iln(i) / 2)) && (hi < 30 ==> -Int(Qm5(Iln(i) / 2)) <= 8 * Q6(hi))
  {
    hide Q6, Qm5, Ilp, Iln;
    FiveBitPositive(i);
    FiveBitNegative(i);
  }

  lemma FiveBitPositive(i: nat)
    requires 1 <= i <= 30
    ensures var lo, hi := (i - 1) / 2 * 2, (i - 1) / 2 * 2 + 2;
            8 * Q6(lo) <= Qm5(Ilp(i) / 2) && (hi < 30 ==> Qm5(Ilp(i) / 2) <= 8 * Q6(hi))
  {
    hide Q6, Qm5, Ilp;
    FiveBitAbove(i);
    if i <= 28 { FiveBitBelow(i); }
  }

  lemma FiveBitAbove(i: nat)
    requires 1 <= i <= 30
    ensures 8 * Q6((i - 1) / 2 * 2) <= Qm5(Ilp(i) / 2)
  {
  }

  lemma FiveBitBelow(i: nat)
    requires 1 <= i <= 28
    ensures Qm5(Ilp(i) / 2) <= 8 * Q6((i - 1) / 2 * 2 + 2)
  {
  }

  lemma FiveBitNegative(i: nat)
    requires 1 <= i <= 30
    ensures var lo, hi := (i - 1) / 2 * 2, (i - 1) / 2 * 2 + 2;
            8 * Q6(lo) <= -Int(Qm5(Iln(i) / 2)) && (hi < 30 ==> -Int(Qm5(Iln(i) / 2)) <= 8 * Q6(hi))
  {
  }

  /** Those of the four bit codes lie between the outer levels of four cells; the two next to
      zero, on either side, are zero. */
  lemma FourBitInverses(i: nat)
    requires 1 <= i <= 30
    ensures var lo := if i <= 2 then 0 else 2 + (i - 3) / 4 * 4;
            var hi := if i <= 2 then 2 else lo + 4;
            && 8 * Q6(lo) <= Qm4(Ilp(i) / 4) && (hi < 30 ==> Qm4(Ilp(i) / 4) <= 8 * Q6(hi))
            && 8 * Q6(lo) <= -Int(Qm4(Iln(i) / 4)) && (hi < 30 ==> -Int(Qm4(Iln(i) / 4)) <= 8 * Q6(hi))
  {
  }

  /** Scaling keeps the order, and negating a scaled value moves it by at most one. */
  lemma ScaledOrder(q: int, m: int, det: int16)
    requires det >= 0
    ensures 8 * q <= m ==> Mul(q, det) / 4096 <= Mul(det, m) / 0x8000
    ensures m <= 8 * q ==> Mul(det, m) / 0x8000 <= Mul(q, det) / 4096
    ensures 8 * q <= m ==> Mul(det, -m) / 0x8000 <= -(Mul(q, det) / 4096)
    ensures m <= 8 * q ==> -(Mul(q, det) / 4096) - 1 <= Mul(det, -m) / 0x8000
  {
    hide Mul;
    MulIsProduct(q, det);
    MulIsProduct(det, m);
    MulIsProduct(det, -m);
    var qd, dm: int := q * det, det * m;
    assert det * -m == -dm;
    if 8 * q <= m { MulMono(8 * q, m, det); assert 8 * q * det == 8 * qd; }
    if m <= 8 * q { MulMono(m, 8 * q, det); assert 8 * q * det == 8 * qd; }
  }

  /** The value the eight bit decoder adds for a difference lies in the difference's own
      cell, up to one unit, and has its sign. */
  lemma InverseInCell(det: int16, el: int16)
    requires det >= 0
    ensures var i, y := CellFrom(det, Magnitude(el), 1), Inverse(det, Qm6(QuantLow(det, el)));
            && (el >= 0 ==> Level(det, i - 1) <= y && (i < 30 ==> y <= Level(det, i)))
            && (el < 0 ==> y <= -Level(det, i - 1) && (i < 30 ==> -Level(det, i) - 1 <= y))
  {
    hide Mul, Q6, Qm6, Iln, Ilp, Wrap16;
    var i := CellFrom(det, Magnitude(el), 1);
    PositiveInverses(i);
    NegativeInverses(i);
    var q: int := Qm6(QuantLow(det, el));
    var m := if el < 0 then -q else q;
    InverseExact(det, Qm6(QuantLow(det, el)));
    ScaledOrder(Q6(i - 1), m, det);
    if i < 30 { ScaledOrder(Q6(i), m, det); }
  }

  /** Quantisation error of the eight bit mode: at most the width of the cell, and one. */
  lemma QuantisationError(det: int16, el: int16)
    requires det >= 0
    ensures var i, y := CellFrom(det, Magnitude(el), 1), Inverse(det, Qm6(QuantLow(det, el)));
            && InCell(det, Magnitude(el), i)
            && (i < 30 ==> Abs(y - el) <= Level(det, i) - Level(det, i - 1) + 1)
            && (el >= 0 ==> y >= 0) && (el < 0 ==> y <= 0)
  {
    hide Level, Inverse, QuantLow;
    var i := CellFrom(det, Magnitude(el), 1);
    CellIsUnique(det, el, i);
    InverseInCell(det, el);
    LevelsRise(det, i - 1, i - 1);
  }

  // ---------------------------------------------------------------- high band quantiser

  /** The decision level between the two magnitudes of the high band. */
  function HighLevel(det: int16): int { 564 * Int(det) / 4096 }

  /** QUANTH */
  function QuantHigh(det: int16, eh: int16): (ihigh: nat)
    ensures ihigh < 4
  {
    var big := Magnitude(eh) >= HighLevel(det);
    if eh < 0 then (if big then 0 else 1) else if big then 2 else 3
  }

  /** The value the decoder adds for a high band difference has the sign of the difference
      and lies on its side of the decision level; a difference below the level is missed by
      at most the level, one above it by no more than the further of the two is from it. */
  lemma HighQuantisation(det: int16, eh: int16)
    requires det >= 0
    ensures var t, y, wd := HighLevel(det), Int(Inverse(det, Qm2(QuantHigh(det, eh)))), Magnitude(eh);
            && (eh >= 0 ==> y >= 0) && (eh < 0 ==> y <= 0)
            && (wd >= t ==> Abs(y) >= t && Abs(y - eh) <= (if Abs(eh) > Abs(y) then Abs(eh) else Abs(y)) - t)
            && (wd < t ==> Abs(y) <= t && Abs(y - eh) <= t)
  {
    hide Mul;
    var q := Qm2(QuantHigh(det, eh));
    InverseExact(det, q);
    MulIsProduct(det, q);
    assert q in {-7408, -1616, 7408, 1616};
  }

  // ---------------------------------------------------------------- scale factor adaptation

  /** LOGSCL and LOGSCH of the encoder: the sum is converted to 16 bits, then limited. */
  function EncoderNb(nb: int16, w: int16, limit: int16): (x: int16)
    requires limit >= 0
    ensures 0 <= x <= limit
  {
    var x := Wrap16(Int(nb) * 127 / 128 + w);
    if x < 0 then 0 else if x > limit then limit else x
  }

  /** The same in the decoder, limited first. */
  function DecoderNb(nb: int16, w: int16, limit: int16): (x: int16)
    requires limit >= 0
    ensures 0 <= x <= limit
  {
    var x := Int(nb) * 127 / 128 + w;
    if x < 0 then 0 else if x > limit then limit else x
  }

  /** Both agree, because the sum of a limited logarithm and a table value never leaves 16
      bits. */
  lemma NbAgree(nb: int16, w: int16, limit: int16)
    requires 0 <= nb <= limit <= 22528 && -214 <= w <= 3042
    ensures EncoderNb(nb, w, limit) == DecoderNb(nb, w, limit)
  {
  }

  /** SCALEL with base 8 and SCALEH with base 10. */
  function Scale(nb: int16, base: nat): int16
    requires 0 <= nb <= 22528
  {
    var m := Int(Ilb(nb / 64 % 32));
    var wd2 := base - nb / 2048;
    Wrap16(4 * (if wd2 < 0 then Asl(m, -wd2) else Asr(m, wd2)))
  }

  lemma ScaleBounds(nb: int16, base: nat)
    requires (base == 8 && 0 <= nb <= 18432) || (base == 10 && 0 <= nb <= 22528)
    ensures (if base == 8 then 32 else 8) <= Scale(nb, base) <= 16384
    ensures Scale(nb, base)
            == var m, wd2 := Int(Ilb(nb / 64 % 32)), base - nb / 2048;
               4 * (if wd2 < 0 then Asl(m, -wd2) else Asr(m, wd2))
  {
    hide Pow2, Ilb, Wrap16, Asr;
    Pow2Table();
    var wd2: int := base - nb / 2048;
    var m: int := Ilb(nb / 64 % 32);
    if wd2 < 0 {
      TopOfScale(nb, base);
      assert Asl(m, 1) == Asl(2 * m, 0);
      FitsExact(4 * Asl(m, -wd2));
    } else {
      Pow2Mono(wd2, base);
      AsrIsQuotient(m, wd2);
      ShiftedMantissa(m, Pow2(wd2), if base == 8 then 8 else 2);
      FitsExact(4 * Asr(m, wd2));
    }
  }

  /** Only the upper limit itself reaches the shift to the left. */
  lemma TopOfScale(nb: int16, base: nat)
    requires (base == 8 && 0 <= nb <= 18432) || (base == 10 && 0 <= nb <= 22528)
    requires base - nb / 2048 < 0
    ensures base - nb / 2048 == -1 && Ilb(nb / 64 % 32) == 2048
  {
    assert nb == 2048 * (base + 1);
  }

  lemma ShiftedMantissa(m: int, p: nat, lo: nat)
    requires p >= 1 && lo * p <= m <= 4008
    ensures lo <= m / p <= 4008
  {
    var q := m / p;
    assert m == p * q + m % p;
    if q < lo { MulMono(q + 1, lo, p); }
    if q > m { MulMono(1, p, q); }
  }

  // ---------------------------------------------------------------- what adaptation does

  /** A larger low band difference adapts the scale factor up by more, whatever its sign. */
  lemma {:induction false} LowAdaptationRises(i: nat, j: nat)
    requires 1 <= i <= j <= 30
    ensures Wl(Rl42(Ilp(i) / 4)) == Wl(Rl42(Iln(i) / 4)) <= Wl(Rl42(Ilp(j) / 4))
    ensures Wl(Rl42(Ilp(1) / 4)) < 0 < Wl(Rl42(Ilp(30) / 4))
    decreases j - i
  {
    hide Wl, Rl42, Ilp, Iln;
    AdaptationStep(i);
    AdaptationEnds();
    if i == j {
    } else {
      LowAdaptationRises(i + 1, j);
    }
  }

  lemma AdaptationStep(i: nat)
    requires 1 <= i <= 30
    ensures Wl(Rl42(Ilp(i) / 4)) == Wl(Rl42(Iln(i) / 4))
    ensures i < 30 ==> Wl(Rl42(Ilp(i) / 4)) <= Wl(Rl42(Ilp(i + 1) / 4))
  {
    SignsAdaptAlike(i);
    if i < 30 { NextCellAdapts(i); }
  }

  lemma SignsAdaptAlike(i: nat)
    requires 1 <= i <= 30
    ensures Rl42(Ilp(i) / 4) == Rl42(Iln(i) / 4)
  {
  }

  lemma NextCellAdapts(i: nat)
    requires 1 <= i < 30
    ensures Wl(Rl42(Ilp(i) / 4)) <= Wl(Rl42(Ilp(i + 1) / 4))
  {
  }

  lemma AdaptationEnds()
    ensures Wl(Rl42(Ilp(1) / 4)) < 0 < Wl(Rl42(Ilp(30) / 4))
  {
  }

  /** In the high band, a difference at or above the decision level adapts up, one below it
      down. */
  lemma HighAdaptation(det: int16, eh: int16)
    ensures var w := Wh(Rh2(QuantHigh(det, eh)));
            if Magnitude(eh) >= HighLevel(det) then w > 0 else w < 0
  {
  }

  /** The logarithm of the scale factor forgets: it moves by w from 127/128 of itself. */
  lemma LogarithmMoves(nb: int16, w: int16, limit: int16)
    requires 0 <= nb <= limit <= 22528 && -214 <= w <= 3042
    ensures var x := 128 * Int(DecoderNb(nb, w, limit));
            && (0 < x < 128 * Int(limit) ==> 127 * Int(nb) + 128 * Int(w) - 127 <= x <= 127 * Int(nb) + 128 * Int(w))
            && (w >= 176 ==> DecoderNb(nb, w, limit) >= Min(limit, nb))
            && (w <= 0 ==> DecoderNb(nb, w, limit) <= nb)
  {
  }

  /** The mantissas step up by a 32nd of an octave. */
  lemma MantissaTable(i: nat)
    requires i < 32
    ensures 2048 <= Ilb(i) < 4096
    ensures 10215 * Int(Ilb(i)) <= 10000 * (if i < 31 then Int(Ilb(i + 1)) else 4096) <= 10222 * Int(Ilb(i))
  {
  }

  lemma {:induction false} AsrHalved(x: int, n: nat)
    ensures Asr(x, n + 1) == Asr(x, n) / 2
    decreases n
  {
    if n == 0 {
    } else {
      AsrHalved(x / 2, n - 1);
    }
  }

  /** The scale factor doubles with every 2048 of its logarithm, up to the bits shifted out. */
  lemma ScaleDoubles(nb: int16, base: nat)
    requires (base == 8 && 0 <= nb <= 16384) || (base == 10 && 0 <= nb <= 20480)
    ensures 0 <= Int(Scale(nb + 2048, base)) - 2 * Int(Scale(nb, base)) <= 4
  {
    hide Scale, Ilb, Asr, Asl;
    ScaleBounds(nb, base);
    ScaleBounds(nb + 2048, base);
    var m, w := Int(Ilb(nb / 64 % 32)), base - nb / 2048;
    NextOctave(nb);
    if w == 0 {
      ShiftsOfOne(m);
    } else {
      AsrHalved(m, w - 1);
    }
  }

  lemma NextOctave(nb: int)
    ensures (nb + 2048) / 2048 == nb / 2048 + 1 && (nb + 2048) / 64 % 32 == nb / 64 % 32
  {
    assert (nb + 2048) / 64 == nb / 64 + 32;
  }

  lemma ShiftsOfOne(m: int)
    ensures Asl(m, 1) == 2 * m && Asr(m, 0) == m
  {
    assert Asl(m, 1) == Asl(2 * m, 0);
  }
}
