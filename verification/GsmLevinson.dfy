/** What the Schur recursion of LPC analysis computes: without rounding, its arrays hold the
    correlations of the prediction error, and its coefficients are those of the predictor that
    solves the normal equations. Each step of GsmLpc is such a step, rounded. */
module GsmLevinson {
  import opened FixedPoint
  import opened GsmArith
  import opened GsmShortTerm
  import opened GsmLpc

  /** Lags 0 to 8 of an autocorrelation. */
  type Lags = c: seq<real> | |c| == 9 witness seq(9, _ => 0.0)

  /** The autocorrelation at any lag; it is even. */
  function Lag(c: Lags, i: int): real { if Abs(i) <= 8 then c[Abs(i)] else 0.0 }

  /** Coefficient j of the predictor of order n: the reflection coefficients r, stepped up. */
  function Predictor(r: seq<real>, n: nat, j: int): real
    requires n <= |r|
  {
    if j < 0 || j > n then 0.0
    else if n == 0 then 1.0
    else Predictor(r, n - 1, j) + r[n - 1] * Predictor(r, n - 1, n - j)
  }

  /** The first k terms of the correlation of the prediction error of order n with the signal,
      i samples on. */
  function Terms(c: Lags, r: seq<real>, n: nat, i: int, k: nat): real
    requires n <= |r|
  {
    if k == 0 then 0.0 else Terms(c, r, n, i, k - 1) + Predictor(r, n, k - 1) * Lag(c, i - (k - 1))
  }

  function Error(c: Lags, r: seq<real>, n: nat, i: int): real
    requires n <= |r|
  {
    Terms(c, r, n, i, n + 1)
  }

  /** The terms of the predictor of order n - 1 run backwards. */
  function Mirrored(c: Lags, r: seq<real>, n: nat, i: int, k: nat): real
    requires 1 <= n <= |r|
  {
    if k == 0 then 0.0 else Mirrored(c, r, n, i, k - 1) + Predictor(r, n - 1, n - (k - 1)) * Lag(c, i - (k - 1))
  }

  lemma {:induction false} MirroredIsForward(c: Lags, r: seq<real>, n: nat, i: int, k: nat)
    requires 1 <= n <= |r| && k <= n + 1
    ensures Mirrored(c, r, n, i, k) + Terms(c, r, n - 1, n - i, n + 1 - k) == Terms(c, r, n - 1, n - i, n + 1)
  {
    hide Predictor;
    if k == 0 {
    } else {
      MirroredIsForward(c, r, n, i, k - 1);
      assert Lag(c, i - (k - 1)) == Lag(c, (n - i) - (n - (k - 1)));
    }
  }

  lemma PredictorStep(r: seq<real>, n: nat, j: int)
    requires 1 <= n <= |r| && 0 <= j <= n
    ensures Predictor(r, n, j) == Predictor(r, n - 1, j) + r[n - 1] * Predictor(r, n - 1, n - j)
  {
  }

  lemma Combined(t: real, x: real, m: real, a: real, b: real, l: real)
    ensures t + x * m + (a + x * b) * l == t + a * l + x * (m + b * l)
  {
  }

  lemma {:induction false} TermsSplit(c: Lags, r: seq<real>, n: nat, i: int, k: nat)
    requires 1 <= n <= |r| && k <= n + 1
    ensures Terms(c, r, n, i, k) == Terms(c, r, n - 1, i, k) + r[n - 1] * Mirrored(c, r, n, i, k)
  {
    hide Lag, Predictor;
    if k == 0 {
      assert r[n - 1] * 0.0 == 0.0;
    } else {
      TermsSplit(c, r, n, i, k - 1);
      PredictorStep(r, n, k - 1);
      Combined(Terms(c, r, n - 1, i, k - 1), r[n - 1], Mirrored(c, r, n, i, k - 1), Predictor(r, n - 1, k - 1),
               Predictor(r, n - 1, n - (k - 1)), Lag(c, i - (k - 1)));
    }
  }

  /** One more reflection coefficient adds the error mirrored about half the new order. */
  lemma ErrorStep(c: Lags, r: seq<real>, n: nat, i: int)
    requires 1 <= n <= |r|
    ensures Error(c, r, n, i) == Error(c, r, n - 1, i) + r[n - 1] * Error(c, r, n - 1, n - i)
  {
    hide Lag;
    TermsSplit(c, r, n, i, n + 1);
    MirroredIsForward(c, r, n, i, n + 1);
    assert Terms(c, r, n - 1, i, n + 1) == Terms(c, r, n - 1, i, n);
    assert Terms(c, r, n - 1, n - i, n + 1) == Terms(c, r, n - 1, n - i, n);
  }

  // ---------------------------------------------------------------- the recursion, unrounded

  /** P and K without rounding. */
  datatype Ideal = Ideal(p: seq<real>, k: seq<real>)

  ghost predicate Sized(s: Ideal) { |s.p| == |s.k| == 9 }

  function IdealP(s: Ideal, r: real, m: nat): real
    requires Sized(s) && m < 8
  {
    if m == 0 then s.p[0] + s.p[1] * r else s.p[m + 1] + s.k[m] * r
  }

  function IdealK(s: Ideal, r: real, m: nat): real
    requires Sized(s) && m < 8
  {
    s.k[m] + s.p[m + 1] * r
  }

  function IdealStep(s: Ideal, n: nat, r: real): (t: Ideal)
    requires Sized(s) && 1 <= n <= 7
    ensures Sized(t)
  {
    Ideal(seq(9, m requires 0 <= m < 9 => if m <= 8 - n then IdealP(s, r, m) else s.p[m]),
          seq(9, m requires 0 <= m < 9 => if 1 <= m <= 8 - n then IdealK(s, r, m) else s.k[m]))
  }

  /** The recursion on the lags c with the coefficients r. */
  function IdealRun(c: Lags, r: seq<real>, n: nat): (s: Ideal)
    requires n <= |r| && n <= 7
    ensures Sized(s)
  {
    if n == 0 then Ideal(c, c) else IdealStep(IdealRun(c, r, n - 1), n, r[n - 1])
  }

  /** P[m] holds the error n + m samples on and K[m] that m samples back; P[0] its energy. */
  ghost predicate HoldsError(c: Lags, r: seq<real>, n: nat, s: Ideal, m: nat)
    requires n <= |r| && n <= 7 && Sized(s) && m <= 8 - n
  {
    if m == 0 then s.p[0] == Error(c, r, n, 0)
    else s.p[m] == Error(c, r, n, n + m) && s.k[m] == Error(c, r, n, 0 - m)
  }

  lemma OrderZero(c: Lags, r: seq<real>, i: int)
    ensures Error(c, r, 0, i) == Lag(c, i)
  {
    assert Terms(c, r, 0, i, 1) == Terms(c, r, 0, i, 0) + Predictor(r, 0, 0) * Lag(c, i - 0);
  }

  /** A step of the recursion is a step of the error. */
  lemma StepHoldsError(c: Lags, r: seq<real>, n: nat, s: Ideal, m: nat)
    requires 1 <= n <= |r| && n <= 7 && Sized(s) && m <= 8 - n
    requires HoldsError(c, r, n - 1, s, m) && HoldsError(c, r, n - 1, s, m + 1)
    ensures HoldsError(c, r, n, IdealStep(s, n, r[n - 1]), m)
  {
    hide Error;
    if m == 0 {
      ErrorStep(c, r, n, 0);
      assert n - 0 == n - 1 + 1;
    } else {
      ErrorStep(c, r, n, n + m);
      ErrorStep(c, r, n, 0 - m);
      assert n + m == n - 1 + (m + 1) && n - (0 - m) == n + m && n - (n + m) == 0 - m;
    }
  }

  lemma {:induction false} RunHoldsErrors(c: Lags, r: seq<real>, n: nat, m: nat)
    requires n <= |r| && n <= 7 && m <= 8 - n
    ensures HoldsError(c, r, n, IdealRun(c, r, n), m)
  {
    hide Error, IdealStep;
    if n == 0 {
      OrderZero(c, r, m);
      OrderZero(c, r, 0 - m);
    } else {
      RunHoldsErrors(c, r, n - 1, m);
      RunHoldsErrors(c, r, n - 1, m + 1);
      StepHoldsError(c, r, n, IdealRun(c, r, n - 1), m);
    }
  }

  /** Every coefficient is the quotient -P[1] / P[0] of its step. */
  ghost predicate Quotients(c: Lags, r: seq<real>, n: nat)
    requires n <= |r| && n <= 8
  {
    forall i :: 0 <= i < n ==> r[i] * IdealRun(c, r, i).p[0] == -IdealRun(c, r, i).p[1]
  }

  /** The predictor solves the normal equations: its error is uncorrelated with each of the
      last n samples. */
  lemma {:induction false} NormalEquations(c: Lags, r: seq<real>, n: nat, i: nat)
    requires n <= |r| && n <= 8 && Quotients(c, r, n) && 1 <= i <= n
    ensures Error(c, r, n, i) == 0.0
  {
    hide Error, IdealRun;
    ErrorStep(c, r, n, i);
    if i < n {
      NormalEquations(c, r, n - 1, i);
      NormalEquations(c, r, n - 1, n - i);
    } else {
      RunHoldsErrors(c, r, n - 1, 0);
      RunHoldsErrors(c, r, n - 1, 1);
      var s := IdealRun(c, r, n - 1);
      assert s.p[1] == Error(c, r, n - 1, n - 1 + 1) && s.p[0] == Error(c, r, n - 1, 0);
    }
  }

  // ---------------------------------------------------------------- the rounded step

  function Reals(v: Vec9): seq<real> { seq(9, m requires 0 <= m < 9 => Int(v[m]) as real) }

  /** A step of the fixed-point recursion is a step of the exact one, each cell rounded to the
      nearest unit, as long as its sum fits 16 bits. */
  lemma StepIsRounded(s: Schur, n: nat, r: int16, m: nat)
    requires 1 <= n <= 7 && m <= 8 - n && r != MIN16
    ensures var t := Ideal(Reals(s.p), Reals(s.k));
            var x := Int(r) as real / 32768.0;
            && (Fits16(if m == 0 then Int(s.p[0]) + MultR(s.p[1], r) else Int(s.p[m + 1]) + MultR(s.k[m], r))
                ==> -0.5 <= (Int(NextP(s, n, r, m)) as real) - IdealP(t, x, m) <= 0.5)
            && (m > 0 && Fits16(Int(s.k[m]) + MultR(s.p[m + 1], r))
                ==> -0.5 <= (Int(NextK(s, n, r, m)) as real) - IdealK(t, x, m) <= 0.5)
  {
    hide Mul, MultR;
    ProductRounded(s.p[m + 1], r);
    ProductRounded(s.k[m], r);
  }

  lemma ProductRounded(a: int16, r: int16)
    requires r != MIN16
    ensures var exact := (Int(a) as real) * (Int(r) as real / 32768.0);
            -0.5 <= (Int(MultR(a, r)) as real) - exact <= 0.5
  {
    hide Mul;
    MulIsProduct(a, r);
    MultRIsRound15(a, r);
    var p := Int(a) * r;
    var y := (p + 0x4000) / 0x8000;
    assert -0x4000 <= 0x8000 * y - p <= 0x4000;
    RealProduct(a, r);
  }

  lemma RealProduct(a: int, r: int)
    ensures (a as real) * (r as real / 32768.0) == ((a * r) as real) / 32768.0
  {
  }
}
