/** Stabilisation of the BroadVoice16 line spectrum pairs: they are put in order and kept
    away from the ends of the range and from each other. */
module Bv16Lsp {
  import opened FixedPoint

  const LSPMIN: int := 49
  const LSPMAX: int := 32694
  const DLSPMIN: int := 410

  // ---------------------------------------------------------------- ordering

  ghost predicate InOrder(s: seq<int16>) {
    forall i :: 0 <= i < |s| - 1 ==> s[i] <= s[i + 1]
  }

  /** How many of the elements exceed x. */
  function Above(s: seq<int16>, x: int16): nat {
    if s == [] then 0 else Above(s[..|s| - 1], x) + if s[|s| - 1] > x then 1 else 0
  }

  /** The pairs that stand in the wrong order. */
  function Inversions(s: seq<int16>): nat {
    if s == [] then 0 else Inversions(s[..|s| - 1]) + Above(s[..|s| - 1], s[|s| - 1])
  }

  lemma Snoc(s: seq<int16>, y: int16, x: int16)
    ensures Above(s + [y], x) == Above(s, x) + if y > x then 1 else 0
    ensures Inversions(s + [y]) == Inversions(s) + Above(s, y)
  {
    assert (s + [y])[..|s|] == s;
  }

  /** Exchanging two neighbours p + [a, b] + q. */
  lemma {:induction false} AboveSwapped(p: seq<int16>, a: int16, b: int16, q: seq<int16>, x: int16)
    ensures Above(p + [b, a] + q, x) == Above(p + [a, b] + q, x)
  {
    hide Above;
    if q == [] {
      Snoc(p + [a], b, x);
      Snoc(p, a, x);
      Snoc(p + [b], a, x);
      Snoc(p, b, x);
      assert p + [a, b] + q == p + [a] + [b] && p + [b, a] + q == p + [b] + [a];
    } else {
      var n := |q| - 1;
      AboveSwapped(p, a, b, q[..n], x);
      assert p + [a, b] + q == p + [a, b] + q[..n] + [q[n]];
      assert p + [b, a] + q == p + [b, a] + q[..n] + [q[n]];
      Snoc(p + [a, b] + q[..n], q[n], x);
      Snoc(p + [b, a] + q[..n], q[n], x);
    }
  }

  /** Exchanging two neighbours in the wrong order removes exactly one inversion. */
  lemma {:induction false} InversionRemoved(p: seq<int16>, a: int16, b: int16, q: seq<int16>)
    requires a > b
    ensures Inversions(p + [b, a] + q) + 1 == Inversions(p + [a, b] + q)
  {
    hide Inversions, Above;
    if q == [] {
      Snoc(p + [a], b, b);
      Snoc(p, a, b);
      Snoc(p + [b], a, a);
      Snoc(p, b, a);
      assert p + [a, b] + q == p + [a] + [b] && p + [b, a] + q == p + [b] + [a];
    } else {
      var n := |q| - 1;
      InversionRemoved(p, a, b, q[..n]);
      AboveSwapped(p, a, b, q[..n], q[n]);
      assert p + [a, b] + q == p + [a, b] + q[..n] + [q[n]];
      assert p + [b, a] + q == p + [b, a] + q[..n] + [q[n]];
      Snoc(p + [a, b] + q[..n], q[n], q[n]);
      Snoc(p + [b, a] + q[..n], q[n], q[n]);
    }
  }

  lemma Exchanged(s: seq<int16>, i: nat)
    requires i + 1 < |s| && s[i] > s[i + 1]
    ensures var t := s[i := s[i + 1]][i + 1 := s[i]];
            multiset(t) == multiset(s) && Inversions(t) + 1 == Inversions(s)
  {
    hide Inversions;
    var t, p, q := s[i := s[i + 1]][i + 1 := s[i]], s[..i], s[i + 2..];
    InversionRemoved(p, s[i], s[i + 1], q);
    assert s == p + [s[i], s[i + 1]] + q && t == p + [s[i + 1], s[i]] + q;
  }

  /** The elements in order, by insertion. */
  function Insert(s: seq<int16>, x: int16): (r: seq<int16>)
    ensures |r| == |s| + 1
  {
    if s == [] || s[|s| - 1] <= x then s + [x] else Insert(s[..|s| - 1], x) + [s[|s| - 1]]
  }

  function Sorted(s: seq<int16>): (r: seq<int16>)
    ensures |r| == |s|
  {
    if s == [] then [] else Insert(Sorted(s[..|s| - 1]), s[|s| - 1])
  }

  lemma {:induction false} InsertOrdered(s: seq<int16>, x: int16)
    requires InOrder(s)
    ensures InOrder(Insert(s, x))
    ensures Insert(s, x)[|s|] == if s == [] || s[|s| - 1] <= x then x else s[|s| - 1]
  {
    if s == [] || s[|s| - 1] <= x {
    } else {
      var n := |s| - 1;
      InsertOrdered(s[..n], x);
      assert n > 0 ==> s[n - 1] <= s[n];
    }
  }

  lemma MultisetSnoc(s: seq<int16>)
    requires s != []
    ensures multiset(s) == multiset(s[..|s| - 1]) + multiset{s[|s| - 1]}
    ensures multiset(s[..|s| - 1]) == multiset(s) - multiset{s[|s| - 1]}
  {
    assert s == s[..|s| - 1] + [s[|s| - 1]];
  }

  lemma {:induction false} InsertElements(s: seq<int16>, x: int16)
    ensures multiset(Insert(s, x)) == multiset(s) + multiset{x}
  {
    if s == [] || s[|s| - 1] <= x {
    } else {
      InsertElements(s[..|s| - 1], x);
      MultisetSnoc(s);
    }
  }

  lemma {:induction false} SortedOrdered(s: seq<int16>)
    ensures InOrder(Sorted(s)) && multiset(Sorted(s)) == multiset(s)
  {
    hide InOrder, Insert;
    if s == [] {
      EmptyInOrder(Sorted(s));
    } else {
      var n := |s| - 1;
      SortedOrdered(s[..n]);
      InsertOrdered(Sorted(s[..n]), s[n]);
      InsertElements(Sorted(s[..n]), s[n]);
      MultisetSnoc(s);
    }
  }

  lemma EmptyInOrder(s: seq<int16>)
    requires s == []
    ensures InOrder(s)
  {
  }

  lemma {:induction false} LastIsGreatest(s: seq<int16>, i: nat)
    requires InOrder(s) && i < |s|
    ensures s[i] <= s[|s| - 1]
    decreases |s| - i
  {
    if i >= |s| - 1 {
    } else {
      LastIsGreatest(s, i + 1);
    }
  }

  lemma InOrderPrefix(s: seq<int16>)
    requires InOrder(s) && s != []
    ensures InOrder(s[..|s| - 1])
  {
  }

  lemma SameSize(s: seq<int16>, t: seq<int16>)
    requires multiset(s) == multiset(t)
    ensures |s| == |t|
  {
    assert |s| == |multiset(s)| == |multiset(t)| == |t|;
  }

  lemma LastAtLeast(s: seq<int16>, x: int16)
    requires InOrder(s) && x in multiset(s)
    ensures s != [] && x <= s[|s| - 1]
  {
    hide InOrder;
    assert x in s;
    var i :| 0 <= i < |s| && s[i] == x;
    LastIsGreatest(s, i);
  }

  lemma SameLast(s: seq<int16>, t: seq<int16>)
    requires InOrder(s) && InOrder(t) && multiset(s) == multiset(t) && s != [] && t != []
    ensures s[|s| - 1] == t[|t| - 1]
  {
    hide InOrder;
    assert s[|s| - 1] in multiset(s) && t[|t| - 1] in multiset(t);
    LastAtLeast(t, s[|s| - 1]);
    LastAtLeast(s, t[|t| - 1]);
  }

  /** A multiset has one ordered sequence. */
  lemma {:induction false} OrderUnique(s: seq<int16>, t: seq<int16>)
    requires InOrder(s) && InOrder(t) && multiset(s) == multiset(t)
    ensures s == t
  {
    hide InOrder;
    SameSize(s, t);
    if s == [] {
    } else {
      var n := |s| - 1;
      SameLast(s, t);
      MultisetSnoc(s);
      MultisetSnoc(t);
      InOrderPrefix(s);
      InOrderPrefix(t);
      OrderUnique(s[..n], t[..n]);
      assert s == s[..n] + [s[n]] && t == t[..n] + [t[n]];
    }
  }

  // ---------------------------------------------------------------- spacing

  /** The orders for which the spaced frequencies have room between the bounds. */
  predicate Roomy(n: nat) { 1 <= n <= 80 }

  /** The highest value element i may take so that the n - 1 - i after it still fit. */
  function Top(i: nat, n: nat): int { LSPMAX - (n - 1 - i) * DLSPMIN }

  /** Element i after the second phase. */
  function SpacedAt(s: seq<int16>, i: nat): (x: int16)
    requires Roomy(|s|) && i < |s|
    ensures LSPMIN + i * DLSPMIN <= x <= Top(i, |s|)
    decreases i
  {
    var low: int := if i == 0 then LSPMIN else SpacedAt(s, i - 1) + DLSPMIN;
    if s[i] < low then low else if s[i] > Top(i, |s|) then Top(i, |s|) else s[i]
  }

  function Spaced(s: seq<int16>): (r: seq<int16>)
    requires Roomy(|s|)
    ensures |r| == |s|
  {
    seq(|s|, i requires 0 <= i < |s| => SpacedAt(s, i))
  }

  /** What the filters need of the frequencies. */
  ghost predicate Proper(s: seq<int16>) {
    && |s| > 0 && s[0] >= LSPMIN && s[|s| - 1] <= LSPMAX
    && forall i :: 0 <= i < |s| - 1 ==> s[i + 1] - s[i] >= DLSPMIN
  }

  lemma SpacedProper(s: seq<int16>)
    requires Roomy(|s|)
    ensures Proper(Spaced(s)) && InOrder(Spaced(s))
  {
    var r := Spaced(s);
    forall i | 0 <= i < |s| - 1 ensures r[i + 1] - r[i] >= DLSPMIN {
      var below := SpacedAt(s, i);
      assert SpacedAt(s, i + 1) >= below + DLSPMIN;
    }
  }

  lemma {:induction false} ProperBelowTop(s: seq<int16>, i: nat)
    requires Proper(s) && i < |s|
    ensures s[i] <= Top(i, |s|)
    decreases |s| - i
  {
    if i >= |s| - 1 {
    } else {
      ProperBelowTop(s, i + 1);
    }
  }

  lemma {:induction false} ProperKept(s: seq<int16>, i: nat)
    requires Roomy(|s|) && Proper(s) && i < |s|
    ensures SpacedAt(s, i) == s[i]
  {
    ProperBelowTop(s, i);
    if i == 0 {
    } else {
      ProperKept(s, i - 1);
    }
  }

  /** stblz_lsp as a function. */
  function Stabilised(s: seq<int16>): (r: seq<int16>)
    requires Roomy(|s|)
    ensures |r| == |s|
  {
    Spaced(Sorted(s))
  }

  /** The result is proper whatever the input, and the input is left alone exactly when it
      was proper already. */
  lemma StabilisedProper(s: seq<int16>)
    requires Roomy(|s|)
    ensures Proper(Stabilised(s))
    ensures Stabilised(s) == s <==> Proper(s)
    ensures Stabilised(Stabilised(s)) == Stabilised(s)
  {
    SpacedProper(Sorted(s));
    ProperUnchanged(Stabilised(s));
    if Proper(s) { ProperUnchanged(s); }
  }

  lemma ProperUnchanged(s: seq<int16>)
    requires Roomy(|s|) && Proper(s)
    ensures Stabilised(s) == s
  {
    SortedOrdered(s);
    OrderUnique(Sorted(s), s);
    forall i | 0 <= i < |s| ensures SpacedAt(s, i) == s[i] {
      ProperKept(s, i);
    }
  }

  // ---------------------------------------------------------------- in place

  /** The do loop: passes of neighbour exchanges until one makes none. Each pass that makes
      any leaves fewer inversions. */
  method OrderLsp(lsp: array<int16>)
    modifies lsp
    ensures lsp[..] == Sorted(old(lsp[..]))
  {
    var k := true;
    while k
      invariant multiset(lsp[..]) == multiset(old(lsp[..]))
      invariant !k ==> InOrder(lsp[..])
      decreases k, Inversions(lsp[..])
    {
      k := ExchangePass(lsp);
    }
    SortedOrdered(old(lsp[..]));
    OrderUnique(lsp[..], Sorted(old(lsp[..])));
  }

  /** Up to element i a pass over s0 has given s; k says whether it exchanged anything. */
  ghost predicate PassedTo(s0: seq<int16>, s: seq<int16>, k: bool, i: nat) {
    && |s| == |s0| && multiset(s) == multiset(s0)
    && (k ==> Inversions(s) < Inversions(s0))
    && (!k ==> s == s0 && forall j :: 0 <= j < i && j < |s| - 1 ==> s[j] <= s[j + 1])
  }

  lemma PassStep(s0: seq<int16>, s: seq<int16>, k: bool, i: nat)
    requires PassedTo(s0, s, k, i) && i + 1 < |s|
    ensures s[i] > s[i + 1] ==> PassedTo(s0, s[i := s[i + 1]][i + 1 := s[i]], true, i + 1)
    ensures s[i] <= s[i + 1] ==> PassedTo(s0, s, k, i + 1)
  {
    hide Inversions;
    if s[i] > s[i + 1] { Exchanged(s, i); }
  }

  lemma PassDone(s0: seq<int16>, s: seq<int16>, k: bool, i: nat)
    requires PassedTo(s0, s, k, i) && |s| <= i + 1
    ensures multiset(s) == multiset(s0)
    ensures k ==> Inversions(s) < Inversions(s0)
    ensures !k ==> InOrder(s)
  {
  }

  method ExchangePass(lsp: array<int16>) returns (k: bool)
    modifies lsp
    ensures multiset(lsp[..]) == multiset(old(lsp[..]))
    ensures k ==> Inversions(lsp[..]) < Inversions(old(lsp[..]))
    ensures !k ==> InOrder(lsp[..])
  {
    ghost var s0 := lsp[..];
    k := false;
    var i := 0;
    assert PassedTo(s0, lsp[..], k, i);
    hide Inversions, PassedTo, InOrder;
    while i < lsp.Length - 1
      invariant 0 <= i && PassedTo(s0, lsp[..], k, i)
    {
      ghost var s := lsp[..];
      PassStep(s0, s, k, i);
      if lsp[i] > lsp[i + 1] {
        var a0 := lsp[i + 1];
        lsp[i + 1] := lsp[i];
        lsp[i] := a0;
        assert lsp[..] == s[i := s[i + 1]][i + 1 := s[i]];
        k := true;
      }
      i := i + 1;
    }
    PassDone(s0, lsp[..], k, i);
  }

  /** The bounds of an element, as the loop computes them from its neighbour. */
  lemma SpacedStep(s: seq<int16>, i: nat)
    requires Roomy(|s|) && i + 1 < |s|
    ensures var low, top := SpacedAt(s, i) + DLSPMIN, Top(i, |s|) + DLSPMIN;
            && Top(i + 1, |s|) == top <= LSPMAX && low <= top && LSPMIN <= low
            && SpacedAt(s, i + 1) == if s[i + 1] < low then low else if s[i + 1] > top then top else s[i + 1]
  {
  }

  /** The clamping loop. */
  method SpaceLsp(lsp: array<int16>)
    requires Roomy(lsp.Length)
    modifies lsp
    ensures lsp[..] == Spaced(old(lsp[..]))
  {
    hide SpacedAt, Spaced;
    ghost var s := lsp[..];
    var n := lsp.Length;
    var maxtmp: int := SatSub16(LSPMAX, (n - 1) * DLSPMIN);
    SpacedFirst(s);
    if lsp[0] < LSPMIN {
      lsp[0] := LSPMIN;
    } else if lsp[0] > maxtmp {
      lsp[0] := maxtmp;
    }
    for i := 0 to n - 1
      invariant maxtmp == Top(i, n)
      invariant forall j :: 0 <= j <= i ==> lsp[j] == SpacedAt(s, j)
      invariant forall j :: i < j < n ==> lsp[j] == s[j]
    {
      SpacedStep(s, i);
      var mintmp := SatAdd16(lsp[i], DLSPMIN);
      maxtmp := SatAdd16(maxtmp, DLSPMIN);
      if lsp[i + 1] < mintmp {
        lsp[i + 1] := mintmp;
      } else if lsp[i + 1] > maxtmp {
        lsp[i + 1] := maxtmp;
      }
    }
    SpacedIs(s, lsp[..]);
  }

  lemma SpacedFirst(s: seq<int16>)
    requires Roomy(|s|)
    ensures LSPMIN <= Top(0, |s|) == LSPMAX - (|s| - 1) * DLSPMIN <= LSPMAX
    ensures SpacedAt(s, 0) == if s[0] < LSPMIN then LSPMIN else if s[0] > Top(0, |s|) then Top(0, |s|) else s[0]
  {
  }

  lemma SpacedIs(s: seq<int16>, r: seq<int16>)
    requires Roomy(|s|) && |r| == |s| && forall j :: 0 <= j < |s| ==> r[j] == SpacedAt(s, j)
    ensures r == Spaced(s)
  {
    hide SpacedAt;
  }

  /** stblz_lsp */
  method StabiliseLsp(lsp: array<int16>)
    requires Roomy(lsp.Length)
    modifies lsp
    ensures lsp[..] == Stabilised(old(lsp[..]))
  {
    hide Sorted, Spaced;
    OrderLsp(lsp);
    SpaceLsp(lsp);
  }

  /** stblchck: the flag is cleared by a negative first frequency or an order reversal. */
  method CheckStable(x: seq<int16>) returns (stbl: bool)
    requires x != []
    ensures stbl <==> x[0] >= 0 && InOrder(x)
  {
    if x[0] < 0 {
      return false;
    }
    stbl := true;
    for k := 1 to |x|
      invariant stbl <==> forall i :: 0 <= i < k - 1 ==> x[i] <= x[i + 1]
    {
      if x[k] < x[k - 1] {
        assert x[k - 1] > x[k - 1 + 1];
        stbl := false;
      }
    }
  }
}
