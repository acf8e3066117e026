/** Greedy decomposition into power-of-two scaled ternary terms and its coordinate-descent refinement. */
module Decompose {
  import opened Vectors
  import opened Ternary

  function SumSq(v: Vec): real {
    DotRange(v, v, 0, |v|)
  }

  /** Largest magnitude among the first n entries. */
  function MaxAbsTo(v: Vec, n: nat): (m: real)
    requires n <= |v|
    ensures m >= 0.0 && forall i :: 0 <= i < n ==> Abs(v[i]) <= m
    ensures n > 0 ==> exists i :: 0 <= i < n && Abs(v[i]) == m
  {
    if n == 0 then 0.0
    else if Abs(v[n - 1]) > MaxAbsTo(v, n - 1) then Abs(v[n - 1])
    else
      assert n == 1 ==> Abs(v[0]) == 0.0;
      MaxAbsTo(v, n - 1)
  }

  function MaxAbs(v: Vec): real {
    MaxAbsTo(v, |v|)
  }

  /** A scale (0 or a power of two) with one ternary digit per weight. */
  datatype RawTerm = RawTerm(a: real, t: seq<int>)

  ghost predicate ValidTerm(term: RawTerm, n: nat) {
    && |term.t| == n && (forall i :: 0 <= i < n ==> IsDigit(term.t[i]))
    && (term.a == 0.0 || exists k :: term.a == Pow2(k))
  }

  function Digits(r: Vec, a: real): seq<int>
    requires a != 0.0
  {
    seq(|r|, i requires 0 <= i < |r| => ClampRound(r[i] / a))
  }

  function Subtract(r: Vec, a: real, t: seq<int>): Vec
    requires |t| == |r|
  {
    seq(|r|, i requires 0 <= i < |r| => r[i] - a * t[i] as real)
  }

  /** Squared error left when r is replaced by its rounding at scale 2^k. */
  function ErrorAt(r: Vec, k: int): real {
    SumSq(Subtract(r, Pow2(k), Digits(r, Pow2(k))))
  }

  /** k is the first exponent of [lo, hi) with the smallest error. */
  ghost predicate BestExponent(r: Vec, lo: int, hi: int, k: int) {
    lo <= k < hi && forall j :: lo <= j < hi ==> ErrorAt(r, k) <= ErrorAt(r, j) && (j < k ==> ErrorAt(r, k) < ErrorAt(r, j))
  }

  ghost predicate Fitted(r: Vec, term: RawTerm) {
    if MaxAbs(r) < CUTOFF then term == RawTerm(0.0, seq(|r|, _ => 0))
    else exists k ::
      && BestExponent(r, WindowLow(MaxAbs(r)), WindowHigh(MaxAbs(r)), k)
      && term == RawTerm(Pow2(k), Digits(r, Pow2(k)))
  }

  predicate Shaped(terms: seq<RawTerm>, n: nat) {
    forall i :: 0 <= i < |terms| ==> |terms[i].t| == n
  }

  /** Sum of a_t * T_t[p] over the first m terms. */
  function Approximation(terms: seq<RawTerm>, n: nat, m: nat, p: nat): real
    requires m <= |terms| && Shaped(terms, n) && p < n
  {
    if m == 0 then 0.0 else Approximation(terms, n, m - 1, p) + terms[m - 1].a * terms[m - 1].t[p] as real
  }

  predicate Leaves(r: Vec, term: RawTerm, r': Vec) {
    |term.t| == |r| && r' == Subtract(r, term.a, term.t)
  }

  /** rs lists the working residual before the first term and after each one. */
  predicate Residuals(w: Vec, terms: seq<RawTerm>, rs: seq<Vec>) {
    && |rs| == |terms| + 1 && rs[0] == w
    && forall t :: 0 <= t < |terms| ==> Leaves(rs[t], terms[t], rs[t + 1])
  }

  /** Every term is fitted to what its predecessors left. */
  ghost predicate GreedyRun(w: Vec, terms: seq<RawTerm>, rs: seq<Vec>) {
    Residuals(w, terms, rs) && forall t :: 0 <= t < |terms| ==> Fitted(rs[t], terms[t])
  }

  // ----- sums of squares

  lemma {:induction false} SumSqPointwise(e: Vec, r: Vec, n: nat)
    requires n <= |e| && n <= |r| && forall i :: 0 <= i < n ==> Sq(e[i]) <= Sq(r[i])
    ensures DotRange(e, e, 0, n) <= DotRange(r, r, 0, n)
  {
    if n > 0 {
      SumSqPointwise(e, r, n - 1);
    }
  }

  lemma {:induction false} SumSqGap(e: Vec, r: Vec, n: nat, at: nat, gap: real)
    requires at < n <= |e| && n <= |r| && forall i :: 0 <= i < n ==> Sq(e[i]) <= Sq(r[i])
    requires Sq(e[at]) <= Sq(r[at]) - gap
    ensures DotRange(e, e, 0, n) <= DotRange(r, r, 0, n) - gap
  {
    if at == n - 1 {
      SumSqPointwise(e, r, n - 1);
    } else {
      SumSqGap(e, r, n - 1, at, gap);
    }
  }

  lemma {:induction false} SumSqAtMost(r: Vec, n: nat, m: real)
    requires n <= |r| && m >= 0.0 && forall i :: 0 <= i < n ==> Abs(r[i]) <= m
    ensures 0.0 <= DotRange(r, r, 0, n) <= n as real * Sq(m)
  {
    if n > 0 {
      SumSqAtMost(r, n - 1, m);
      SquareOfBounded(r[n - 1], m);
      assert n as real * Sq(m) == (n - 1) as real * Sq(m) + Sq(m);
    }
  }

  lemma SquareOfBounded(x: real, m: real)
    requires Abs(x) <= m
    ensures 0.0 <= Sq(x) <= Sq(m)
  {
    assert Sq(m) - Sq(x) == (m - Abs(x)) * (m + Abs(x));
  }

  /** Rounding never increases the error, whatever the scale. */
  lemma RoundingNeverHurts(r: Vec, a: real)
    requires a > 0.0
    ensures SumSq(Subtract(r, a, Digits(r, a))) <= SumSq(r)
    ensures forall i :: 0 <= i < |r| ==> Sq(Subtract(r, a, Digits(r, a))[i]) <= Sq(r[i])
  {
    forall i | 0 <= i < |r| ensures Sq(Subtract(r, a, Digits(r, a))[i]) <= Sq(r[i]) {
      ClampRoundIsBest(r[i], a, 0);
    }
    SumSqPointwise(Subtract(r, a, Digits(r, a)), r, |r|);
  }

  lemma HalfRemains(x: real, a: real)
    requires a <= x < 2.0 * a
    ensures Sq(x - a) <= Sq(x) - 0.75 * Sq(x)
  {
    SquareOfBounded(x - a, x / 2.0);
    assert Sq(x / 2.0) == 0.25 * Sq(x);
  }

  lemma LeadingDigitError(r: real, a: real)
    requires a <= Abs(r) < 2.0 * a
    ensures Sq(r - a * ClampRound(r / a) as real) <= Sq(r) - 0.75 * Sq(r)
  {
    hide Sq, ClampRound;
    var d := if r < 0.0 then -1 else 1;
    ClampRoundIsBest(r, a, d);
    DigitError(r, a, d);
    HalfRemains(Abs(r), a);
    NegatedSquare(r);
    NegatedSquare(r + a);
    assert -(r + a) == -r - a;
  }

  lemma NegatedSquare(x: real)
    ensures Sq(-x) == Sq(x)
  {
  }

  /** At the power of two just below the largest entry, that entry alone frees 3/4 of its square. */
  lemma LeadingDigitGain(r: Vec, at: nat, k: int)
    requires at < |r| && Pow2(k) <= Abs(r[at]) < 2.0 * Pow2(k)
    ensures ErrorAt(r, k) <= SumSq(r) - 0.75 * Sq(r[at])
  {
    hide ClampRound, Pow2, DotRange;
    var a := Pow2(k);
    var e := Subtract(r, a, Digits(r, a));
    RoundingNeverHurts(r, a);
    LeadingDigitError(r[at], a);
    assert e[at] == r[at] - a * ClampRound(r[at] / a) as real;
    SumSqGap(e, r, |r|, at, 0.75 * Sq(r[at]));
  }

  /** Some exponent of the window frees 3/4 of the largest squared weight. */
  lemma WindowHoldsGain(r: Vec)
    requires MaxAbs(r) >= CUTOFF
    ensures exists f ::
      WindowLow(MaxAbs(r)) <= f < WindowHigh(MaxAbs(r)) && ErrorAt(r, f) <= SumSq(r) - 0.75 * Sq(MaxAbs(r))
  {
    var m := MaxAbs(r);
    var at :| 0 <= at < |r| && Abs(r[at]) == m;
    var f := FloorLog2(m);
    WindowCovers(m);
    Pow2Step(f);
    LeadingDigitGain(r, at, f);
    assert Sq(-r[at]) == Sq(r[at]);
  }

  /** Each fitted term above the cut-off removes at least 3/4 of the largest squared weight. */
  lemma FittedShrinks(r: Vec, term: RawTerm)
    requires Fitted(r, term)
    ensures |term.t| == |r|
    ensures MaxAbs(r) >= CUTOFF ==> SumSq(Subtract(r, term.a, term.t)) <= SumSq(r) - 0.75 * Sq(MaxAbs(r))
    ensures MaxAbs(r) < CUTOFF ==> Subtract(r, term.a, term.t) == r
  {
    if MaxAbs(r) >= CUTOFF {
      WindowHoldsGain(r);
    }
  }

  function Power(q: real, m: nat): real {
    if m == 0 then 1.0 else q * Power(q, m - 1)
  }

  /** 1 - 3/(4n): the factor by which one term shrinks the squared residual of n weights. */
  function ShrinkFactor(n: nat): real
    requires n > 0
  {
    1.0 - 0.75 / n as real
  }

  /** The largest of n entries holds at least one n-th of the sum of squares. */
  lemma LargestShare(s: real, n: nat, m2: real)
    requires n > 0 && s <= n as real * m2
    ensures s - 0.75 * m2 <= ShrinkFactor(n) * s
  {
    var c := n as real;
    var share := s / c;
    assert share * c == s;
    assert (m2 - share) * c >= 0.0;
    assert m2 - share >= 0.0;
    assert 0.75 / c * s == 0.75 * share;
  }

  lemma PowerScales(n: nat, m: nat, x: real, y: real)
    requires n > 0 && x <= Power(ShrinkFactor(n), m) * y
    ensures ShrinkFactor(n) * x <= Power(ShrinkFactor(n), m + 1) * y
  {
    var q := ShrinkFactor(n);
    ShrinkFactorRange(n);
    var p := Power(q, m);
    assert q * p * y == q * (p * y);
    assert q * (p * y - x) >= 0.0;
  }

  lemma ShrinkFactorRange(n: nat)
    requires n > 0
    ensures 0.0 < ShrinkFactor(n) < 1.0
  {
    var d := 0.75 / n as real;
    assert d * n as real == 0.75;
  }

  /** The largest squared weight and the sum of squares of one residual. */
  datatype Level = Level(peak: real, total: real)

  ghost predicate Shrinks(l: Level, l': Level, n: nat) {
    l.total <= n as real * l.peak && l'.total <= l.total - 0.75 * l.peak
  }

  lemma {:induction false} GeometricDecay(levels: seq<Level>, n: nat, m: nat)
    requires n > 0 && m < |levels|
    requires forall t :: 0 <= t < m ==> Shrinks(levels[t], levels[t + 1], n)
    ensures levels[m].total <= Power(ShrinkFactor(n), m) * levels[0].total
  {
    if m > 0 {
      GeometricDecay(levels, n, m - 1);
      var l := levels[m - 1];
      assert Shrinks(l, levels[m - 1 + 1], n);
      LargestShare(l.total, n, l.peak);
      PowerScales(n, m - 1, l.total, levels[0].total);
    }
  }

  ghost function LevelOf(r: Vec): Level {
    Level(Sq(MaxAbs(r)), SumSq(r))
  }

  lemma SumSqShare(r: Vec)
    ensures 0.0 <= SumSq(r) <= |r| as real * Sq(MaxAbs(r))
  {
    SumSqAtMost(r, |r|, MaxAbs(r));
  }

  lemma FittedLevel(r: Vec, term: RawTerm, r': Vec)
    requires Fitted(r, term) && Leaves(r, term, r') && MaxAbs(r) >= CUTOFF
    ensures Shrinks(LevelOf(r), LevelOf(r'), |r|)
  {
    hide Fitted, SumSq, MaxAbs, Sq;
    FittedShrinks(r, term);
    SumSqShare(r);
  }

  lemma {:induction false} ResidualLength(w: Vec, terms: seq<RawTerm>, rs: seq<Vec>, m: nat)
    requires Residuals(w, terms, rs) && m <= |terms|
    ensures |rs[m]| == |w|
  {
    if m > 0 {
      ResidualLength(w, terms, rs, m - 1);
      assert Leaves(rs[m - 1], terms[m - 1], rs[m - 1 + 1]);
    }
  }

  /** While no term is cut off the squared residual falls geometrically. */
  lemma GreedyConverges(w: Vec, terms: seq<RawTerm>, rs: seq<Vec>, m: nat)
    requires GreedyRun(w, terms, rs) && m <= |terms| && |w| > 0
    requires forall t :: 0 <= t < m ==> MaxAbs(rs[t]) >= CUTOFF
    ensures SumSq(rs[m]) <= Power(ShrinkFactor(|w|), m) * SumSq(w)
  {
    hide Fitted, SumSq, MaxAbs, Sq, Shrinks, Leaves, Power, ShrinkFactor;
    var levels := seq(m + 1, t requires 0 <= t <= m => LevelOf(rs[t]));
    forall t | 0 <= t < m ensures Shrinks(levels[t], levels[t + 1], |w|) {
      ResidualLength(w, terms, rs, t);
      FittedLevel(rs[t], terms[t], rs[t + 1]);
    }
    GeometricDecay(levels, |w|, m);
  }

  /** Once a residual is under the cut-off, so is every later one: they are the same. */
  lemma {:induction false} GreedyStops(w: Vec, terms: seq<RawTerm>, rs: seq<Vec>, t: nat, m: nat)
    requires GreedyRun(w, terms, rs) && t <= m <= |terms| && MaxAbs(rs[t]) < CUTOFF
    ensures rs[m] == rs[t]
  {
    hide Fitted, MaxAbs;
    if m > t {
      GreedyStops(w, terms, rs, t, m - 1);
      assert Leaves(rs[m - 1], terms[m - 1], rs[m - 1 + 1]) && Fitted(rs[m - 1], terms[m - 1]);
      FittedShrinks(rs[m - 1], terms[m - 1]);
    }
  }

  /** What the squared norm of w shrinks to over that many terms: (1 - 3 / (4 |w|))^terms * |w|^2. */
  function GeometricBound(w: Vec, terms: nat): real
    requires |w| > 0
  {
    Power(ShrinkFactor(|w|), terms) * SumSq(w)
  }

  /**
   Whatever the weights and however many terms: the residual has shrunk geometrically, or every
   weight is already within the cut-off.
   */
  lemma GreedyBound(w: Vec, terms: seq<RawTerm>, rs: seq<Vec>)
    requires GreedyRun(w, terms, rs) && |w| > 0
    ensures MaxAbs(rs[|terms|]) < CUTOFF || SumSq(rs[|terms|]) <= GeometricBound(w, |terms|)
  {
    hide Fitted, SumSq, MaxAbs, Power, ShrinkFactor;
    if t :| 0 <= t < |terms| && MaxAbs(rs[t]) < CUTOFF {
      GreedyStops(w, terms, rs, t, |terms|);
    } else {
      GreedyConverges(w, terms, rs, |terms|);
    }
  }

  lemma ResidualShapes(w: Vec, terms: seq<RawTerm>, rs: seq<Vec>)
    requires Residuals(w, terms, rs)
    ensures Shaped(terms, |w|)
  {
    forall t | 0 <= t < |terms| ensures |terms[t].t| == |w| {
      ResidualLength(w, terms, rs, t);
      assert Leaves(rs[t], terms[t], rs[t + 1]);
    }
  }

  /** Conservation: the terms so far and what is left add up to the weights. */
  lemma {:induction false} Conservation(w: Vec, terms: seq<RawTerm>, rs: seq<Vec>, m: nat, p: nat)
    requires Residuals(w, terms, rs) && m <= |terms| && p < |w|
    ensures Shaped(terms, |w|) && |rs[m]| == |w|
    ensures w[p] == Approximation(terms, |w|, m, p) + rs[m][p]
  {
    ResidualShapes(w, terms, rs);
    ResidualLength(w, terms, rs, m);
    if m > 0 {
      Conservation(w, terms, rs, m - 1, p);
      assert Leaves(rs[m - 1], terms[m - 1], rs[m - 1 + 1]);
    }
  }
}
