/** Fitting one term to weights that take only three values: everything reduces to those three. */
module Grouped {
  import opened Vectors
  import opened Ternary
  import opened Decompose
  import opened TermSearch
  import opened Refinement

  /** How many weights share each value; none of the three groups is empty. */
  type Sizes = n: (nat, nat, nat) | n.0 > 0 && n.1 > 0 && n.2 > 0 witness (1, 1, 1)

  datatype Triple<T> = Triple(x: T, y: T, z: T)

  function Spread<T>(n: Sizes, v: Triple<T>): (s: seq<T>)
    ensures |s| == n.0 + n.1 + n.2
  {
    seq(n.0 + n.1 + n.2, p => if p < n.0 then v.x else if p < n.0 + n.1 then v.y else v.z)
  }

  /** clamp_round_ternary of x / a, by comparing with half the scale. */
  function RoundDigit(x: real, a: real): int {
    if 2.0 * x > a then 1 else if 2.0 * x < -a then -1 else 0
  }

  function RoundDigits(v: Triple<real>, a: real): Triple<int> {
    Triple(RoundDigit(v.x, a), RoundDigit(v.y, a), RoundDigit(v.z, a))
  }

  function Left(v: Triple<real>, a: real, d: Triple<int>): Triple<real> {
    Triple(v.x - a * d.x as real, v.y - a * d.y as real, v.z - a * d.z as real)
  }

  function Error(n: Sizes, v: Triple<real>): real {
    n.0 as real * Sq(v.x) + n.1 as real * Sq(v.y) + n.2 as real * Sq(v.z)
  }

  /** The squared error that rounding at scale a leaves. */
  function Trial(n: Sizes, v: Triple<real>, a: real): real {
    Error(n, Left(v, a, RoundDigits(v, a)))
  }

  function Peak(v: Triple<real>): real {
    MaxReal(Abs(v.x), MaxReal(Abs(v.y), Abs(v.z)))
  }

  function Term(n: Sizes, a: real, d: Triple<int>): RawTerm {
    RawTerm(a, Spread(n, d))
  }

  // ----- the reduction

  lemma {:induction false} ConstantSquares(v: Vec, lo: nat, hi: nat, x: real)
    requires lo <= hi <= |v| && forall p :: lo <= p < hi ==> v[p] == x
    ensures DotRange(v, v, lo, hi) == (hi - lo) as real * Sq(x)
  {
    if hi > lo {
      ConstantSquares(v, lo, hi - 1, x);
      assert (hi - lo) as real * Sq(x) == (hi - 1 - lo) as real * Sq(x) + Sq(x);
    }
  }

  lemma SpreadSumSq(n: Sizes, v: Triple<real>)
    ensures SumSq(Spread(n, v)) == Error(n, v)
  {
    hide DotRange, Sq;
    var s := Spread(n, v);
    ConstantSquares(s, 0, n.0, v.x);
    ConstantSquares(s, n.0, n.0 + n.1, v.y);
    ConstantSquares(s, n.0 + n.1, |s|, v.z);
    DotRangeSplit(s, s, 0, n.0, |s|);
    DotRangeSplit(s, s, n.0, n.0 + n.1, |s|);
  }

  lemma DigitIsRounded(x: real, a: real)
    requires a > 0.0
    ensures ClampRound(x / a) == RoundDigit(x, a)
  {
    var q := x / a;
    assert q * a == x;
    ScaleOrder(q, a);
    ClampRoundThreshold(q);
  }

  lemma SpreadDigits(n: Sizes, v: Triple<real>, a: real)
    requires a > 0.0
    ensures Digits(Spread(n, v), a) == Spread(n, RoundDigits(v, a))
  {
    DigitIsRounded(v.x, a);
    DigitIsRounded(v.y, a);
    DigitIsRounded(v.z, a);
    hide ClampRound, RoundDigit;
  }

  lemma SpreadSubtract(n: Sizes, v: Triple<real>, a: real, d: Triple<int>)
    ensures Subtract(Spread(n, v), a, Spread(n, d)) == Spread(n, Left(v, a, d))
  {
    var left, right := Subtract(Spread(n, v), a, Spread(n, d)), Spread(n, Left(v, a, d));
    forall p | 0 <= p < |right| ensures left[p] == right[p] {
    }
  }

  lemma SpreadErrorAt(n: Sizes, v: Triple<real>, k: int)
    ensures ErrorAt(Spread(n, v), k) == Trial(n, v, Pow2(k))
  {
    hide Spread, Digits, Subtract, SumSq, Pow2, RoundDigits, Left, Error;
    SpreadDigits(n, v, Pow2(k));
    SpreadSubtract(n, v, Pow2(k), RoundDigits(v, Pow2(k)));
    SpreadSumSq(n, Left(v, Pow2(k), RoundDigits(v, Pow2(k))));
  }

  lemma SpreadPeak(n: Sizes, v: Triple<real>)
    ensures MaxAbs(Spread(n, v)) == Peak(v)
  {
    var s := Spread(n, v);
    var m := MaxAbs(s);
    hide MaxAbs, MaxAbsTo, Abs;
    PeakBounds(s);
    assert s[0] == v.x && s[n.0] == v.y && s[n.0 + n.1] == v.z;
    assert Abs(s[0]) <= m && Abs(s[n.0]) <= m && Abs(s[n.0 + n.1]) <= m;
    var at :| 0 <= at < |s| && Abs(s[at]) == m;
    assert s[at] == v.x || s[at] == v.y || s[at] == v.z;
  }

  lemma PeakBounds(s: Vec)
    ensures forall p :: 0 <= p < |s| ==> Abs(s[p]) <= MaxAbs(s)
    ensures |s| > 0 ==> exists p :: 0 <= p < |s| && Abs(s[p]) == MaxAbs(s)
  {
    hide Abs;
    var m := MaxAbsTo(s, |s|);
  }

  // ----- the search

  /** The bounds of the exponents tried for a peak. */
  predicate Window(peak: real, lo: int, hi: int) {
    && Pow2(lo) <= MaxReal(peak / 3.0, LOG_FLOOR) < Pow2(lo + 1)
    && Pow2(hi - 3) < MaxReal(peak * 1.5, LOG_FLOOR) <= Pow2(hi - 2)
  }

  lemma WindowIs(peak: real, lo: int, hi: int)
    requires Window(peak, lo, hi)
    ensures WindowLow(peak) == lo && WindowHigh(peak) == hi
  {
    hide Pow2;
    Pow2Order(lo, WindowLow(peak) + 1);
    Pow2Order(WindowLow(peak), lo + 1);
    var top := WindowHigh(peak) - 2;
    Pow2Order(hi - 3, top);
    Pow2Order(top - 1, hi - 2);
  }

  /** Exponent k comes first among the best of [lo, hi). */
  predicate FirstBest(n: Sizes, v: Triple<real>, lo: int, hi: int, k: int) {
    && lo <= k < hi
    && forall j :: lo <= j < hi ==>
      Trial(n, v, Pow2(k)) <= Trial(n, v, Pow2(j)) && (j < k ==> Trial(n, v, Pow2(k)) < Trial(n, v, Pow2(j)))
  }

  /** The search for values v covers [lo, hi) and settles on k. */
  predicate Search(n: Sizes, v: Triple<real>, lo: int, hi: int, k: int) {
    Peak(v) >= CUTOFF && Window(Peak(v), lo, hi) && FirstBest(n, v, lo, hi, k)
  }

  /** The errors of five consecutive exponents, and which of them comes first among the best. */
  lemma FiveTrials(n: Sizes, v: Triple<real>, lo: int, k: int, a: real, e: seq<real>)
    requires Pow2(lo) == a && |e| == 5 && 0 <= k < 5
    requires Trial(n, v, a) == e[0] && Trial(n, v, 2.0 * a) == e[1] && Trial(n, v, 4.0 * a) == e[2]
    requires Trial(n, v, 8.0 * a) == e[3] && Trial(n, v, 16.0 * a) == e[4]
    requires forall j :: 0 <= j < 5 ==> e[k] <= e[j] && (j < k ==> e[k] < e[j])
    ensures FirstBest(n, v, lo, lo + 5, lo + k)
    ensures Trial(n, v, Pow2(lo + k)) == e[k]
  {
    hide Trial, Pow2;
    FivePowers(lo);
    forall j | lo <= j < lo + 5 ensures Trial(n, v, Pow2(j)) == e[j - lo] {
      assert j == lo || j == lo + 1 || j == lo + 2 || j == lo + 3 || j == lo + 4;
    }
  }

  lemma FivePowers(lo: int)
    ensures Pow2(lo + 1) == 2.0 * Pow2(lo) && Pow2(lo + 2) == 4.0 * Pow2(lo)
    ensures Pow2(lo + 3) == 8.0 * Pow2(lo) && Pow2(lo + 4) == 16.0 * Pow2(lo)
  {
    Pow2Step(lo);
    Pow2Step(lo + 1);
    Pow2Step(lo + 2);
    Pow2Step(lo + 3);
    hide Pow2;
  }

  lemma SmallPowers()
    ensures Pow2(-4) == 0.0625 && Pow2(-3) == 0.125 && Pow2(-2) == 0.25 && Pow2(-1) == 0.5
    ensures Pow2(0) == 1.0 && Pow2(1) == 2.0 && Pow2(2) == 4.0 && Pow2(3) == 8.0
  {
  }

  /** The term that fitting must return. */
  lemma FittedSpread(n: Sizes, v: Triple<real>, lo: int, hi: int, k: int, term: RawTerm)
    requires Fitted(Spread(n, v), term) && Search(n, v, lo, hi, k)
    ensures term == Term(n, Pow2(k), RoundDigits(v, Pow2(k)))
  {
    hide Spread, ErrorAt, Trial, Pow2, MaxAbs, Peak, Window, Digits, RoundDigits;
    var r := Spread(n, v);
    SpreadPeak(n, v);
    WindowIs(Peak(v), lo, hi);
    var b :| BestExponent(r, lo, hi, b) && term == RawTerm(Pow2(b), Digits(r, Pow2(b)));
    SpreadErrorAt(n, v, b);
    SpreadErrorAt(n, v, k);
    assert b == k;
    SpreadDigits(n, v, Pow2(k));
  }

  lemma DroppedSpread(n: Sizes, v: Triple<real>, term: RawTerm)
    requires Fitted(Spread(n, v), term) && Peak(v) < CUTOFF
    ensures term == Term(n, 0.0, Triple(0, 0, 0))
  {
    hide MaxAbs, Peak;
    SpreadPeak(n, v);
  }

  // ----- two terms

  /** The values that the other term of a pair leaves to be fitted. */
  function Rest(w: Triple<real>, a: real, d: Triple<int>): Triple<real> {
    if a == 0.0 then w else Left(w, a, d)
  }

  lemma PairTarget(n: Sizes, w: Triple<real>, ts: seq<RawTerm>, i: nat, a: real, d: Triple<int>)
    requires |ts| == 2 && i < 2 && Shaped(ts, |Spread(n, w)|) && ts[1 - i] == Term(n, a, d)
    ensures Target(Spread(n, w), ts, i) == Spread(n, Rest(w, a, d))
  {
    hide Spread, Left, Subtract;
    var s := Spread(n, w);
    SpreadSubtract(n, w, a, d);
    assert Excluding(s, ts, i, 0) == s;
    assert Excluding(s, ts, i, 1) == if i == 0 || ts[0].a == 0.0 then s else Subtract(s, ts[0].a, ts[0].t);
  }

  /** Re-fitting term i of a pair whose other term is known. */
  lemma PairStep(
      n: Sizes, w: Triple<real>, ts: seq<RawTerm>, ts': seq<RawTerm>, i: nat, a: real, d: Triple<int>, lo: int, hi: int, k: int)
    requires |ts| == 2 && i < 2 && RefineStep(Spread(n, w), ts, ts', i) && ts[1 - i] == Term(n, a, d)
    requires Search(n, Rest(w, a, d), lo, hi, k)
    ensures var v := Rest(w, a, d);
      && ts' == ts[i := Term(n, Pow2(k), RoundDigits(v, Pow2(k)))] && Shaped(ts', |Spread(n, w)|)
      && TotalError(Spread(n, w), ts') == Trial(n, v, Pow2(k))
  {
    var v := Rest(w, a, d);
    hide Spread, Rest, Left, Error, Search, Pow2, RoundDigits, TotalError, SumSq, Subtract, Target, Fitted;
    PairTarget(n, w, ts, i, a, d);
    FittedSpread(n, v, lo, hi, k, ts'[i]);
    StepErrors(Spread(n, w), ts, ts', i);
    SpreadSubtract(n, v, Pow2(k), RoundDigits(v, Pow2(k)));
    SpreadSumSq(n, Left(v, Pow2(k), RoundDigits(v, Pow2(k))));
  }

  /** The step that drops a term. */
  lemma PairDrop(n: Sizes, w: Triple<real>, ts: seq<RawTerm>, ts': seq<RawTerm>, i: nat, a: real, d: Triple<int>)
    requires |ts| == 2 && i < 2 && RefineStep(Spread(n, w), ts, ts', i) && ts[1 - i] == Term(n, a, d)
    requires Peak(Rest(w, a, d)) < CUTOFF
    ensures ts' == ts[i := Term(n, 0.0, Triple(0, 0, 0))] && Shaped(ts', |Spread(n, w)|)
    ensures TotalError(Spread(n, w), ts') == Error(n, Rest(w, a, d))
  {
    var v := Rest(w, a, d);
    hide Spread, Rest, Left, Error, Peak, TotalError, SumSq, Subtract, Target, Fitted;
    PairTarget(n, w, ts, i, a, d);
    DroppedSpread(n, v, ts'[i]);
    StepErrors(Spread(n, w), ts, ts', i);
    SubtractZero(Spread(n, v), ts'[i]);
    SpreadSumSq(n, v);
  }

  /** Two greedy terms, from the searches that pick them. */
  lemma PairGreedy(n: Sizes, w: Triple<real>, ts: seq<RawTerm>, rs: seq<Vec>, lo: int, hi: int, k: int, lo': int, hi': int, k': int)
    requires |ts| == 2 && GreedyRun(Spread(n, w), ts, rs)
    requires Search(n, w, lo, hi, k) && Search(n, Left(w, Pow2(k), RoundDigits(w, Pow2(k))), lo', hi', k')
    ensures var v := Left(w, Pow2(k), RoundDigits(w, Pow2(k)));
      && ts == [Term(n, Pow2(k), RoundDigits(w, Pow2(k))), Term(n, Pow2(k'), RoundDigits(v, Pow2(k')))]
      && Shaped(ts, |Spread(n, w)|) && TotalError(Spread(n, w), ts) == Trial(n, v, Pow2(k'))
  {
    var d := RoundDigits(w, Pow2(k));
    var v := Left(w, Pow2(k), d);
    hide Spread, Left, Error, Search, Pow2, RoundDigits, Fitted, SumSq, Subtract;
    assert Fitted(rs[0], ts[0]) && Fitted(rs[1], ts[1]) && Leaves(rs[0], ts[0], rs[0 + 1]) && Leaves(rs[1], ts[1], rs[1 + 1]);
    FittedSpread(n, w, lo, hi, k, ts[0]);
    SpreadSubtract(n, w, Pow2(k), d);
    FittedSpread(n, v, lo', hi', k', ts[1]);
    var d' := RoundDigits(v, Pow2(k'));
    SpreadSubtract(n, v, Pow2(k'), d');
    SpreadSumSq(n, Left(v, Pow2(k'), d'));
    var s := Spread(n, w);
    assert Remaining(s, ts, 0) == s;
    assert Remaining(s, ts, 1) == Subtract(s, ts[0].a, ts[0].t);
  }
}
