/** What the refinement sweeps do to the total squared error. */
module Refinement {
  import opened Vectors
  import opened Ternary
  import opened Decompose
  import opened TermSearch

  /** The terms before i are subtracted, term i and later ones are not seen yet. */
  lemma {:induction false} ExcludingBefore(w: Vec, ts: seq<RawTerm>, i: nat, m: nat)
    requires m <= i < |ts| && Shaped(ts, |w|)
    ensures Excluding(w, ts, i, m) == Remaining(w, ts, m)
  {
    if m > 0 {
      ExcludingBefore(w, ts, i, m - 1);
      SubtractZero(Remaining(w, ts, m - 1), ts[m - 1]);
    }
  }

  lemma SubtractZero(r: Vec, term: RawTerm)
    requires |term.t| == |r|
    ensures term.a == 0.0 ==> Subtract(r, term.a, term.t) == r
  {
  }

  lemma SubtractCommutes(r: Vec, s: RawTerm, t: RawTerm)
    requires |s.t| == |r| == |t.t|
    ensures Subtract(Subtract(r, s.a, s.t), t.a, t.t) == Subtract(Subtract(r, t.a, t.t), s.a, s.t)
  {
  }

  /** Subtracting all terms is subtracting term i from its own target. */
  lemma {:induction false} RemainingSplits(w: Vec, ts: seq<RawTerm>, i: nat, m: nat)
    requires i < m <= |ts| && Shaped(ts, |w|)
    ensures Remaining(w, ts, m) == Subtract(Excluding(w, ts, i, m), ts[i].a, ts[i].t)
  {
    if m - 1 == i {
      ExcludingBefore(w, ts, i, i);
    } else {
      RemainingSplits(w, ts, i, m - 1);
      var r := Excluding(w, ts, i, m - 1);
      SubtractCommutes(r, ts[i], ts[m - 1]);
      SubtractZero(Subtract(r, ts[i].a, ts[i].t), ts[m - 1]);
    }
  }

  lemma {:induction false} ExcludingIgnores(w: Vec, ts: seq<RawTerm>, ts': seq<RawTerm>, i: nat, m: nat)
    requires m <= |ts| == |ts'| && i < |ts| && Shaped(ts, |w|) && Shaped(ts', |w|)
    requires ts' == ts[i := ts'[i]]
    ensures Excluding(w, ts, i, m) == Excluding(w, ts', i, m)
  {
    if m > 0 {
      ExcludingIgnores(w, ts, ts', i, m - 1);
    }
  }

  lemma StepErrors(w: Vec, ts: seq<RawTerm>, ts': seq<RawTerm>, i: nat)
    requires RefineStep(w, ts, ts', i)
    ensures Shaped(ts', |w|)
    ensures var r := Target(w, ts, i);
      && TotalError(w, ts) == SumSq(Subtract(r, ts[i].a, ts[i].t))
      && TotalError(w, ts') == SumSq(Subtract(r, ts'[i].a, ts'[i].t))
  {
    hide Fitted, SumSq, Subtract;
    FittedLength(Target(w, ts, i), ts'[i]);
    RemainingSplits(w, ts, i, |ts|);
    RemainingSplits(w, ts', i, |ts|);
    ExcludingIgnores(w, ts, ts', i, |ts|);
  }

  /** Re-fitting term i is never worse than leaving it out. */
  lemma RefineBeatsDropping(w: Vec, ts: seq<RawTerm>, ts': seq<RawTerm>, i: nat)
    requires RefineStep(w, ts, ts', i)
    ensures Shaped(ts', |w|) && TotalError(w, ts') <= SumSq(Target(w, ts, i))
  {
    hide Fitted, SumSq, Subtract, MaxAbs, Sq, Target;
    StepErrors(w, ts, ts', i);
    FittedNeverHurts(Target(w, ts, i), ts'[i]);
  }

  lemma FittedNeverHurts(r: Vec, term: RawTerm)
    requires Fitted(r, term)
    ensures |term.t| == |r| && SumSq(Subtract(r, term.a, term.t)) <= SumSq(r)
  {
    hide SumSq, Subtract;
    if MaxAbs(r) >= CUTOFF {
      var k :| BestExponent(r, WindowLow(MaxAbs(r)), WindowHigh(MaxAbs(r)), k) && term == RawTerm(Pow2(k), Digits(r, Pow2(k)));
      RoundingNeverHurts(r, Pow2(k));
    } else {
      FittedShrinks(r, term);
    }
  }

  /** The rounded digits at a scale are at least as good as any other digits at that scale. */
  lemma RoundedDigitsAreBest(r: Vec, a: real, t: seq<int>)
    requires a > 0.0 && |t| == |r| && forall p :: 0 <= p < |t| ==> IsDigit(t[p])
    ensures SumSq(Subtract(r, a, Digits(r, a))) <= SumSq(Subtract(r, a, t))
  {
    var e, e' := Subtract(r, a, Digits(r, a)), Subtract(r, a, t);
    forall p | 0 <= p < |r| ensures Sq(e[p]) <= Sq(e'[p]) {
      ClampRoundIsBest(r[p], a, t[p]);
    }
    SumSqPointwise(e, e', |r|);
  }

  lemma IdleDigit(x: real, a: real)
    requires a > 0.0 && -a <= 2.0 * x <= a
    ensures ClampRound(x / a) == 0
  {
    var q := x / a;
    assert q * a == x;
    ScaleOrder(q, a);
    ClampRoundThreshold(q);
  }

  lemma ZeroDigits(r: Vec, a: real, t: seq<int>)
    requires |t| == |r| && forall p :: 0 <= p < |t| ==> t[p] == 0
    ensures Subtract(r, a, t) == r
  {
  }

  /** A scale of at least twice the largest entry rounds everything to zero. */
  lemma LargeScaleIsIdle(r: Vec, a: real)
    requires a > 0.0 && a >= 2.0 * MaxAbs(r)
    ensures Subtract(r, a, Digits(r, a)) == r
  {
    hide ClampRound, Subtract;
    forall p | 0 <= p < |r| ensures Digits(r, a)[p] == 0 {
      assert Abs(r[p]) <= MaxAbs(r);
      IdleDigit(r[p], a);
    }
    ZeroDigits(r, a, Digits(r, a));
  }

  /** The old scale is on the grid and not below the window of the new target. */
  ghost predicate ComparableScale(a: real, rmax: real) {
    a == 0.0 || exists k :: a == Pow2(k) && WindowLow(rmax) <= k
  }

  /** No digits at any comparable scale beat the fitted term. */
  lemma FittedBeats(r: Vec, term: RawTerm, old': RawTerm)
    requires Fitted(r, term) && MaxAbs(r) >= CUTOFF
    requires ValidTerm(old', |r|) && ComparableScale(old'.a, MaxAbs(r))
    ensures |term.t| == |r|
    ensures SumSq(Subtract(r, term.a, term.t)) <= SumSq(Subtract(r, old'.a, old'.t))
  {
    hide SumSq, Subtract, Digits, MaxAbs;
    FittedNeverHurts(r, term);
    if old'.a == 0.0 {
      SubtractZero(r, old');
    } else {
      var k :| old'.a == Pow2(k) && WindowLow(MaxAbs(r)) <= k;
      RoundedDigitsAreBest(r, Pow2(k), old'.t);
      if k < WindowHigh(MaxAbs(r)) {
        FittedIsArgmin(r, term, k);
      } else {
        PastWindow(MaxAbs(r), k);
        LargeScaleIsIdle(r, Pow2(k));
      }
    }
  }

  lemma FittedIsArgmin(r: Vec, term: RawTerm, k: int)
    requires Fitted(r, term) && MaxAbs(r) >= CUTOFF && WindowLow(MaxAbs(r)) <= k < WindowHigh(MaxAbs(r))
    ensures |term.t| == |r|
    ensures SumSq(Subtract(r, term.a, term.t)) <= SumSq(Subtract(r, Pow2(k), Digits(r, Pow2(k))))
  {
    hide SumSq, Subtract;
    assert ErrorAt(r, k) == SumSq(Subtract(r, Pow2(k), Digits(r, Pow2(k))));
  }

  /**
   Above the cut-off an update whose old scale is comparable does not increase the total error;
   below it the term is dropped and the total error is bounded by the cut-off.
   */
  lemma RefineStepDescends(w: Vec, ts: seq<RawTerm>, ts': seq<RawTerm>, i: nat)
    requires RefineStep(w, ts, ts', i) && ValidTerm(ts[i], |w|)
    ensures Shaped(ts', |w|)
    ensures MaxAbs(Target(w, ts, i)) >= CUTOFF && ComparableScale(ts[i].a, MaxAbs(Target(w, ts, i))) ==>
              TotalError(w, ts') <= TotalError(w, ts)
    ensures MaxAbs(Target(w, ts, i)) < CUTOFF ==> TotalError(w, ts') <= |w| as real * Sq(CUTOFF)
  {
    hide SumSq, Subtract, MaxAbs, Sq, Fitted, Target, ComparableScale, ValidTerm;
    StepErrors(w, ts, ts', i);
    var r := Target(w, ts, i);
    if MaxAbs(r) >= CUTOFF {
      if ComparableScale(ts[i].a, MaxAbs(r)) {
        FittedBeats(r, ts'[i], ts[i]);
      }
    } else {
      FittedShrinks(r, ts'[i]);
      CutoffBound(r);
    }
  }

  lemma CutoffBound(r: Vec)
    requires MaxAbs(r) < CUTOFF
    ensures SumSq(r) <= |r| as real * Sq(CUTOFF)
  {
    SumSqAtMost(r, |r|, CUTOFF);
  }

  /** What the code builds: a scale of 0 or a power of two and digits in {-1, 0, 1}. */
  lemma FittedIsValid(r: Vec, term: RawTerm)
    requires Fitted(r, term)
    ensures ValidTerm(term, |r|)
  {
    hide BestExponent, MaxAbs, ClampRound;
    forall x ensures IsDigit(ClampRound(x)) {
      ClampRoundThreshold(x);
    }
  }

  ghost predicate AllValid(ts: seq<RawTerm>, n: nat) {
    forall i :: 0 <= i < |ts| ==> ValidTerm(ts[i], n)
  }

  /** The update either drops the term or replaces a comparable one. */
  ghost predicate RegularStep(w: Vec, ts: seq<RawTerm>, i: nat)
    requires i < |ts| && Shaped(ts, |w|)
  {
    MaxAbs(Target(w, ts, i)) >= CUTOFF ==> ComparableScale(ts[i].a, MaxAbs(Target(w, ts, i)))
  }

  ghost predicate RegularSweep(w: Vec, states: seq<seq<RawTerm>>, n: nat)
    requires RefineSweep(w, states, n)
  {
    forall i :: 0 <= i < n ==> RefineStep(w, states[i], states[i + 1], i) && RegularStep(w, states[i], i)
  }

  /** Below this total error, refinement may trade the error of a dropped term. */
  function ErrorFloor(n: nat): real {
    n as real * Sq(CUTOFF)
  }

  lemma RegularStepBound(w: Vec, ts: seq<RawTerm>, ts': seq<RawTerm>, i: nat)
    requires RefineStep(w, ts, ts', i) && RegularStep(w, ts, i) && AllValid(ts, |w|)
    ensures Shaped(ts', |w|) && AllValid(ts', |w|)
    ensures TotalError(w, ts') <= MaxReal(TotalError(w, ts), ErrorFloor(|w|))
  {
    hide TotalError, Fitted, MaxAbs, Target, ComparableScale, Sq, ValidTerm;
    RefineStepDescends(w, ts, ts', i);
    FittedIsValid(Target(w, ts, i), ts'[i]);
  }

  lemma {:induction false} RegularSweepBound(w: Vec, states: seq<seq<RawTerm>>, n: nat, m: nat)
    requires RefineSweep(w, states, n) && RegularSweep(w, states, n) && m <= n
    requires Shaped(states[0], |w|) && AllValid(states[0], |w|)
    ensures Shaped(states[m], |w|) && AllValid(states[m], |w|)
    ensures TotalError(w, states[m]) <= MaxReal(TotalError(w, states[0]), ErrorFloor(|w|))
  {
    hide TotalError, RefineStep, RegularStep, ValidTerm;
    if m > 0 {
      RegularSweepBound(w, states, n, m - 1);
      assert RefineStep(w, states[m - 1], states[m - 1 + 1], m - 1);
      RegularStepBound(w, states[m - 1], states[m], m - 1);
    }
  }

  /**
   A whole run of regular updates never raises the total squared error, except that dropped terms
   may leave it at the level that n weights under the cut-off can hold.
   */
  lemma {:induction false} RefineRunBound(
      w: Vec, first: seq<RawTerm>, last: seq<RawTerm>, sweeps: seq<seq<seq<RawTerm>>>, n: nat)
    requires RefineRun(w, first, last, sweeps, n) && Shaped(first, |w|) && AllValid(first, |w|)
    requires forall s :: 0 <= s < |sweeps| ==> RefineSweep(w, sweeps[s], n) && RegularSweep(w, sweeps[s], n)
    ensures Shaped(last, |w|) && AllValid(last, |w|)
    ensures TotalError(w, last) <= MaxReal(TotalError(w, first), ErrorFloor(|w|))
    decreases |sweeps|
  {
    hide TotalError, RefineStep, RegularStep, ValidTerm, RegularSweep;
    if |sweeps| > 0 {
      var states := sweeps[|sweeps| - 1];
      RefineRunBound(w, first, states[0], sweeps[..|sweeps| - 1], n);
      RegularSweepBound(w, states, n, n);
    }
  }
}
