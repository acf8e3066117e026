/** The loops that pick scales and digits: the greedy pass and the refinement sweeps. */
module TermSearch {
  import opened Vectors
  import opened Ternary
  import opened Decompose

  method LargestMagnitude(r: array<real>) returns (rmax: real)
    ensures rmax == MaxAbs(r[..])
  {
    rmax := 0.0;
    for i := 0 to r.Length
      invariant rmax == MaxAbsTo(r[..], i)
    {
      var v := Abs(r[i]);
      if v > rmax {
        rmax := v;
      }
    }
  }

  lemma DigitsEntry(r: Vec, a: real, i: nat)
    requires a != 0.0 && i < |r|
    ensures Subtract(r, a, Digits(r, a))[i] == r[i] - a * ClampRound(r[i] / a) as real
  {
  }

  /** Fills diff with what rounding at scale a leaves. */
  method RoundingErrors(r: array<real>, diff: array<real>, a: real)
    requires r.Length == diff.Length && r != diff && a != 0.0
    modifies diff
    ensures diff[..] == Subtract(r[..], a, Digits(r[..], a))
  {
    ghost var target := Subtract(r[..], a, Digits(r[..], a));
    hide ClampRound, Subtract, Digits;
    for i := 0 to r.Length
      invariant forall p :: 0 <= p < i ==> diff[p] == target[p]
    {
      DigitsEntry(r[..], a, i);
      var tc := ClampRound(r[i] / a);
      diff[i] := r[i] - a * tc as real;
    }
    assert diff[..] == target;
  }

  /** The squared Frobenius norm, accumulated left to right. */
  method SumOfSquares(v: array<real>) returns (e: real)
    ensures e == SumSq(v[..])
  {
    e := 0.0;
    for i := 0 to v.Length
      invariant e == DotRange(v[..], v[..], 0, i)
    {
      e := e + v[i] * v[i];
    }
  }

  method TrialError(r: array<real>, diff: array<real>, k: int) returns (e: real)
    requires r.Length == diff.Length && r != diff
    modifies diff
    ensures e == ErrorAt(r[..], k)
  {
    RoundingErrors(r, diff, Pow2(k));
    e := SumOfSquares(diff);
  }

  method SearchExponent(r: array<real>, lo: int, hi: int) returns (best: int)
    requires lo < hi
    ensures BestExponent(r[..], lo, hi, best)
  {
    var diff := new real[r.Length];
    best := lo;
    var bestError, seen := 0.0, false;
    for k := lo to hi
      invariant seen <==> k > lo
      invariant seen ==> bestError == ErrorAt(r[..], best) && BestExponent(r[..], lo, k, best)
    {
      var e := TrialError(r, diff, k);
      if !seen || e < bestError {
        bestError, best, seen := e, k, true;
      }
    }
  }

  lemma WindowIsNotEmpty(rmax: real)
    requires rmax >= CUTOFF
    ensures WindowLow(rmax) < WindowHigh(rmax)
  {
    WindowCovers(rmax);
  }

  /** Scale and digits for one residual. */
  method FitTerm(r: array<real>) returns (term: RawTerm)
    ensures Fitted(r[..], term)
  {
    var rmax := LargestMagnitude(r);
    if rmax < CUTOFF {
      return RawTerm(0.0, seq(r.Length, _ => 0));
    }
    WindowIsNotEmpty(rmax);
    var k := SearchExponent(r, WindowLow(rmax), WindowHigh(rmax));
    var a := Pow2(k);
    var t: seq<int> := [];
    for i := 0 to r.Length
      invariant t == Digits(r[..], a)[..i]
    {
      t := t + [ClampRound(r[i] / a)];
    }
    term := RawTerm(a, t);
  }

  method SubtractTerm(r: array<real>, term: RawTerm)
    requires |term.t| == r.Length
    modifies r
    ensures r[..] == Subtract(old(r[..]), term.a, term.t)
  {
    for i := 0 to r.Length
      invariant forall p :: 0 <= p < r.Length ==>
        r[p] == if p < i then old(r[p]) - term.a * term.t[p] as real else old(r[p])
    {
      r[i] := r[i] - term.a * term.t[i] as real;
    }
    assert forall p :: 0 <= p < r.Length ==> r[..][p] == Subtract(old(r[..]), term.a, term.t)[p];
  }

  method Copy(w: Vec) returns (r: array<real>)
    ensures fresh(r) && r[..] == w
  {
    r := new real[|w|];
    for i := 0 to |w|
      invariant r[..i] == w[..i]
    {
      r[i] := w[i];
    }
  }

  /** greedy_terms: each term is fitted to what the earlier ones left. */
  method GreedyTerms(w: Vec, numTerms: nat) returns (terms: seq<RawTerm>, ghost rs: seq<Vec>)
    ensures |terms| == numTerms && GreedyRun(w, terms, rs)
  {
    hide Fitted;
    var r := Copy(w);
    terms, rs := [], [w];
    for t := 0 to numTerms
      invariant |terms| == t && GreedyRun(w, terms, rs) && r[..] == rs[t]
    {
      var term := FitTerm(r);
      FittedLength(r[..], term);
      if term.a != 0.0 {
        SubtractTerm(r, term);
      } else {
        assert Subtract(r[..], term.a, term.t) == r[..];
      }
      assert Leaves(rs[t], term, r[..]);
      terms, rs := terms + [term], rs + [r[..]];
    }
  }

  lemma FittedLength(r: Vec, term: RawTerm)
    requires Fitted(r, term)
    ensures |term.t| == |r|
  {
  }

  // ----- refinement

  /** The weights minus every non-zero term but term i, taken over the first m terms. */
  function Excluding(w: Vec, ts: seq<RawTerm>, i: nat, m: nat): (r: Vec)
    requires m <= |ts| && Shaped(ts, |w|)
    ensures |r| == |w|
  {
    if m == 0 then w
    else if m - 1 == i || ts[m - 1].a == 0.0 then Excluding(w, ts, i, m - 1)
    else Subtract(Excluding(w, ts, i, m - 1), ts[m - 1].a, ts[m - 1].t)
  }

  /** The weights minus the first m terms. */
  function Remaining(w: Vec, ts: seq<RawTerm>, m: nat): (r: Vec)
    requires m <= |ts| && Shaped(ts, |w|)
    ensures |r| == |w|
  {
    if m == 0 then w else Subtract(Remaining(w, ts, m - 1), ts[m - 1].a, ts[m - 1].t)
  }

  /** Total squared error of a list of terms. */
  function TotalError(w: Vec, ts: seq<RawTerm>): real
    requires Shaped(ts, |w|)
  {
    SumSq(Remaining(w, ts, |ts|))
  }

  /** The residual that term i is re-fitted against. */
  function Target(w: Vec, ts: seq<RawTerm>, i: nat): (r: Vec)
    requires Shaped(ts, |w|)
    ensures |r| == |w|
  {
    Excluding(w, ts, i, |ts|)
  }

  ghost predicate RefineStep(w: Vec, ts: seq<RawTerm>, ts': seq<RawTerm>, i: nat) {
    && i < |ts| == |ts'| && Shaped(ts, |w|) && ts' == ts[i := ts'[i]]
    && Fitted(Target(w, ts, i), ts'[i])
  }

  /** One sweep re-fits the terms in order; states lists the terms before and after each update. */
  ghost predicate RefineSweep(w: Vec, states: seq<seq<RawTerm>>, n: nat) {
    |states| == n + 1 && forall i :: 0 <= i < n ==> RefineStep(w, states[i], states[i + 1], i)
  }

  ghost predicate RefineRun(w: Vec, first: seq<RawTerm>, last: seq<RawTerm>, sweeps: seq<seq<seq<RawTerm>>>, n: nat)
    decreases |sweeps|
  {
    if |sweeps| == 0 then first == last
    else
      var states := sweeps[|sweeps| - 1];
      RefineSweep(w, states, n) && states[n] == last && RefineRun(w, first, states[0], sweeps[..|sweeps| - 1], n)
  }

  method RebuildResidual(w: Vec, terms: array<RawTerm>, i: nat) returns (r: array<real>)
    requires i < terms.Length && Shaped(terms[..], |w|)
    ensures fresh(r) && r[..] == Target(w, terms[..], i)
  {
    r := Copy(w);
    for j := 0 to terms.Length
      invariant r[..] == Excluding(w, terms[..], i, j)
    {
      if j == i || terms[j].a == 0.0 {
        continue;
      }
      SubtractTerm(r, terms[j]);
    }
  }

  method RefitTerm(w: Vec, terms: array<RawTerm>, i: nat)
    requires i < terms.Length && Shaped(terms[..], |w|)
    modifies terms
    ensures Shaped(terms[..], |w|) && RefineStep(w, old(terms[..]), terms[..], i)
  {
    hide Fitted;
    var r := RebuildResidual(w, terms, i);
    ghost var before := terms[..];
    var term := FitTerm(r);
    FittedLength(r[..], term);
    terms[i] := term;
    assert terms[..] == before[i := term];
  }

  /** refine_terms: re-fits every term in turn, maxIter times over. */
  method RefineTerms(w: Vec, maxIter: nat, terms: array<RawTerm>) returns (ghost sweeps: seq<seq<seq<RawTerm>>>)
    requires Shaped(terms[..], |w|)
    modifies terms
    ensures Shaped(terms[..], |w|)
    ensures |sweeps| == maxIter && RefineRun(w, old(terms[..]), terms[..], sweeps, terms.Length)
  {
    hide RefineStep;
    sweeps := [];
    for it := 0 to maxIter
      invariant |sweeps| == it && Shaped(terms[..], |w|)
      invariant RefineRun(w, old(terms[..]), terms[..], sweeps, terms.Length)
    {
      label BeforeSweep:
      ghost var states := [terms[..]];
      for i := 0 to terms.Length
        invariant Shaped(terms[..], |w|) && RefineSweep(w, states, i) && states[i] == terms[..]
        invariant states[0] == old@BeforeSweep(terms[..])
      {
        RefitTerm(w, terms, i);
        states := states + [terms[..]];
      }
      assert (sweeps + [states])[..it] == sweeps;
      sweeps := sweeps + [states];
    }
  }
}
