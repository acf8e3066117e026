/** Two decompositions, reached from the greedy terms, that refine_terms makes worse. */
module RefinementFailures {
  import opened Vectors
  import opened Ternary
  import opened Decompose
  import opened TermSearch
  import opened Refinement
  import opened Grouped
  import LeastSquares

  // ----- a scale below the new window

  /** 40 weights of 1/2, 13 of 5/4 and one of 4. */
  const CROWD: Sizes := (40, 13, 1)

  function Crowded(): Triple<real> {
    Triple(0.5, 1.25, 4.0)
  }

  /** The first greedy search: the largest weights at scale 1. */
  lemma CrowdedSearch()
    ensures Search(CROWD, Crowded(), 0, 5, 0) && RoundDigits(Crowded(), 1.0) == Triple(0, 1, 1)
  {
    hide Pow2;
    SmallPowers();
    FiveTrials(CROWD, Crowded(), 0, 0, 1.0, [19.8125, 21.3125, 30.3125, 46.3125, 46.3125]);
  }

  /** What scale 1 leaves is fitted at scale 2, where only the peak counts. */
  lemma PeakSearch()
    ensures var v := Triple(0.5, 0.25, 3.0);
      Search(CROWD, v, 0, 5, 1) && Trial(CROWD, v, 2.0) == 11.8125 && RoundDigits(v, 2.0) == Triple(0, 0, 1)
  {
    hide Pow2;
    SmallPowers();
    FiveTrials(CROWD, Triple(0.5, 0.25, 3.0), 0, 1, 1.0, [14.8125, 11.8125, 11.8125, 19.8125, 19.8125]);
  }

  lemma FineSearch()
    ensures var v := Triple(0.5, 1.25, 2.0);
      Search(CROWD, v, -1, 4, -1) && Trial(CROWD, v, 0.5) == 9.5625 && RoundDigits(v, 0.5) == Triple(1, 1, 1)
  {
    hide Pow2;
    SmallPowers();
    FiveTrials(CROWD, Triple(0.5, 1.25, 2.0), -1, 0, 0.5, [9.5625, 11.8125, 17.3125, 34.3125, 34.3125]);
  }

  lemma MiddleSearch()
    ensures var v := Triple(0.0, 0.75, 3.5);
      Search(CROWD, v, 0, 5, 0) && Trial(CROWD, v, 1.0) == 7.0625 && RoundDigits(v, 1.0) == Triple(0, 1, 1)
  {
    hide Pow2;
    SmallPowers();
    FiveTrials(CROWD, Triple(0.0, 0.75, 3.5), 0, 0, 1.0, [7.0625, 9.5625, 7.5625, 19.5625, 19.5625]);
  }

  function CrowdedWeights(): Vec {
    Spread(CROWD, Crowded())
  }

  lemma CrowdedGreedy(ts: seq<RawTerm>, rs: seq<Vec>)
    requires |ts| == 2 && GreedyRun(CrowdedWeights(), ts, rs)
    ensures ts == [Term(CROWD, 1.0, Triple(0, 1, 1)), Term(CROWD, 2.0, Triple(0, 0, 1))]
    ensures Shaped(ts, |CrowdedWeights()|) && TotalError(CrowdedWeights(), ts) == 11.8125
  {
    hide Spread, Search, Pow2, RoundDigits, Trial, GreedyRun, TotalError;
    SmallPowers();
    CrowdedSearch();
    PeakSearch();
    PairGreedy(CROWD, Crowded(), ts, rs, 0, 5, 0, 0, 5, 1);
  }

  /** The first sweep improves both terms. */
  lemma FirstSweep(states: seq<seq<RawTerm>>)
    requires RefineSweep(CrowdedWeights(), states, 2)
    requires states[0] == [Term(CROWD, 1.0, Triple(0, 1, 1)), Term(CROWD, 2.0, Triple(0, 0, 1))]
    ensures states[2] == [Term(CROWD, 0.5, Triple(1, 1, 1)), Term(CROWD, 1.0, Triple(0, 1, 1))]
    ensures Shaped(states[2], |CrowdedWeights()|) && TotalError(CrowdedWeights(), states[2]) == 7.0625
  {
    hide Spread, Search, Pow2, RoundDigits, Trial, RefineStep, TotalError;
    assert RefineStep(CrowdedWeights(), states[0], states[0 + 1], 0) && RefineStep(CrowdedWeights(), states[1], states[1 + 1], 1);
    SmallPowers();
    FineSearch();
    PairStep(CROWD, Crowded(), states[0], states[1], 0, 2.0, Triple(0, 0, 1), -1, 4, -1);
    MiddleSearch();
    PairStep(CROWD, Crowded(), states[1], states[2], 1, 0.5, Triple(1, 1, 1), 0, 5, 0);
  }

  /**
   The second sweep re-fits the first term, of scale 1/2, against a target whose window starts at
   scale 1, and the error grows from 7.0625 to 11.8125.
   */
  lemma BelowWindowRaisesError(
      greedy: seq<RawTerm>, rs: seq<Vec>, last: seq<RawTerm>, sweeps: seq<seq<seq<RawTerm>>>)
    requires |greedy| == 2 && GreedyRun(CrowdedWeights(), greedy, rs)
    requires |sweeps| == 2 && RefineRun(CrowdedWeights(), greedy, last, sweeps, 2)
    ensures var before, after := sweeps[1][0], sweeps[1][1];
      && RefineStep(CrowdedWeights(), before, after, 0) && Shaped(after, |CrowdedWeights()|)
      && MaxAbs(Target(CrowdedWeights(), before, 0)) >= CUTOFF
      && before[0].a == 0.5 && Pow2(WindowLow(MaxAbs(Target(CrowdedWeights(), before, 0)))) == 1.0
      && TotalError(CrowdedWeights(), before) == 7.0625 && TotalError(CrowdedWeights(), after) == 11.8125
  {
    hide Spread, Search, Pow2, RoundDigits, Trial, RefineStep, TotalError, GreedyRun, MaxAbs, WindowLow, Target;
    TwoSweeps(CrowdedWeights(), greedy, last, sweeps);
    CrowdedGreedy(greedy, rs);
    FirstSweep(sweeps[0]);
    var before, after := sweeps[1][0], sweeps[1][1];
    assert RefineStep(CrowdedWeights(), before, sweeps[1][0 + 1], 0);
    SmallPowers();
    PeakSearch();
    PairStep(CROWD, Crowded(), before, after, 0, 1.0, Triple(0, 1, 1), 0, 5, 1);
    PairTarget(CROWD, Crowded(), before, 0, 1.0, Triple(0, 1, 1));
    SearchedPeak(CROWD, Triple(0.5, 0.25, 3.0), 0, 5, 1);
  }

  lemma SearchedPeak(n: Sizes, v: Triple<real>, lo: int, hi: int, k: int)
    requires Search(n, v, lo, hi, k)
    ensures MaxAbs(Spread(n, v)) >= CUTOFF && WindowLow(MaxAbs(Spread(n, v))) == lo
  {
    hide MaxAbs, Peak, Spread, Window;
    SpreadPeak(n, v);
    WindowIs(Peak(v), lo, hi);
  }

  lemma TwoSweeps(w: Vec, first: seq<RawTerm>, last: seq<RawTerm>, sweeps: seq<seq<seq<RawTerm>>>)
    requires |sweeps| == 2 && RefineRun(w, first, last, sweeps, 2)
    ensures RefineSweep(w, sweeps[0], 2) && RefineSweep(w, sweeps[1], 2)
    ensures sweeps[0][0] == first && sweeps[1][0] == sweeps[0][2] && sweeps[1][2] == last
  {
    hide RefineStep;
    assert sweeps[..1][..0] == [];
    assert RefineRun(w, first, sweeps[1][0], sweeps[..1], 2);
    assert RefineRun(w, first, sweeps[0][0], sweeps[..1][..0], 2);
  }

  // ----- a term dropped at the cut-off

  /** Three weights of 2^-27 and one of three times that. */
  const FAINT: Sizes := (2, 1, 1)

  function Faint(): real {
    Pow2(-27)
  }

  function FaintWeights(): Vec {
    Spread(FAINT, Triple(Faint(), Faint(), 3.0 * Faint()))
  }

  /** 2^-27 lies between a third of the cut-off and the cut-off. */
  lemma FaintIsBelowCutoff()
    ensures LOG_FLOOR < Faint() < CUTOFF <= 2.0 * Faint()
  {
    assert Pow2(-5) == 1.0 / 32.0;
    assert Pow2(-10) == 1.0 / 1024.0;
    assert Pow2(-15) == 1.0 / 32768.0;
    assert Pow2(-20) == 1.0 / 1048576.0;
    assert Pow2(-25) == 1.0 / 33554432.0;
  }

  /** The squares that occur, as multiples of c * c. */
  lemma Squares(c: real)
    ensures Sq(0.0) == 0.0 && Sq(-c) == Sq(c)
    ensures Sq(2.0 * c) == 4.0 * Sq(c) && Sq(3.0 * c) == 9.0 * Sq(c) && Sq(1.5 * c) == 2.25 * Sq(c) && Sq(0.5 * c) == 0.25 * Sq(c)
  {
  }

  lemma PositiveSquare(c: real)
    requires c > 0.0
    ensures Sq(c) > 0.0
  {
    hide Sq;
    LeastSquares.SquareSign(c);
  }

  /** c, c, 3c: scales c, 2c and 4c all leave 4 c^2, and the first one wins. */
  lemma FaintTrials(c: real)
    requires c > 0.0
    ensures var v := Triple(c, c, 3.0 * c);
      && Trial(FAINT, v, c) == 4.0 * Sq(c) && Trial(FAINT, v, 2.0 * c) == 4.0 * Sq(c) && Trial(FAINT, v, 4.0 * c) == 4.0 * Sq(c)
      && Trial(FAINT, v, 8.0 * c) == 12.0 * Sq(c) && Trial(FAINT, v, 16.0 * c) == 12.0 * Sq(c)
      && RoundDigits(v, c) == Triple(1, 1, 1)
  {
    Squares(c);
    hide Sq;
  }

  /** What remains, 0, 0, 2c, is fitted exactly at scale 2c. */
  lemma RestTrials(c: real)
    requires c > 0.0
    ensures var v := Triple(0.0, 0.0, 2.0 * c);
      && Trial(FAINT, v, 0.5 * c) == 2.25 * Sq(c) && Trial(FAINT, v, c) == Sq(c) && Trial(FAINT, v, 2.0 * c) == 0.0
      && Trial(FAINT, v, 4.0 * c) == 4.0 * Sq(c) && Trial(FAINT, v, 8.0 * c) == 4.0 * Sq(c)
      && RoundDigits(v, 2.0 * c) == Triple(0, 0, 1)
  {
    Squares(c);
    hide Sq;
  }

  lemma FaintSearch()
    ensures var c := Faint(); var v := Triple(c, c, 3.0 * c);
      Search(FAINT, v, -27, -22, -27) && Trial(FAINT, v, c) == 4.0 * Sq(c) && RoundDigits(v, c) == Triple(1, 1, 1)
  {
    hide Pow2, Sq, Trial, RoundDigits;
    var c := Faint();
    FaintIsBelowCutoff();
    FaintTrials(c);
    PositiveSquare(c);
    var s := Sq(c);
    FiveTrials(FAINT, Triple(c, c, 3.0 * c), -27, 0, c, [4.0 * s, 4.0 * s, 4.0 * s, 12.0 * s, 12.0 * s]);
    FivePowers(-27);
  }

  lemma RestSearch()
    ensures var c := Faint(); var v := Triple(0.0, 0.0, 2.0 * c);
      Search(FAINT, v, -28, -23, -26) && Trial(FAINT, v, 2.0 * c) == 0.0 && RoundDigits(v, 2.0 * c) == Triple(0, 0, 1)
  {
    hide Pow2, Sq, Trial, RoundDigits;
    var c := Faint();
    FaintIsBelowCutoff();
    RestTrials(c);
    PositiveSquare(c);
    var s := Sq(c);
    FivePowers(-28);
    FiveTrials(FAINT, Triple(0.0, 0.0, 2.0 * c), -28, 2, 0.5 * c, [2.25 * s, s, 0.0, 4.0 * s, 4.0 * s]);
  }

  lemma FaintPowers()
    ensures Pow2(-27) == Faint() && Pow2(-26) == 2.0 * Faint()
  {
    Pow2Step(-27);
    hide Pow2;
  }

  /** The greedy terms are exact. */
  lemma FaintGreedy(ts: seq<RawTerm>, rs: seq<Vec>)
    requires |ts| == 2 && GreedyRun(FaintWeights(), ts, rs)
    ensures ts == [Term(FAINT, Faint(), Triple(1, 1, 1)), Term(FAINT, 2.0 * Faint(), Triple(0, 0, 1))]
    ensures Shaped(ts, |FaintWeights()|) && TotalError(FaintWeights(), ts) == 0.0
  {
    hide Spread, Search, Pow2, RoundDigits, Trial, GreedyRun, TotalError, Faint;
    var c := Faint();
    FaintPowers();
    FaintSearch();
    RestSearch();
    assert Left(Triple(c, c, 3.0 * c), c, Triple(1, 1, 1)) == Triple(0.0, 0.0, 2.0 * c);
    PairGreedy(FAINT, Triple(c, c, 3.0 * c), ts, rs, -27, -22, -27, -28, -23, -26);
  }

  /**
   Refinement drops the first term, because its target is under the cut-off, and then fits the second one
   as the first greedy term was: an exact decomposition ends with an error of 4 * 2^-54.
   */
  lemma CutoffRaisesError(greedy: seq<RawTerm>, rs: seq<Vec>, last: seq<RawTerm>, sweeps: seq<seq<seq<RawTerm>>>)
    requires |greedy| == 2 && GreedyRun(FaintWeights(), greedy, rs)
    requires |sweeps| == 1 && RefineRun(FaintWeights(), greedy, last, sweeps, 2)
    ensures Shaped(greedy, |FaintWeights()|) && Shaped(last, |FaintWeights()|)
    ensures TotalError(FaintWeights(), greedy) == 0.0
    ensures TotalError(FaintWeights(), last) == 4.0 * Sq(Faint()) > 0.0
  {
    hide Spread, Search, Pow2, RoundDigits, Trial, RefineStep, TotalError, GreedyRun, Faint, Sq;
    var c, states := Faint(), sweeps[0];
    OneSweep(FaintWeights(), greedy, last, sweeps);
    FaintGreedy(greedy, rs);
    assert RefineStep(FaintWeights(), states[0], states[0 + 1], 0) && RefineStep(FaintWeights(), states[1], states[1 + 1], 1);
    FaintIsBelowCutoff();
    PositiveSquare(c);
    PeakOfThree(c);
    PairDrop(FAINT, Triple(c, c, 3.0 * c), states[0], states[1], 0, 2.0 * c, Triple(0, 0, 1));
    FaintPowers();
    FaintSearch();
    PairStep(FAINT, Triple(c, c, 3.0 * c), states[1], states[2], 1, 0.0, Triple(0, 0, 0), -27, -22, -27);
  }

  /** With the second term subtracted all four weights are 2^-27. */
  lemma PeakOfThree(c: real)
    requires 0.0 < c < CUTOFF
    ensures Peak(Rest(Triple(c, c, 3.0 * c), 2.0 * c, Triple(0, 0, 1))) < CUTOFF
  {
  }

  lemma OneSweep(w: Vec, first: seq<RawTerm>, last: seq<RawTerm>, sweeps: seq<seq<seq<RawTerm>>>)
    requires |sweeps| == 1 && RefineRun(w, first, last, sweeps, 2)
    ensures RefineSweep(w, sweeps[0], 2) && sweeps[0][0] == first && sweeps[0][2] == last
  {
    hide RefineStep;
    assert RefineRun(w, first, sweeps[0][0], sweeps[..0], 2);
  }
}
