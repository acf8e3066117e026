/** A matrix that greedy fitting and refinement represent exactly and that fit_block_scales then spoils. */
module ScaleFailures {
  import Bytes
  import opened Vectors
  import opened Ternary
  import opened Decompose
  import opened TermSearch
  import opened Refinement
  import opened Grouped
  import opened LuFactor
  import opened LuSolve
  import opened LeastSquares
  import opened BlockScales
  import opened AlsPipeline

  const FOUR: Sizes := (2, 1, 1)

  /** 3/4, 3/4, 5/4, 1/4: one row of four weights. */
  function Weights(): (w: Vec)
    ensures |w| == 4
  {
    Spread(FOUR, Triple(0.75, 1.25, 0.25))
  }

  /** 1 * [1, 1, 1, 0] + 1/4 * [-1, -1, 1, 1] */
  function ExactTerms(): seq<RawTerm> {
    [Term(FOUR, 1.0, Triple(1, 1, 0)), Term(FOUR, 0.25, Triple(-1, 1, 1))]
  }

  // ----- greedy terms and refinement

  lemma FirstSearch()
    ensures var w := Triple(0.75, 1.25, 0.25); Search(FOUR, w, -2, 3, 0) && RoundDigits(w, 1.0) == Triple(1, 1, 0)
  {
    hide Pow2;
    SmallPowers();
    FiveTrials(FOUR, Triple(0.75, 1.25, 0.25), -2, 2, 0.25, [1.5, 0.75, 0.25, 1.75, 2.75]);
  }

  lemma SecondSearch()
    ensures var v := Triple(-0.25, 0.25, 0.25);
      Search(FOUR, v, -4, 1, -2) && Trial(FOUR, v, 0.25) == 0.0 && RoundDigits(v, 0.25) == Triple(-1, 1, 1)
  {
    hide Pow2;
    SmallPowers();
    FiveTrials(FOUR, Triple(-0.25, 0.25, 0.25), -4, 2, 0.0625, [0.140625, 0.0625, 0.0, 0.25, 0.25]);
  }

  lemma FirstAgain()
    ensures var v := Triple(1.0, 1.0, 0.0); Search(FOUR, v, -2, 3, 0) && RoundDigits(v, 1.0) == Triple(1, 1, 0)
  {
    hide Pow2;
    SmallPowers();
    FiveTrials(FOUR, Triple(1.0, 1.0, 0.0), -2, 2, 0.25, [1.6875, 0.75, 0.0, 3.0, 3.0]);
  }

  lemma GreedyIsExact(ts: seq<RawTerm>, rs: seq<Vec>)
    requires |ts| == 2 && GreedyRun(Weights(), ts, rs)
    ensures ts == ExactTerms() && Shaped(ts, |Weights()|) && TotalError(Weights(), ts) == 0.0
  {
    hide Spread, Search, Pow2, RoundDigits, Trial, GreedyRun, TotalError;
    SmallPowers();
    FirstSearch();
    SecondSearch();
    PairGreedy(FOUR, Triple(0.75, 1.25, 0.25), ts, rs, -2, 3, 0, -4, 1, -2);
  }

  lemma SweepKeeps(states: seq<seq<RawTerm>>)
    requires RefineSweep(Weights(), states, 2) && states[0] == ExactTerms()
    ensures states[2] == ExactTerms()
  {
    hide Spread, Search, Pow2, RoundDigits, Trial, RefineStep;
    assert RefineStep(Weights(), states[0], states[0 + 1], 0) && RefineStep(Weights(), states[1], states[1 + 1], 1);
    SmallPowers();
    FirstAgain();
    SecondSearch();
    var w := Triple(0.75, 1.25, 0.25);
    PairStep(FOUR, w, states[0], states[1], 0, 0.25, Triple(-1, 1, 1), -2, 3, 0);
    PairStep(FOUR, w, states[1], states[2], 1, 1.0, Triple(1, 1, 0), -4, 1, -2);
  }

  lemma {:induction false} RefinementKeeps(last: seq<RawTerm>, sweeps: seq<seq<seq<RawTerm>>>)
    requires RefineRun(Weights(), ExactTerms(), last, sweeps, 2)
    ensures last == ExactTerms()
    decreases |sweeps|
  {
    hide RefineSweep, Weights, ExactTerms;
    if |sweeps| > 0 {
      var states := sweeps[|sweeps| - 1];
      SweepLength(Weights(), states, 2);
      RefinementKeeps(states[0], sweeps[..|sweeps| - 1]);
      SweepKeeps(states);
    }
  }

  // ----- the system of the only block

  function Cols(): Matrix {
    [[1.0, 1.0, 1.0, 0.0], [-1.0, -1.0, 1.0, 1.0]]
  }

  function Block(): Vec {
    [0.75, 0.75, 1.25, 0.25]
  }

  function Positions(): seq<nat> {
    PositionsOfBlock(1, 4, 128, 0)
  }

  lemma OneBlock()
    ensures Bytes.CeilDiv(4, 128) == 1 && Positions() == [0, 1, 2, 3] && |Weights()| == 4
  {
    assert BlockPositions(4, 0, 4, 1) == BlockPositions(4, 0, 4, 0) + RowPositions(4, 0, 4, 0);
    assert BlockEnd(4, 128, 0) == 4;
  }

  lemma BlockOfWeights()
    ensures |Weights()| == 4 && InRange(Positions(), 4) && Shaped(ExactTerms(), 4)
    ensures Gather(Weights(), Positions()) == Block() && Columns(ExactTerms(), Positions(), 4) == Cols()
    ensures OwnScales(ExactTerms()) == [1.0, 0.25]
  {
    hide Positions;
    OneBlock();
    var cols := Columns(ExactTerms(), Positions(), 4);
    assert Column(ExactTerms()[0].t, [0, 1, 2, 3]) == Cols()[0];
    assert Column(ExactTerms()[1].t, [0, 1, 2, 3]) == Cols()[1];
  }

  lemma DotFour(u: Vec, v: Vec)
    requires |u| == |v| == 4
    ensures Dot(u, v) == u[0] * v[0] + u[1] * v[1] + u[2] * v[2] + u[3] * v[3]
  {
    assert DotRange(u, v, 0, 0) == 0.0;
    assert DotRange(u, v, 0, 1) == u[0] * v[0];
    assert DotRange(u, v, 0, 2) == DotRange(u, v, 0, 1) + u[1] * v[1];
    assert DotRange(u, v, 0, 3) == DotRange(u, v, 0, 2) + u[2] * v[2];
  }

  const RIDGE := 0.0000000004

  lemma SystemIs()
    ensures Ridge(Cols(), 4) == RIDGE && Moments(Cols(), Block()) == [2.75, 0.0]
    ensures System(Cols(), 4) == [[3.0 + RIDGE, -1.0], [-1.0, 4.0 + RIDGE]]
  {
    hide Dot;
    DotFour(Cols()[0], Cols()[0]);
    DotFour(Cols()[0], Cols()[1]);
    DotFour(Cols()[1], Cols()[0]);
    DotFour(Cols()[1], Cols()[1]);
    DotFour(Cols()[0], Block());
    DotFour(Cols()[1], Block());
    var g := Gram(Cols(), 4);
    assert g[0] == [3.0, -1.0] && g[1] == [-1.0, 4.0];
    assert g == [[3.0, -1.0], [-1.0, 4.0]];
    assert g[0][0 := g[0][0] + RIDGE] == [3.0 + RIDGE, -1.0] && g[1][1 := g[1][1] + RIDGE] == [-1.0, 4.0 + RIDGE];
    assert DiagonalMax(g, 2, 0) == 0.0 && DiagonalMax(g, 2, 1) == 3.0;
  }

  // ----- what the guarded solver makes of it

  /** A 2 x 2 system whose first pivot is the larger one is factored without an interchange. */
  lemma FactoredPair(p: real, q: real, t: real, f: Matrix, piv: seq<int>)
    requires Factors([[p, q], [q, t]], f, piv, 2) && UnitMultipliers(f, 2, 2) && p > 1.0 && q == -1.0
    ensures piv == [0, 1] && Square(f, 2) && f[0][0] == p && f[0][1] == q
  {
    var a: Matrix := [[p, q], [q, t]];
    assert piv[1] == 1;
    FirstRows(f);
    assert Interchanges(a, piv, 1) == Interchange(a, 0, piv[0]);
    assert Interchanges(a, piv, 2)[0] == a[piv[0]] && Interchanges(a, piv, 2)[1] == a[1 - piv[0]];
    assert Abs(f[1][0]) <= 1.0;
  }

  /** The first row of L U is that of U; the second starts with the multiplier times the pivot. */
  lemma FirstRows(f: Matrix)
    requires Square(f, 2)
    ensures var m := MatMul(UnitLower(f, 2), Upper(f, 2), 2);
      |m| == 2 && |m[0]| == |m[1]| == 2 && m[0] == f[0] && m[1][0] == f[1][0] * f[0][0]
  {
    var low, up := UnitLower(f, 2), Upper(f, 2);
    assert Combine(low[0], up, 1, 2) == Add(Zeros(2), Scale(low[0][0], up[0]));
    assert Combine(low[1], up, 1, 2) == Add(Zeros(2), Scale(low[1][0], up[0]));
    assert Combine(low[0], up, 2, 2) == f[0];
  }

  /** The guard skips the second row of both sweeps. */
  lemma PairSweeps(p: real, b: real, f: Matrix, y: Vec, s: Vec)
    requires Square(f, 2) && f[0][0] == p > 1.0 && b > 0.0
    requires ForwardSwept(f, [b, 0.0], y, 2) && BackwardSwept(f, y, s, 2)
    ensures s == [b / p, 0.0]
  {
    assert ForwardRow(f, [b, 0.0], y, 2, 0) && ForwardRow(f, [b, 0.0], y, 2, 1);
    assert BackwardRow(f, y, s, 2, 0) && BackwardRow(f, y, s, 2, 1);
    assert DotRange(f[0], y, 0, 0) == 0.0;
    DotRangeSingle(f[0], s, 1);
  }

  lemma NotAllZero()
    ensures !AllZero(Cols())
  {
    assert Cols()[0][0] == 1.0;
    assert Cols()[0] != Zeros(|Cols()[0]|);
  }

  /** The second scale is lost. */
  lemma SecondScaleIsLost(s: Vec, run: Sweep)
    requires BlockFit(Cols(), Block(), s, run)
    ensures s == [2.75 / (3.0 + RIDGE), 0.0]
  {
    hide Moments, System, UnitMultipliers, Factors, AllZero, ForwardSwept, BackwardSwept;
    SystemIs();
    NotAllZero();
    FactoredPair(3.0 + RIDGE, -1.0, 4.0 + RIDGE, run.f, run.piv);
    PairInterchanges();
    PairSweeps(3.0 + RIDGE, 2.75, run.f, run.y, s);
  }

  lemma PairInterchanges()
    ensures Interchanges([2.75, 0.0], [0, 1], 2) == [2.75, 0.0]
  {
    assert Interchanges([2.75, 0.0], [0, 1], 1) == [2.75, 0.0];
  }

  lemma SpanOfPair(s: Vec)
    requires |s| == 2
    ensures Span(Cols(), s, 4) == [s[0] - s[1], s[0] - s[1], s[0] + s[1], s[1]]
  {
    var cols := Cols();
    assert Combine(s, cols, 1, 4) == Add(Zeros(4), Scale(s[0], cols[0])) == [s[0], s[0], s[0], 0.0];
    assert Scale(s[1], cols[1]) == [-s[1], -s[1], s[1], s[1]];
  }

  lemma ObjectiveOfPair(s: Vec)
    requires |s| == 2
    ensures Objective(Block(), Cols(), RIDGE, s)
         == 2.0 * Sq(0.75 - s[0] + s[1]) + Sq(1.25 - s[0] - s[1]) + Sq(0.25 - s[1]) + RIDGE * (Sq(s[0]) + Sq(s[1]))
  {
    hide Dot, Span;
    SpanOfPair(s);
    var e := Sub(Block(), Span(Cols(), s, 4));
    assert |e| == 4 && e[0] == 0.75 - s[0] + s[1] && e[1] == 0.75 - s[0] + s[1];
    assert e[2] == 1.25 - s[0] - s[1] && e[3] == 0.25 - s[1];
    DotFour(e, e);
    DotTwo(s);
  }

  lemma DotTwo(s: Vec)
    requires |s| == 2
    ensures Dot(s, s) == Sq(s[0]) + Sq(s[1])
  {
    assert DotRange(s, s, 0, 0) == 0.0;
    assert DotRange(s, s, 0, 1) == s[0] * s[0];
  }

  /** Whatever the first scale, without the second one the error is at least 11/48. */
  lemma LossWithoutSecond(s: real)
    ensures 2.0 * Sq(0.75 - s) + Sq(1.25 - s) + Sq(0.25) >= 11.0 / 48.0
  {
    var d := s - 11.0 / 12.0;
    assert 2.0 * Sq(0.75 - s) + Sq(1.25 - s) == 3.0 * Sq(d) + 1.0 / 6.0;
    SquareSign(d);
  }

  /**
   als_decompose on this matrix with two terms: however often it refines, the terms it ends with are exact at their
   own scales 1 and 1/4, and the fitted scales are 2.75 / (3 + ridge) and 0.
   */
  lemma FitLosesExactTerms(maxIter: nat, run: Run)
    requires IsRun(Weights(), 1, 4, 2, maxIter, 128, run)
    ensures run.refined == ExactTerms() && run.scales == [[2.75 / (3.0 + RIDGE)], [0.0]]
  {
    hide Weights, ExactTerms, GreedyRun, RefineRun, BlockFit, PositionsOfBlock, Columns, Gather, TotalError;
    GreedyIsExact(run.greedy, run.residuals);
    RefinementKeeps(run.refined, run.sweeps);
    OneBlock();
    BlockOfWeights();
    var s := ScalesOfBlock(run.scales, 0, 1);
    assert BlockFit(Columns(run.refined, Positions(), 4), Gather(Weights(), Positions()), s, run.blocks[0]);
    SecondScaleIsLost(s, run.blocks[0]);
    assert run.scales[0] == [s[0]] && run.scales[1] == [s[1]];
  }

  /** The loss: an objective of at least 11/48 where the exact terms have less than 10^-9. */
  lemma FittedIsWorse()
    ensures Shaped(ExactTerms(), 4) && Remaining(Weights(), ExactTerms(), 2) == Zeros(4)
    ensures Objective(Block(), Cols(), RIDGE, [1.0, 0.25]) < 0.000000001
    ensures Objective(Block(), Cols(), RIDGE, [2.75 / (3.0 + RIDGE), 0.0]) >= 11.0 / 48.0
  {
    hide Objective, Weights, ExactTerms;
    ExactRemains();
    OwnObjective();
    FittedObjective([2.75 / (3.0 + RIDGE), 0.0]);
  }

  lemma ExactRemains()
    ensures Shaped(ExactTerms(), 4) && Remaining(Weights(), ExactTerms(), 2) == Zeros(4)
  {
    var w, ts := Weights(), ExactTerms();
    assert Remaining(w, ts, 0) == w;
    SpreadSubtract(FOUR, Triple(0.75, 1.25, 0.25), 1.0, Triple(1, 1, 0));
    SpreadSubtract(FOUR, Triple(-0.25, 0.25, 0.25), 0.25, Triple(-1, 1, 1));
    assert Remaining(w, ts, 1) == Spread(FOUR, Triple(-0.25, 0.25, 0.25));
    assert Spread(FOUR, Triple(0.0, 0.0, 0.0)) == Zeros(4);
  }

  lemma FittedObjective(s: Vec)
    requires |s| == 2 && s[1] == 0.0
    ensures Objective(Block(), Cols(), RIDGE, s) >= 11.0 / 48.0
  {
    ObjectiveOfPair(s);
    LossWithoutSecond(s[0]);
    SquareSign(s[0]);
    SquareSign(s[1]);
    hide Sq, Objective;
  }

  lemma OwnObjective()
    ensures Objective(Block(), Cols(), RIDGE, [1.0, 0.25]) < 0.000000001
  {
    ObjectiveOfPair([1.0, 0.25]);
    hide Objective;
  }
}
