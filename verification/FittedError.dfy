/** The error of the whole matrix after the scales of all blocks were fitted. */
module FittedError {
  import Bytes
  import opened Vectors
  import opened LeastSquares
  import opened Decompose
  import opened TermSearch
  import opened BlockScales
  import opened BlockCells
  import opened Refinement
  import opened AlsPipeline

  // ----- the cells of all blocks are the cells of the matrix

  lemma {:induction false} RowCongruent(u: Vec, v: Vec, at: nat, lo: nat, hi: nat)
    requires |u| == |v| && at + hi <= |u| && forall p :: at + lo <= p < at + hi ==> u[p] == v[p]
    ensures RowSum(u, u, at, lo, hi) == RowSum(v, v, at, lo, hi)
  {
    if lo < hi {
      RowCongruent(u, v, at, lo, hi - 1);
      assert u[at + hi - 1] == v[at + hi - 1];
    }
  }

  /** The same in columns lo to hi - 1 of every row. */
  predicate SameColumns(u: Vec, v: Vec, inF: nat, lo: nat, hi: nat) {
    |u| == |v| && inF > 0 && forall p :: 0 <= p < |u| && lo <= p % inF < hi ==> u[p] == v[p]
  }

  lemma {:induction false} CellCongruent(u: Vec, v: Vec, outF: nat, inF: nat, lo: nat, hi: nat, rows: nat)
    requires |u| == |v| == outF * inF && rows <= outF && hi <= inF && SameColumns(u, v, inF, lo, hi)
    ensures CellSum(u, u, outF, inF, lo, hi, rows) == CellSum(v, v, outF, inF, lo, hi, rows)
  {
    hide RowSum, SameColumns;
    if rows > 0 {
      CellCongruent(u, v, outF, inF, lo, hi, rows - 1);
      Bytes.NextRow(outF, inF, rows - 1);
      SameRow(u, v, inF, lo, hi, rows - 1, (rows - 1) * inF);
      RowCongruent(u, v, (rows - 1) * inF, lo, hi);
    }
  }

  lemma SameRow(u: Vec, v: Vec, inF: nat, lo: nat, hi: nat, r: nat, at: nat)
    requires SameColumns(u, v, inF, lo, hi) && hi <= inF && at == r * inF && at + inF <= |u|
    ensures forall p :: at + lo <= p < at + hi ==> u[p] == v[p]
  {
    forall p | at + lo <= p < at + hi ensures u[p] == v[p] {
      ColumnOf(inF, r, p);
    }
  }

  lemma ColumnOf(inF: nat, r: nat, p: nat)
    requires inF > 0 && r * inF <= p < r * inF + inF
    ensures p % inF == p - r * inF
  {
    RowOf(inF, r, p);
    RowOf(inF, r + 1, p);
    assert (r + 1) * inF == r * inF + inF;
  }

  lemma {:induction false} RowSplit(u: Vec, at: nat, lo: nat, mid: nat, hi: nat)
    requires lo <= mid <= hi && at + hi <= |u|
    ensures RowSum(u, u, at, lo, hi) == RowSum(u, u, at, lo, mid) + RowSum(u, u, at, mid, hi)
  {
    if mid < hi {
      RowSplit(u, at, lo, mid, hi - 1);
    }
  }

  lemma {:induction false} CellSplit(u: Vec, outF: nat, inF: nat, lo: nat, mid: nat, hi: nat, rows: nat)
    requires |u| == outF * inF && rows <= outF && lo <= mid <= hi <= inF
    ensures CellSum(u, u, outF, inF, lo, hi, rows)
         == CellSum(u, u, outF, inF, lo, mid, rows) + CellSum(u, u, outF, inF, mid, hi, rows)
  {
    hide RowSum;
    if rows > 0 {
      CellSplit(u, outF, inF, lo, mid, hi, rows - 1);
      Bytes.NextRow(outF, inF, rows - 1);
      RowSplit(u, (rows - 1) * inF, lo, mid, hi);
    }
  }

  lemma {:induction false} RowIsRange(u: Vec, at: nat, hi: nat)
    requires at + hi <= |u|
    ensures RowSum(u, u, at, 0, hi) == DotRange(u, u, at, at + hi)
  {
    if hi > 0 {
      RowIsRange(u, at, hi - 1);
    }
  }

  lemma {:induction false} CellsAreRange(u: Vec, outF: nat, inF: nat, rows: nat)
    requires |u| == outF * inF && rows <= outF
    ensures rows * inF <= |u| && CellSum(u, u, outF, inF, 0, inF, rows) == DotRange(u, u, 0, rows * inF)
  {
    hide RowSum;
    Bytes.MulMonotone(rows, outF, inF);
    if rows > 0 {
      CellsAreRange(u, outF, inF, rows - 1);
      Bytes.NextRow(outF, inF, rows - 1);
      RowIsRange(u, (rows - 1) * inF, inF);
      DotRangeSplit(u, u, 0, (rows - 1) * inF, rows * inF);
    }
  }

  // ----- sums over blocks

  function EndOf(inF: nat, qk: nat, b: nat): (hi: nat)
    ensures hi <= inF
  {
    Bytes.Least((b + 1) * qk, inF)
  }

  /** What the scales of all blocks leave of every weight; block b uses scales[b]. */
  function LeftByBlock(w: Vec, terms: seq<RawTerm>, scales: seq<Vec>, inF: nat, qk: nat): (r: Vec)
    requires Shaped(terms, |w|) && Wide(scales, |terms|) && qk > 0 && |scales| == Bytes.CeilDiv(inF, qk) && (inF == 0 ==> w == [])
    ensures |r| == |w|
  {
    seq(|w|, p requires 0 <= p < |w| =>
      BlockOfColumn(inF, qk, p % inF); w[p] - Mixed(terms, scales[p % inF / qk], |w|, p, |terms|))
  }

  lemma BlockOfColumn(inF: nat, qk: nat, c: nat)
    requires qk > 0 && c < inF
    ensures c / qk < Bytes.CeilDiv(inF, qk)
  {
    var b := c / qk;
    RowOf(qk, b, c);
    RowOf(qk, Bytes.CeilDiv(inF, qk), inF + qk - 1);
    if b >= Bytes.CeilDiv(inF, qk) {
      Bytes.MulMonotone(Bytes.CeilDiv(inF, qk) + 1, b + 1, qk);
      assert (Bytes.CeilDiv(inF, qk) + 1) * qk == Bytes.CeilDiv(inF, qk) * qk + qk;
    }
  }

  /** The ridge penalties of the first m blocks. */
  function Penalties(terms: seq<RawTerm>, scales: seq<Vec>, outF: nat, inF: nat, qk: nat, m: nat): real
    requires Shaped(terms, outF * inF) && Wide(scales, |terms|) && m <= |scales|
  {
    if m == 0 then 0.0
    else
      Penalties(terms, scales, outF, inF, qk, m - 1)
      + RIDGE_SCALE * LargestEnergy(terms, outF, inF, (m - 1) * qk, EndOf(inF, qk, m - 1), |terms|) * Dot(scales[m - 1], scales[m - 1])
  }

  /** The objectives of the first m blocks. */
  function Objectives(w: Vec, terms: seq<RawTerm>, scales: seq<Vec>, outF: nat, inF: nat, qk: nat, m: nat): real
    requires |w| == outF * inF && Shaped(terms, |w|) && Wide(scales, |terms|) && m <= |scales|
  {
    if m == 0 then 0.0
    else
      Objectives(w, terms, scales, outF, inF, qk, m - 1)
      + CellObjective(w, terms, outF, inF, (m - 1) * qk, EndOf(inF, qk, m - 1), scales[m - 1])
  }

  function Reached(inF: nat, qk: nat, m: nat): (c: nat)
    ensures c <= inF
  {
    Bytes.Least(m * qk, inF)
  }

  /** The objectives of the blocks are the squared error of their columns and their penalties. */
  lemma {:induction false} ObjectivesAreError(w: Vec, terms: seq<RawTerm>, scales: seq<Vec>, outF: nat, inF: nat, qk: nat, m: nat)
    requires |w| == outF * inF && Shaped(terms, |w|) && Wide(scales, |terms|)
    requires qk > 0 && m <= |scales| == Bytes.CeilDiv(inF, qk) && (inF == 0 ==> w == [])
    ensures var left := LeftByBlock(w, terms, scales, inF, qk);
      Objectives(w, terms, scales, outF, inF, qk, m)
      == CellSum(left, left, outF, inF, 0, Reached(inF, qk, m), outF) + Penalties(terms, scales, outF, inF, qk, m)
  {
    hide LeftByBlock, LargestEnergy, CellSum, Dot;
    var left := LeftByBlock(w, terms, scales, inF, qk);
    if m == 0 {
      NoCells(left, outF, inF, outF);
    } else {
      var b := m - 1;
      ObjectivesAreError(w, terms, scales, outF, inF, qk, b);
      BlockLeft(w, terms, scales, outF, inF, qk, b);
      BlockReached(inF, qk, b);
      CellSplit(left, outF, inF, 0, b * qk, EndOf(inF, qk, b), outF);
    }
  }

  lemma {:induction false} NoCells(u: Vec, outF: nat, inF: nat, rows: nat)
    requires |u| == outF * inF && rows <= outF
    ensures CellSum(u, u, outF, inF, 0, 0, rows) == 0.0
  {
    if rows > 0 {
      NoCells(u, outF, inF, rows - 1);
    }
  }

  lemma BlockReached(inF: nat, qk: nat, b: nat)
    requires qk > 0 && b < Bytes.CeilDiv(inF, qk)
    ensures Reached(inF, qk, b) == b * qk <= EndOf(inF, qk, b) == Reached(inF, qk, b + 1)
  {
    BlockStarts(inF, qk, b);
    BlockEndIs(inF, qk, b);
  }

  /** In its own columns the error is the one that a block's scales leave. */
  lemma BlockLeft(w: Vec, terms: seq<RawTerm>, scales: seq<Vec>, outF: nat, inF: nat, qk: nat, b: nat)
    requires |w| == outF * inF && Shaped(terms, |w|) && Wide(scales, |terms|)
    requires qk > 0 && b < |scales| == Bytes.CeilDiv(inF, qk) && (inF == 0 ==> w == [])
    ensures var left, own := LeftByBlock(w, terms, scales, inF, qk), Left(w, terms, scales[b]);
      CellSum(left, left, outF, inF, b * qk, EndOf(inF, qk, b), outF) == CellSum(own, own, outF, inF, b * qk, EndOf(inF, qk, b), outF)
  {
    hide Mixed, CellSum;
    BlockStarts(inF, qk, b);
    BlockEndIs(inF, qk, b);
    var left, own := LeftByBlock(w, terms, scales, inF, qk), Left(w, terms, scales[b]);
    forall p | 0 <= p < |w| && b * qk <= p % inF < EndOf(inF, qk, b) ensures left[p] == own[p] {
      ColumnBlock(inF, qk, b, p % inF);
    }
    CellCongruent(left, own, outF, inF, b * qk, EndOf(inF, qk, b), outF);
  }

  /** Over all blocks: the squared error of the whole matrix and all penalties. */
  lemma AllObjectives(w: Vec, terms: seq<RawTerm>, scales: seq<Vec>, outF: nat, inF: nat, qk: nat)
    requires |w| == outF * inF && Shaped(terms, |w|) && Wide(scales, |terms|)
    requires qk > 0 && |scales| == Bytes.CeilDiv(inF, qk) && (inF == 0 ==> w == [])
    ensures Objectives(w, terms, scales, outF, inF, qk, |scales|)
         == SumSq(LeftByBlock(w, terms, scales, inF, qk)) + Penalties(terms, scales, outF, inF, qk, |scales|)
  {
    hide LeftByBlock, LargestEnergy, CellSum, Objectives, Penalties;
    ObjectivesAreError(w, terms, scales, outF, inF, qk, |scales|);
    AllReached(inF, qk);
    CellsAreRange(LeftByBlock(w, terms, scales, inF, qk), outF, inF, outF);
  }

  lemma AllReached(inF: nat, qk: nat)
    requires qk > 0
    ensures Reached(inF, qk, Bytes.CeilDiv(inF, qk)) == inF
  {
    RowOf(qk, Bytes.CeilDiv(inF, qk), inF + qk - 1);
    assert (inF + qk - 1) % qk < qk;
  }

  // ----- the fitted matrix against the refined one

  /** The scales of all blocks, block by block. */
  function ByBlock(scales: seq<Vec>, n: nat): (s: seq<Vec>)
    requires Wide(scales, n)
    ensures |s| == n && Wide(s, |scales|)
  {
    seq(n, b requires 0 <= b < n => ScalesOfBlock(scales, b, n))
  }

  /** The products that the guards skipped cancel in every block that holds a digit. */
  ghost predicate SkipsCancelEverywhere(w: Vec, outF: nat, inF: nat, qk: nat, run: Run)
    requires qk > 0 && |w| == outF * inF && Shaped(run.refined, |w|) && IsFit(w, outF, inF, qk, run)
  {
    forall b :: 0 <= b < Bytes.CeilDiv(inF, qk) ==>
      var ps := PositionsOfBlock(outF, inF, qk, b);
      var cols, s := Columns(run.refined, ps, |w|), ScalesOfBlock(run.scales, b, Bytes.CeilDiv(inF, qk));
      AllZero(cols) || SkipsCancelIn(cols, Gather(w, ps), s, run.blocks[b])
  }

  lemma {:induction false} FitLowersObjectives(w: Vec, outF: nat, inF: nat, qk: nat, run: Run, own: seq<Vec>, m: nat)
    requires qk > 0 && |w| == outF * inF && Shaped(run.refined, |w|) && IsFit(w, outF, inF, qk, run)
    requires SkipsCancelEverywhere(w, outF, inF, qk, run) && m <= Bytes.CeilDiv(inF, qk) == |own| && Wide(own, |run.refined|)
    ensures Objectives(w, run.refined, ByBlock(run.scales, Bytes.CeilDiv(inF, qk)), outF, inF, qk, m)
         <= Objectives(w, run.refined, own, outF, inF, qk, m)
  {
    hide BlockFit, SkipsCancelIn, AllZero, Columns, Gather, PositionsOfBlock, CellObjective, NoDigits;
    if m > 0 {
      var b := m - 1;
      FitLowersObjectives(w, outF, inF, qk, run, own, b);
      FittedBlockIsBest(w, run.refined, outF, inF, qk, b, ScalesOfBlock(run.scales, b, Bytes.CeilDiv(inF, qk)), run.blocks[b]);
    }
  }

  lemma {:induction false} PenaltiesNonNegative(terms: seq<RawTerm>, scales: seq<Vec>, outF: nat, inF: nat, qk: nat, m: nat)
    requires Shaped(terms, outF * inF) && Wide(scales, |terms|) && m <= |scales|
    ensures Penalties(terms, scales, outF, inF, qk, m) >= 0.0
  {
    hide LargestEnergy;
    if m > 0 {
      PenaltiesNonNegative(terms, scales, outF, inF, qk, m - 1);
      EnergyNonNegative(terms, outF, inF, (m - 1) * qk, EndOf(inF, qk, m - 1), |terms|);
      SquaresAreNonNegative(scales[m - 1], |scales[m - 1]|);
      hide Dot;
      PenaltySign(LargestEnergy(terms, outF, inF, (m - 1) * qk, EndOf(inF, qk, m - 1), |terms|), Dot(scales[m - 1], scales[m - 1]));
    }
  }

  lemma PenaltySign(energy: real, square: real)
    requires energy >= 0.0 && square >= 0.0
    ensures RIDGE_SCALE * energy * square >= 0.0
  {
  }

  lemma {:induction false} EnergyNonNegative(terms: seq<RawTerm>, outF: nat, inF: nat, lo: nat, hi: nat, m: nat)
    requires Shaped(terms, outF * inF) && hi <= inF && m <= |terms|
    ensures LargestEnergy(terms, outF, inF, lo, hi, m) >= 0.0
  {
    hide CellSum;
    if m > 0 {
      EnergyNonNegative(terms, outF, inF, lo, hi, m - 1);
    }
  }

  /** The power-of-two scales of the terms, the same in every block. */
  function OwnByBlock(terms: seq<RawTerm>, n: nat): (s: seq<Vec>)
    ensures |s| == n && Wide(s, |terms|)
  {
    seq(n, _ => OwnScales(terms))
  }

  lemma {:induction false} RemainingAt(w: Vec, terms: seq<RawTerm>, m: nat, p: nat)
    requires Shaped(terms, |w|) && m <= |terms| && p < |w|
    ensures Remaining(w, terms, m)[p] == w[p] - Mixed(terms, OwnScales(terms), |w|, p, m)
  {
    if m > 0 {
      RemainingAt(w, terms, m - 1, p);
    }
  }

  lemma OwnLeavesRemaining(w: Vec, terms: seq<RawTerm>, inF: nat, qk: nat)
    requires Shaped(terms, |w|) && qk > 0 && (inF == 0 ==> w == [])
    ensures LeftByBlock(w, terms, OwnByBlock(terms, Bytes.CeilDiv(inF, qk)), inF, qk) == Remaining(w, terms, |terms|)
  {
    hide Remaining, LeftByBlock;
    var own := OwnByBlock(terms, Bytes.CeilDiv(inF, qk));
    RemainingLength(w, terms, |terms|);
    forall p | 0 <= p < |w| ensures LeftByBlock(w, terms, own, inF, qk)[p] == Remaining(w, terms, |terms|)[p] {
      LeftAt(w, terms, own, inF, qk, OwnScales(terms), p);
      RemainingAt(w, terms, |terms|, p);
    }
  }

  lemma LeftAt(w: Vec, terms: seq<RawTerm>, scales: seq<Vec>, inF: nat, qk: nat, s: Vec, p: nat)
    requires Shaped(terms, |w|) && Wide(scales, |terms|) && qk > 0 && |scales| == Bytes.CeilDiv(inF, qk) && inF > 0 && p < |w|
    requires |s| == |terms| && forall b :: 0 <= b < |scales| ==> scales[b] == s
    ensures LeftByBlock(w, terms, scales, inF, qk)[p] == w[p] - Mixed(terms, s, |w|, p, |terms|)
  {
    hide Mixed, Bytes.CeilDiv, Shaped;
    BlockOfColumn(inF, qk, p % inF);
    var b := p % inF / qk;
    assert scales[b] == s;
  }

  lemma RemainingLength(w: Vec, terms: seq<RawTerm>, m: nat)
    requires Shaped(terms, |w|) && m <= |terms|
    ensures |Remaining(w, terms, m)| == |w|
  {
  }

  /** What als_decompose's result leaves of every weight, and the ridge penalties of the scales that the fit replaced. */
  function FinalLeft(w: Vec, outF: nat, inF: nat, qk: nat, run: Run): (r: Vec)
    requires qk > 0 && |w| == outF * inF && Shaped(run.refined, |w|) && FitShaped(inF, qk, run)
    ensures |r| == |w|
  {
    EmptyMatrix(outF, inF);
    LeftByBlock(w, run.refined, ByBlock(run.scales, Bytes.CeilDiv(inF, qk)), inF, qk)
  }

  function OldPenalties(outF: nat, inF: nat, qk: nat, run: Run): real
    requires qk > 0 && Shaped(run.refined, outF * inF)
  {
    Penalties(run.refined, OwnByBlock(run.refined, Bytes.CeilDiv(inF, qk)), outF, inF, qk, Bytes.CeilDiv(inF, qk))
  }

  predicate FitShaped(inF: nat, qk: nat, run: Run)
    requires qk > 0
  {
    |run.scales| == |run.refined| && Wide(run.scales, Bytes.CeilDiv(inF, qk))
  }

  lemma EmptyMatrix(outF: nat, inF: nat)
    ensures inF == 0 ==> outF * inF == 0
  {
  }

  /**
   Where the skipped products cancel, fitting the scales leaves a squared error over the whole matrix that exceeds the
   one refinement left by at most the ridge penalties of the old scales.
   */
  lemma FittedMatrixError(w: Vec, outF: nat, inF: nat, qk: nat, run: Run)
    requires qk > 0 && |w| == outF * inF && Shaped(run.refined, |w|) && IsFit(w, outF, inF, qk, run)
    requires SkipsCancelEverywhere(w, outF, inF, qk, run)
    ensures FitShaped(inF, qk, run)
    ensures SumSq(FinalLeft(w, outF, inF, qk, run)) <= TotalError(w, run.refined) + OldPenalties(outF, inF, qk, run)
  {
    hide IsFit, SkipsCancelEverywhere, LeftByBlock, Objectives, Penalties, SumSq, ByBlock, OwnByBlock, Bytes.CeilDiv, Remaining;
    var n := Bytes.CeilDiv(inF, qk);
    FitShape(w, outF, inF, qk, run);
    var fitted, own := ByBlock(run.scales, n), OwnByBlock(run.refined, n);
    assert |fitted| == |own| == n && Wide(fitted, |run.refined|) && Wide(own, |run.refined|);
    FitLowersObjectives(w, outF, inF, qk, run, own, n);
    AllObjectives(w, run.refined, fitted, outF, inF, qk);
    AllObjectives(w, run.refined, own, outF, inF, qk);
    PenaltiesNonNegative(run.refined, fitted, outF, inF, qk, n);
    OwnLeavesRemaining(w, run.refined, inF, qk);
  }

  lemma FitShape(w: Vec, outF: nat, inF: nat, qk: nat, run: Run)
    requires qk > 0 && |w| == outF * inF && Shaped(run.refined, |w|) && IsFit(w, outF, inF, qk, run)
    ensures FitShaped(inF, qk, run) && (inF == 0 ==> w == [])
  {
    hide BlockFit, Columns, Gather, PositionsOfBlock;
  }

  /** The error of als_decompose's result: the geometric bound of its terms, and the penalties of the old scales. */
  lemma FinalError(w: Vec, outF: nat, inF: nat, numTerms: nat, maxIter: nat, qk: nat, run: Run)
    requires qk > 0 && |w| == outF * inF > 0 && IsRun(w, outF, inF, numTerms, maxIter, qk, run)
    requires forall s :: 0 <= s < |run.sweeps| ==> RefineSweep(w, run.sweeps[s], numTerms) && RegularSweep(w, run.sweeps[s], numTerms)
    requires SkipsCancelEverywhere(w, outF, inF, qk, run)
    ensures FitShaped(inF, qk, run)
    ensures SumSq(FinalLeft(w, outF, inF, qk, run))
         <= MaxReal(GeometricBound(w, numTerms), ErrorFloor(|w|)) + OldPenalties(outF, inF, qk, run)
  {
    hide IsFit, SkipsCancelEverywhere, RefineSweep, RegularSweep, RefineRun, GreedyRun, FinalLeft, OldPenalties, SumSq,
         GeometricBound, ErrorFloor, FitShaped, TotalError;
    DecompositionError(w, outF, inF, numTerms, maxIter, qk, run);
    FittedMatrixError(w, outF, inF, qk, run);
  }
}
