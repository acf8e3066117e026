/** The fit of a block in terms of the rows and columns of the matrix: which weights it covers and what it minimises. */
module BlockCells {
  import Bytes
  import opened Vectors
  import opened LeastSquares
  import opened Decompose
  import opened BlockScales

  // ----- which weights belong to a block

  lemma RowPositionsExactly(inF: nat, start: nat, end: nat, r: nat, p: nat)
    requires start <= end
    ensures p in RowPositions(inF, start, end, r) <==> r * inF + start <= p < r * inF + end
  {
    var row := RowPositions(inF, start, end, r);
    if r * inF + start <= p < r * inF + end {
      assert row[p - (r * inF + start)] == p;
    }
  }

  /** A position in front of a row boundary has a smaller row number. */
  lemma RowOf(inF: nat, r: nat, p: nat)
    requires inF > 0
    ensures p / inF < r <==> p < r * inF
    ensures p / inF == r ==> p == r * inF + p % inF
  {
    var q := p / inF;
    assert p == q * inF + p % inF;
    Bytes.MulMonotone(q + 1, r, inF);
    Bytes.MulMonotone(r, q, inF);
    assert (q + 1) * inF == q * inF + inF;
  }

  lemma {:induction false} BlockPositionsExactly(inF: nat, start: nat, end: nat, rows: nat, p: nat)
    requires start <= end <= inF && inF > 0
    ensures p in BlockPositions(inF, start, end, rows) <==> p / inF < rows && start <= p % inF < end
  {
    hide RowPositions;
    if rows > 0 {
      BlockPositionsExactly(inF, start, end, rows - 1, p);
      InRow(inF, start, end, rows - 1, p);
    }
  }

  lemma InRow(inF: nat, start: nat, end: nat, r: nat, p: nat)
    requires start <= end <= inF && inF > 0
    ensures p in RowPositions(inF, start, end, r) <==> p / inF == r && start <= p % inF < end
  {
    hide RowPositions;
    RowPositionsExactly(inF, start, end, r, p);
    RowOf(inF, r, p);
    RowOf(inF, r + 1, p);
    assert (r + 1) * inF == r * inF + inF;
  }

  predicate Increasing(ps: seq<nat>) {
    forall i, j :: 0 <= i < j < |ps| ==> ps[i] < ps[j]
  }

  lemma {:induction false} BlockPositionsIncrease(inF: nat, start: nat, end: nat, rows: nat)
    requires start <= end <= inF
    ensures Increasing(BlockPositions(inF, start, end, rows))
    ensures forall q :: 0 <= q < |BlockPositions(inF, start, end, rows)| ==> BlockPositions(inF, start, end, rows)[q] < rows * inF
  {
    if rows > 0 {
      BlockPositionsIncrease(inF, start, end, rows - 1);
      Bytes.NextRow(rows, inF, rows - 1);
    }
  }

  /** The positions of block b are exactly those of its columns, in every row, each once and in order. */
  lemma PositionsExactly(outF: nat, inF: nat, qk: nat, b: nat)
    requires qk > 0 && b < Bytes.CeilDiv(inF, qk)
    ensures inF > 0 && Increasing(PositionsOfBlock(outF, inF, qk, b))
    ensures forall p: nat :: p in PositionsOfBlock(outF, inF, qk, b) <==> p < outF * inF && p % inF / qk == b
  {
    hide BlockPositions;
    BlockStarts(inF, qk, b);
    BlockPositionsIncrease(inF, b * qk, BlockEnd(inF, qk, b), outF);
    forall p: nat ensures p in PositionsOfBlock(outF, inF, qk, b) <==> p < outF * inF && p % inF / qk == b {
      BlockPositionsExactly(inF, b * qk, BlockEnd(inF, qk, b), outF, p);
      RowOf(inF, outF, p);
      ColumnBlock(inF, qk, b, p % inF);
    }
  }

  lemma ColumnBlock(inF: nat, qk: nat, b: nat, c: nat)
    requires qk > 0 && c < inF
    ensures c / qk == b <==> b * qk <= c < BlockEnd(inF, qk, b)
  {
    RowOf(qk, b, c);
    RowOf(qk, b + 1, c);
    assert (b + 1) * qk == b * qk + qk;
  }

  // ----- sums over the cells of a block

  /** The sum of u * v over columns lo to hi - 1 of the row that starts at `at`. */
  function RowSum(u: Vec, v: Vec, at: nat, lo: nat, hi: nat): real
    requires |u| == |v| && at + hi <= |u|
  {
    if hi <= lo then 0.0 else RowSum(u, v, at, lo, hi - 1) + u[at + hi - 1] * v[at + hi - 1]
  }

  /** The sum of u * v over columns lo to hi - 1 of the first rows of a matrix. */
  function CellSum(u: Vec, v: Vec, outF: nat, inF: nat, lo: nat, hi: nat, rows: nat): real
    requires |u| == |v| == outF * inF && rows <= outF && hi <= inF
  {
    if rows == 0 then 0.0
    else
      Bytes.NextRow(outF, inF, rows - 1);
      CellSum(u, v, outF, inF, lo, hi, rows - 1) + RowSum(u, v, (rows - 1) * inF, lo, hi)
  }

  lemma {:induction false} RowDot(u: Vec, v: Vec, before: seq<nat>, inF: nat, r: nat, at: nat, lo: nat, hi: nat)
    requires |u| == |v| && InRange(before, |u|) && lo <= hi && at == r * inF && at + hi <= |u|
    ensures InRange(before + RowPositions(inF, lo, hi, r), |u|)
    ensures Dot(Gather(u, before + RowPositions(inF, lo, hi, r)), Gather(v, before + RowPositions(inF, lo, hi, r)))
         == Dot(Gather(u, before), Gather(v, before)) + RowSum(u, v, at, lo, hi)
  {
    hide Dot, Gather;
    var ps := before + RowPositions(inF, lo, hi, r);
    if hi == lo {
      assert ps == before;
    } else {
      RowDot(u, v, before, inF, r, at, lo, hi - 1);
      var front, p := before + RowPositions(inF, lo, hi - 1, r), at + hi - 1;
      assert ps == front + [p];
      PairAppend(u, v, front, p);
    }
  }

  lemma PairAppend(u: Vec, v: Vec, ps: seq<nat>, p: nat)
    requires |u| == |v| && InRange(ps, |u|) && p < |u|
    ensures Dot(Gather(u, ps + [p]), Gather(v, ps + [p])) == Dot(Gather(u, ps), Gather(v, ps)) + u[p] * v[p]
  {
    hide Dot;
    GatherAppend(u, ps, p);
    GatherAppend(v, ps, p);
    DotAppend(Gather(u, ps), Gather(v, ps), u[p], v[p]);
  }

  lemma {:induction false} BlockDot(u: Vec, v: Vec, outF: nat, inF: nat, lo: nat, hi: nat, rows: nat)
    requires |u| == |v| == outF * inF && rows <= outF && lo <= hi <= inF
    ensures InRange(BlockPositions(inF, lo, hi, rows), |u|)
    ensures Dot(Gather(u, BlockPositions(inF, lo, hi, rows)), Gather(v, BlockPositions(inF, lo, hi, rows)))
         == CellSum(u, v, outF, inF, lo, hi, rows)
  {
    hide Gather, RowPositions, RowSum;
    BlockInRange(outF, inF, lo, hi, rows);
    if rows == 0 {
      NothingGathered(u);
      NothingGathered(v);
    } else {
      hide Dot;
      BlockDot(u, v, outF, inF, lo, hi, rows - 1);
      Bytes.NextRow(outF, inF, rows - 1);
      RowDot(u, v, BlockPositions(inF, lo, hi, rows - 1), inF, rows - 1, (rows - 1) * inF, lo, hi);
    }
  }

  lemma NothingGathered(u: Vec)
    ensures Gather(u, []) == []
  {
  }

  // ----- the objective of a block

  /** The digits of a term as numbers. */
  function Values(t: seq<int>): (v: Vec)
    ensures |v| == |t|
  {
    seq(|t|, p requires 0 <= p < |t| => t[p] as real)
  }

  /** What the first m terms make of weight p at these scales. */
  function Mixed(terms: seq<RawTerm>, s: Vec, n: nat, p: nat, m: nat): real
    requires Shaped(terms, n) && |s| == |terms| && p < n && m <= |terms|
  {
    if m == 0 then 0.0 else Mixed(terms, s, n, p, m - 1) + s[m - 1] * terms[m - 1].t[p] as real
  }

  /** What the terms leave of every weight at these scales. */
  function Left(w: Vec, terms: seq<RawTerm>, s: Vec): (r: Vec)
    requires Shaped(terms, |w|) && |s| == |terms|
    ensures |r| == |w|
  {
    seq(|w|, p requires 0 <= p < |w| => w[p] - Mixed(terms, s, |w|, p, |terms|))
  }

  /** The largest sum of squared digits that one of the first m terms has in these columns. */
  function LargestEnergy(terms: seq<RawTerm>, outF: nat, inF: nat, lo: nat, hi: nat, m: nat): real
    requires Shaped(terms, outF * inF) && hi <= inF && m <= |terms|
  {
    if m == 0 then 0.0
    else MaxReal(LargestEnergy(terms, outF, inF, lo, hi, m - 1),
                 CellSum(Values(terms[m - 1].t), Values(terms[m - 1].t), outF, inF, lo, hi, outF))
  }

  /** The squared error that these scales leave in columns lo to hi - 1 of all rows, and their ridge penalty. */
  function CellObjective(w: Vec, terms: seq<RawTerm>, outF: nat, inF: nat, lo: nat, hi: nat, s: Vec): real
    requires |w| == outF * inF && Shaped(terms, |w|) && |s| == |terms| && hi <= inF
  {
    CellSum(Left(w, terms, s), Left(w, terms, s), outF, inF, lo, hi, outF)
      + RIDGE_SCALE * LargestEnergy(terms, outF, inF, lo, hi, |terms|) * Dot(s, s)
  }

  lemma ColumnIsGathered(t: seq<int>, ps: seq<nat>)
    requires InRange(ps, |t|)
    ensures Column(t, ps) == Gather(Values(t), ps)
  {
  }

  lemma {:induction false} CombinedAt(terms: seq<RawTerm>, s: Vec, ps: seq<nat>, n: nat, m: nat, q: nat)
    requires Shaped(terms, n) && InRange(ps, n) && |s| == |terms| && m <= |terms| && q < |ps|
    ensures Combine(s, Columns(terms, ps, n), m, |ps|)[q] == Mixed(terms, s, n, ps[q], m)
  {
    if m > 0 {
      CombinedAt(terms, s, ps, n, m - 1, q);
    }
  }

  /** The error vector of a block is the gathered rest of its weights. */
  lemma ErrorIsGathered(w: Vec, terms: seq<RawTerm>, s: Vec, ps: seq<nat>)
    requires Shaped(terms, |w|) && InRange(ps, |w|) && |s| == |terms|
    ensures Sub(Gather(w, ps), Span(Columns(terms, ps, |w|), s, |ps|)) == Gather(Left(w, terms, s), ps)
  {
    hide Combine, Columns, Mixed;
    var cols := Columns(terms, ps, |w|);
    forall q | 0 <= q < |ps| ensures Sub(Gather(w, ps), Span(cols, s, |ps|))[q] == Gather(Left(w, terms, s), ps)[q] {
      CombinedAt(terms, s, ps, |w|, |terms|, q);
    }
  }

  lemma {:induction false} DiagonalIsEnergy(terms: seq<RawTerm>, outF: nat, inF: nat, lo: nat, hi: nat, m: nat)
    requires Shaped(terms, outF * inF) && lo <= hi <= inF && m <= |terms|
    ensures InRange(BlockPositions(inF, lo, hi, outF), outF * inF)
    ensures var ps := BlockPositions(inF, lo, hi, outF);
      DiagonalMax(Gram(Columns(terms, ps, outF * inF), |ps|), |terms|, m) == LargestEnergy(terms, outF, inF, lo, hi, m)
  {
    hide BlockPositions, Columns, Gram, CellSum, InRange, Values;
    BlockInRange(outF, inF, lo, hi, outF);
    if m > 0 {
      DiagonalIsEnergy(terms, outF, inF, lo, hi, m - 1);
      DiagonalCell(terms, outF, inF, lo, hi, m - 1);
    }
  }

  lemma DiagonalCell(terms: seq<RawTerm>, outF: nat, inF: nat, lo: nat, hi: nat, i: nat)
    requires Shaped(terms, outF * inF) && lo <= hi <= inF && i < |terms|
    ensures InRange(BlockPositions(inF, lo, hi, outF), outF * inF)
    ensures var ps := BlockPositions(inF, lo, hi, outF);
      Gram(Columns(terms, ps, outF * inF), |ps|)[i][i]
      == CellSum(Values(terms[i].t), Values(terms[i].t), outF, inF, lo, hi, outF)
  {
    hide BlockPositions, Dot, Gather, Column, CellSum;
    BlockInRange(outF, inF, lo, hi, outF);
    var ps := BlockPositions(inF, lo, hi, outF);
    ColumnIsGathered(terms[i].t, ps);
    BlockDot(Values(terms[i].t), Values(terms[i].t), outF, inF, lo, hi, outF);
  }

  /** The least-squares objective of a block, cell by cell. */
  lemma ObjectiveOfCells(w: Vec, terms: seq<RawTerm>, outF: nat, inF: nat, lo: nat, hi: nat, s: Vec)
    requires |w| == outF * inF && Shaped(terms, |w|) && |s| == |terms| && lo <= hi <= inF
    ensures InRange(BlockPositions(inF, lo, hi, outF), |w|)
    ensures var ps := BlockPositions(inF, lo, hi, outF);
      var cols := Columns(terms, ps, |w|);
      Objective(Gather(w, ps), cols, Ridge(cols, |ps|), s) == CellObjective(w, terms, outF, inF, lo, hi, s)
  {
    hide BlockPositions, Dot, Gather, CellSum, LargestEnergy, DiagonalMax, Gram, Sub, Span, Columns, Left;
    BlockInRange(outF, inF, lo, hi, outF);
    var ps := BlockPositions(inF, lo, hi, outF);
    ColumnsShape(terms, ps, w);
    ErrorIsGathered(w, terms, s, ps);
    BlockDot(Left(w, terms, s), Left(w, terms, s), outF, inF, lo, hi, outF);
    DiagonalIsEnergy(terms, outF, inF, lo, hi, |terms|);
  }

  // ----- what the fitted scales minimise

  /** No scales do better in block b. */
  ghost predicate BestInBlock(w: Vec, terms: seq<RawTerm>, outF: nat, inF: nat, qk: nat, b: nat, s: Vec)
    requires |w| == outF * inF && Shaped(terms, |w|) && |s| == |terms|
  {
    var lo, hi := b * qk, Bytes.Least((b + 1) * qk, inF);
    forall t: Vec :: |t| == |terms| ==>
      CellObjective(w, terms, outF, inF, lo, hi, s) <= CellObjective(w, terms, outF, inF, lo, hi, t)
  }

  lemma BlockEndIs(inF: nat, qk: nat, b: nat)
    ensures BlockEnd(inF, qk, b) == Bytes.Least((b + 1) * qk, inF)
  {
    assert (b + 1) * qk == b * qk + qk;
  }

  /** Minimising over the gathered positions is minimising over the cells. */
  lemma MinimisesCells(w: Vec, terms: seq<RawTerm>, outF: nat, inF: nat, qk: nat, b: nat, s: Vec)
    requires qk > 0 && b < Bytes.CeilDiv(inF, qk) && |w| == outF * inF && Shaped(terms, |w|) && |s| == |terms|
    ensures var ps := PositionsOfBlock(outF, inF, qk, b);
      var cols := Columns(terms, ps, |w|);
      Minimises(Gather(w, ps), cols, Ridge(cols, |ps|), s) <==> BestInBlock(w, terms, outF, inF, qk, b, s)
  {
    hide BlockPositions, Gather, Columns, Ridge, Objective, CellObjective;
    BlockStarts(inF, qk, b);
    BlockEndIs(inF, qk, b);
    var lo, hi := b * qk, BlockEnd(inF, qk, b);
    var ps := PositionsOfBlock(outF, inF, qk, b);
    var cols := Columns(terms, ps, |w|);
    ColumnsShape(terms, ps, w);
    forall t: Vec | |t| == |terms|
      ensures Objective(Gather(w, ps), cols, Ridge(cols, |ps|), t) == CellObjective(w, terms, outF, inF, lo, hi, t)
    {
      ObjectiveOfCells(w, terms, outF, inF, lo, hi, t);
    }
  }

  /** No term has a digit in block b. */
  predicate NoDigits(terms: seq<RawTerm>, inF: nat, qk: nat, b: nat)
    requires inF > 0 && qk > 0
  {
    forall i, p :: 0 <= i < |terms| && 0 <= p < |terms[i].t| && p % inF / qk == b ==> terms[i].t[p] == 0
  }

  lemma NoDigitsIsAllZero(terms: seq<RawTerm>, outF: nat, inF: nat, qk: nat, b: nat)
    requires qk > 0 && b < Bytes.CeilDiv(inF, qk) && Shaped(terms, outF * inF)
    ensures inF > 0
    ensures AllZero(Columns(terms, PositionsOfBlock(outF, inF, qk, b), outF * inF)) <==> NoDigits(terms, inF, qk, b)
  {
    hide PositionsOfBlock;
    PositionsExactly(outF, inF, qk, b);
    var ps := PositionsOfBlock(outF, inF, qk, b);
    var cols := Columns(terms, ps, outF * inF);
    if AllZero(cols) {
      forall i, p | 0 <= i < |terms| && 0 <= p < |terms[i].t| && p % inF / qk == b ensures terms[i].t[p] == 0 {
        assert p in ps;
        var q :| 0 <= q < |ps| && ps[q] == p;
        assert cols[i][q] == 0.0;
      }
    } else {
      var i :| 0 <= i < |cols| && cols[i] != Zeros(|cols[i]|);
      var q :| 0 <= q < |ps| && cols[i][q] != 0.0;
      assert ps[q] in ps;
    }
  }

  /**
   What fit_block_scales computes for a block minimises the squared error over its columns of all rows, plus the ridge
   penalty, exactly when the block holds no digit or the products that the guards skipped cancel.
   */
  lemma FittedBlockIsBest(w: Vec, terms: seq<RawTerm>, outF: nat, inF: nat, qk: nat, b: nat, s: Vec, run: Sweep)
    requires qk > 0 && b < Bytes.CeilDiv(inF, qk) && |w| == outF * inF && Shaped(terms, |w|)
    requires var ps := PositionsOfBlock(outF, inF, qk, b); BlockFit(Columns(terms, ps, |w|), Gather(w, ps), s, run)
    ensures inF > 0 && |s| == |terms|
    ensures var ps := PositionsOfBlock(outF, inF, qk, b);
      var cols := Columns(terms, ps, |w|);
      && (AllZero(cols) <==> NoDigits(terms, inF, qk, b))
      && (BestInBlock(w, terms, outF, inF, qk, b, s) <==> AllZero(cols) || SkipsCancelIn(cols, Gather(w, ps), s, run))
  {
    hide PositionsOfBlock, Columns, Gather, BlockFit, SkipsCancelIn, Minimises, BestInBlock, NoDigits, AllZero;
    var ps := PositionsOfBlock(outF, inF, qk, b);
    ColumnsShape(terms, ps, w);
    BlockFitShape(Columns(terms, ps, |w|), Gather(w, ps), s, run);
    BlockFitMinimises(Columns(terms, ps, |w|), Gather(w, ps), s, run);
    MinimisesCells(w, terms, outF, inF, qk, b, s);
    NoDigitsIsAllZero(terms, outF, inF, qk, b);
  }
}
