/** Joint least-squares scales, one small system per block of qk columns (fit_block_scales). */
module BlockScales {
  import Bytes
  import opened Vectors
  import opened LuFactor
  import opened LuSolve
  import opened LeastSquares
  import opened Ternary
  import opened Decompose

  /** Flat positions of block columns [start, end) in row r of a row-major matrix. */
  function RowPositions(inF: nat, start: nat, end: nat, r: nat): seq<nat>
    requires start <= end
  {
    seq(end - start, c requires 0 <= c < end - start => r * inF + start + c)
  }

  /** Flat positions of a block, rows in order. */
  function BlockPositions(inF: nat, start: nat, end: nat, rows: nat): seq<nat>
    requires start <= end
  {
    if rows == 0 then [] else BlockPositions(inF, start, end, rows - 1) + RowPositions(inF, start, end, rows - 1)
  }

  predicate InRange(ps: seq<nat>, n: nat) {
    forall q :: 0 <= q < |ps| ==> ps[q] < n
  }

  function Gather(w: Vec, ps: seq<nat>): Vec
    requires InRange(ps, |w|)
    ensures |Gather(w, ps)| == |ps|
  {
    seq(|ps|, q requires 0 <= q < |ps| => w[ps[q]])
  }

  /** The digits of one term inside the block, as a column. */
  function Column(t: seq<int>, ps: seq<nat>): Vec
    requires InRange(ps, |t|)
    ensures |Column(t, ps)| == |ps|
  {
    seq(|ps|, q requires 0 <= q < |ps| => t[ps[q]] as real)
  }

  function Columns(terms: seq<RawTerm>, ps: seq<nat>, n: nat): Matrix
    requires Shaped(terms, n) && InRange(ps, n)
    ensures Wide(Columns(terms, ps, n), |ps|) && |Columns(terms, ps, n)| == |terms|
  {
    seq(|terms|, i requires 0 <= i < |terms| => Column(terms[i].t, ps))
  }

  lemma {:induction false} BlockInRange(outF: nat, inF: nat, start: nat, end: nat, rows: nat)
    requires rows <= outF && start <= end <= inF
    ensures InRange(BlockPositions(inF, start, end, rows), outF * inF)
  {
    if rows > 0 {
      BlockInRange(outF, inF, start, end, rows - 1);
      var row := RowPositions(inF, start, end, rows - 1);
      forall c | 0 <= c < |row| ensures row[c] < outF * inF {
        Bytes.FlatIndex(outF, inF, rows - 1, start + c);
      }
    }
  }

  lemma DotAppend(u: Vec, v: Vec, x: real, y: real)
    requires |u| == |v|
    ensures Dot(u + [x], v + [y]) == Dot(u, v) + x * y
  {
    DotRangeCongruent(u + [x], v + [y], u, v, 0, |u|);
  }

  lemma GatherAppend(w: Vec, ps: seq<nat>, p: nat)
    requires InRange(ps, |w|) && p < |w|
    ensures Gather(w, ps + [p]) == Gather(w, ps) + [w[p]]
  {
  }

  lemma ColumnAppend(t: seq<int>, ps: seq<nat>, p: nat)
    requires InRange(ps, |t|) && p < |t|
    ensures Column(t, ps + [p]) == Column(t, ps) + [t[p] as real]
  {
  }

  /** What the two accumulators hold once the positions ps were visited. */
  predicate Holds(g: Matrix, h: Vec, w: Vec, terms: seq<RawTerm>, ps: seq<nat>)
    requires Shaped(terms, |w|) && InRange(ps, |w|)
  {
    && |h| == |terms| && Square(g, |terms|)
    && (forall i :: 0 <= i < |terms| ==> h[i] == Dot(Column(terms[i].t, ps), Gather(w, ps)))
    && (forall i, j :: 0 <= i < |terms| && 0 <= j < |terms| ==>
          g[i][j] == Dot(Column(terms[i].t, ps), Column(terms[j].t, ps)))
  }

  ghost predicate Accumulated(ata: array2<real>, atw: array<real>, w: Vec, terms: seq<RawTerm>, ps: seq<nat>)
    requires Shaped(terms, |w|) && InRange(ps, |w|)
    reads ata, atw
  {
    ata.Length0 == ata.Length1 == atw.Length == |terms| && Holds(Rows(ata), atw[..], w, terms, ps)
  }

  /** Adds col * x to atw and the products of col with itself to ata. */
  method AddProducts(ata: array2<real>, atw: array<real>, col: array<real>, n: nat, x: real)
    requires ata.Length0 == n && ata.Length1 == n && atw.Length == n && col.Length == n && col != atw
    modifies ata, atw
    ensures forall k :: 0 <= k < n ==> atw[k] == old(atw[k]) + col[k] * x
    ensures forall k :: 0 <= k < n ==> Rows(ata)[k] == Add(old(Rows(ata))[k], Scale(col[k], col[..]))
  {
    ghost var g, v := Rows(ata), col[..];
    for i := 0 to n
      invariant forall k :: 0 <= k < i ==> atw[k] == old(atw[k]) + v[k] * x
      invariant forall k :: i <= k < n ==> atw[k] == old(atw[k])
      invariant forall k :: 0 <= k < i ==> Rows(ata)[k] == Add(g[k], Scale(v[k], v))
      invariant forall k :: i <= k < n ==> Rows(ata)[k] == g[k]
    {
      atw[i] := atw[i] + col[i] * x;
      AddRow(ata, col, n, i);
    }
  }

  method AddRow(ata: array2<real>, col: array<real>, n: nat, i: nat)
    requires ata.Length0 == n && ata.Length1 == n && col.Length == n && i < n
    modifies ata
    ensures Rows(ata) == old(Rows(ata))[i := Add(old(Rows(ata))[i], Scale(col[i], col[..]))]
  {
    for j := 0 to n
      invariant forall k, c :: 0 <= k < n && 0 <= c < n && (k != i || c >= j) ==> ata[k, c] == old(ata[k, c])
      invariant forall c :: 0 <= c < j ==> ata[i, c] == old(ata[i, c]) + col[i] * col[c]
    {
      ata[i, j] := ata[i, j] + col[i] * col[j];
    }
    ghost var g := old(Rows(ata));
    ghost var sum := Add(g[i], Scale(col[i], col[..]));
    forall k | 0 <= k < n ensures Rows(ata)[k] == g[i := sum][k] {
      forall c | 0 <= c < n ensures Rows(ata)[k][c] == g[i := sum][k][c] {
        assert g[k][c] == old(ata[k, c]) && Rows(ata)[k][c] == ata[k, c];
      }
    }
  }

  /** The digits of all terms at one position. */
  function DigitsAt(terms: seq<RawTerm>, n: nat, p: nat): (v: Vec)
    requires Shaped(terms, n) && p < n
    ensures |v| == |terms|
  {
    seq(|terms|, k requires 0 <= k < |terms| => terms[k].t[p] as real)
  }

  lemma HoldsStep(g: Matrix, h: Vec, g': Matrix, h': Vec, w: Vec, terms: seq<RawTerm>, ps: seq<nat>, p: nat)
    requires Shaped(terms, |w|) && InRange(ps, |w|) && p < |w| && Holds(g, h, w, terms, ps)
    requires |h'| == |terms| && Square(g', |terms|)
    requires var v := DigitsAt(terms, |w|, p);
      && (forall k :: 0 <= k < |terms| ==> h'[k] == h[k] + v[k] * w[p])
      && (forall k :: 0 <= k < |terms| ==> g'[k] == Add(g[k], Scale(v[k], v)))
    ensures Holds(g', h', w, terms, ps + [p])
  {
    hide Dot, Gather, Column;
    var n, v := |terms|, DigitsAt(terms, |w|, p);
    forall i | 0 <= i < n ensures h'[i] == Dot(Column(terms[i].t, ps + [p]), Gather(w, ps + [p])) {
      MomentAppend(terms[i].t, w, ps, p);
    }
    forall i, j | 0 <= i < n && 0 <= j < n
      ensures g'[i][j] == Dot(Column(terms[i].t, ps + [p]), Column(terms[j].t, ps + [p]))
    {
      ProductAppend(terms[i].t, terms[j].t, ps, p);
      assert g'[i][j] == g[i][j] + v[i] * v[j];
    }
  }

  /** Adds the products of one weight position to both accumulators. */
  method AccumulatePosition(
      ata: array2<real>, atw: array<real>, col: array<real>,
      w: Vec, terms: seq<RawTerm>, ghost ps: seq<nat>, p: nat)
    requires col.Length == |terms| && col != atw && Shaped(terms, |w|) && InRange(ps, |w|) && p < |w|
    requires Accumulated(ata, atw, w, terms, ps)
    modifies ata, atw, col
    ensures Accumulated(ata, atw, w, terms, ps + [p])
  {
    hide Holds;
    var n := |terms|;
    ghost var g, h := Rows(ata), atw[..];
    for i := 0 to n
      modifies col
      invariant forall k :: 0 <= k < i ==> col[k] == terms[k].t[p] as real
    {
      col[i] := terms[i].t[p] as real;
    }
    assert col[..] == DigitsAt(terms, |w|, p);
    AddProducts(ata, atw, col, n, w[p]);
    HoldsStep(g, h, Rows(ata), atw[..], w, terms, ps, p);
  }

  lemma MomentAppend(t: seq<int>, w: Vec, ps: seq<nat>, p: nat)
    requires |t| == |w| && InRange(ps, |w|) && p < |w|
    ensures |Column(t, ps)| == |Gather(w, ps)| && |Column(t, ps + [p])| == |Gather(w, ps + [p])|
    ensures Dot(Column(t, ps + [p]), Gather(w, ps + [p])) == Dot(Column(t, ps), Gather(w, ps)) + t[p] as real * w[p]
  {
    GatherAppend(w, ps, p);
    ColumnAppend(t, ps, p);
    DotAppend(Column(t, ps), Gather(w, ps), t[p] as real, w[p]);
  }

  lemma ProductAppend(t: seq<int>, t': seq<int>, ps: seq<nat>, p: nat)
    requires |t| == |t'| && InRange(ps, |t|) && p < |t|
    ensures |Column(t, ps)| == |Column(t', ps)| && |Column(t, ps + [p])| == |Column(t', ps + [p])|
    ensures Dot(Column(t, ps + [p]), Column(t', ps + [p]))
         == Dot(Column(t, ps), Column(t', ps)) + t[p] as real * t'[p] as real
  {
    ColumnAppend(t, ps, p);
    ColumnAppend(t', ps, p);
    DotAppend(Column(t, ps), Column(t', ps), t[p] as real, t'[p] as real);
  }

  lemma RangeOfParts(ps: seq<nat>, qs: seq<nat>, n: nat)
    ensures InRange(ps + qs, n) <==> InRange(ps, n) && InRange(qs, n)
  {
    if InRange(ps + qs, n) {
      assert forall q :: 0 <= q < |ps| ==> ps[q] == (ps + qs)[q];
      assert forall q :: 0 <= q < |qs| ==> qs[q] == (ps + qs)[|ps| + q];
    }
  }

  /** One row of the block. */
  method AccumulateRow(
      ata: array2<real>, atw: array<real>, col: array<real>, w: Vec, terms: seq<RawTerm>,
      inF: nat, start: nat, end: nat, r: nat, ghost before: seq<nat>)
    requires col.Length == |terms| && col != atw && Shaped(terms, |w|) && start <= end <= inF
    requires InRange(before, |w|) && InRange(RowPositions(inF, start, end, r), |w|)
    requires Accumulated(ata, atw, w, terms, before)
    modifies ata, atw, col
    ensures InRange(before + RowPositions(inF, start, end, r), |w|)
    ensures Accumulated(ata, atw, w, terms, before + RowPositions(inF, start, end, r))
  {
    hide Accumulated;
    ghost var row := RowPositions(inF, start, end, r);
    ghost var ps := before;
    for c := 0 to end - start
      invariant ps == before + row[..c] && InRange(ps, |w|)
      invariant Accumulated(ata, atw, w, terms, ps)
    {
      var p := r * inF + start + c;
      assert p == row[c] < |w|;
      AccumulatePosition(ata, atw, col, w, terms, ps, p);
      ps := ps + [p];
    }
    assert row[..end - start] == row;
  }

  /** One pass over the block: the Gram matrix and the moments of its columns. */
  method AccumulateBlock(
      ata: array2<real>, atw: array<real>, w: Vec, terms: seq<RawTerm>,
      outF: nat, inF: nat, start: nat, end: nat) returns (ghost ps: seq<nat>)
    requires ata.Length0 == |terms| && ata.Length1 == |terms| && atw.Length == |terms|
    requires |w| == outF * inF && Shaped(terms, |w|) && start <= end <= inF
    modifies ata, atw
    ensures ps == BlockPositions(inF, start, end, outF) && InRange(ps, |w|)
    ensures Accumulated(ata, atw, w, terms, ps)
  {
    hide Accumulated, RowPositions;
    var n := |terms|;
    ClearAccumulators(ata, atw, n);
    var col := new real[n];
    ps := [];
    AccumulatedAtStart(ata, atw, w, terms);
    for r := 0 to outF
      invariant ps == BlockPositions(inF, start, end, r) && InRange(ps, |w|)
      invariant Accumulated(ata, atw, w, terms, ps)
    {
      BlockInRange(outF, inF, start, end, r + 1);
      ghost var row := RowPositions(inF, start, end, r);
      RangeOfParts(ps, row, |w|);
      AccumulateRow(ata, atw, col, w, terms, inF, start, end, r, ps);
      ps := ps + row;
    }
  }

  method ClearAccumulators(ata: array2<real>, atw: array<real>, n: nat)
    requires ata.Length0 == n && ata.Length1 == n && atw.Length == n
    modifies ata, atw
    ensures forall i :: 0 <= i < n ==> atw[i] == 0.0
    ensures forall i, j :: 0 <= i < n && 0 <= j < n ==> ata[i, j] == 0.0
  {
    forall i | 0 <= i < n {
      atw[i] := 0.0;
    }
    forall i, j | 0 <= i < n && 0 <= j < n {
      ata[i, j] := 0.0;
    }
  }

  lemma AccumulatedAtStart(ata: array2<real>, atw: array<real>, w: Vec, terms: seq<RawTerm>)
    requires ata.Length0 == |terms| && ata.Length1 == |terms| && atw.Length == |terms| && Shaped(terms, |w|)
    requires forall i :: 0 <= i < |terms| ==> atw[i] == 0.0
    requires forall i, j :: 0 <= i < |terms| && 0 <= j < |terms| ==> ata[i, j] == 0.0
    ensures Accumulated(ata, atw, w, terms, [])
  {
  }

  // ----- the fit of one block

  const RIDGE_SCALE := 0.0000000001

  /** Largest diagonal entry, or 0 when there is none above it. */
  function DiagonalMax(g: Matrix, n: nat, k: nat): (m: real)
    requires Square(g, n) && k <= n
    ensures m >= 0.0 && forall i :: 0 <= i < k ==> g[i][i] <= m
    ensures m > 0.0 ==> exists i :: 0 <= i < k && g[i][i] == m
  {
    if k == 0 then 0.0
    else if g[k - 1][k - 1] > DiagonalMax(g, n, k - 1) then g[k - 1][k - 1]
    else DiagonalMax(g, n, k - 1)
  }

  /** Gram matrix, moments and ridge of one block, in terms of its columns and weights. */
  function Gram(cols: Matrix, n: nat): (g: Matrix)
    requires Wide(cols, n)
    ensures IsGram(g, cols, n)
  {
    seq(|cols|, i requires 0 <= i < |cols| => seq(|cols|, j requires 0 <= j < |cols| => Dot(cols[i], cols[j])))
  }

  function Ridge(cols: Matrix, n: nat): (ridge: real)
    requires Wide(cols, n)
    ensures ridge >= 0.0
  {
    RIDGE_SCALE * DiagonalMax(Gram(cols, n), |cols|, |cols|)
  }

  /** The system that one block solves. */
  function System(cols: Matrix, n: nat): (m: Matrix)
    requires Wide(cols, n)
    ensures Square(m, |cols|)
  {
    WithRidge(Gram(cols, n), |cols|, Ridge(cols, n))
  }

  predicate AllZero(cols: Matrix) {
    forall i :: 0 <= i < |cols| ==> cols[i] == Zeros(|cols[i]|)
  }

  /** The ridge vanishes only when every column does. */
  lemma RidgeVanishes(cols: Matrix, n: nat)
    requires Wide(cols, n)
    ensures Ridge(cols, n) == 0.0 <==> AllZero(cols)
  {
    var k, g := |cols|, Gram(cols, n);
    var m := DiagonalMax(g, k, k);
    forall i | 0 <= i < k ensures g[i][i] >= 0.0 && (g[i][i] == 0.0 <==> cols[i] == Zeros(n)) {
      SquaresAreNonNegative(cols[i], n);
      if cols[i] == Zeros(n) {
        DotRangeZero(cols[i], cols[i], 0, n);
      }
    }
  }

  /** Without any non-zero digit the system is singular as soon as there is a term. */
  lemma ZeroSystemIsSingular(cols: Matrix, n: nat)
    requires Wide(cols, n) && AllZero(cols) && |cols| > 0
    ensures !NonSingular(System(cols, n), |cols|)
  {
    var k, m := |cols|, System(cols, n);
    RidgeVanishes(cols, n);
    var x := Zeros(k)[0 := 1.0];
    forall i | 0 <= i < k ensures SolvesRow(m, x, Zeros(k), i) {
      forall j | 0 <= j < k ensures m[i][j] == 0.0 {
        DotRangeZero(cols[i], cols[j], 0, n);
      }
      DotRangeZero(m[i], x, 0, k);
    }
    assert x[0] != Zeros(k)[0];
    assert Solves(m, x, Zeros(k));
  }

  /** The factorisation of a block's system fails exactly when all its digits are zero. */
  lemma FallbackExactly(cols: Matrix, n: nat)
    requires Wide(cols, n)
    ensures !NonSingular(System(cols, n), |cols|) <==> |cols| > 0 && AllZero(cols)
  {
    RidgeVanishes(cols, n);
    if Ridge(cols, n) > 0.0 {
      RidgeIsNonSingular(Gram(cols, n), cols, n, Ridge(cols, n));
    } else if |cols| > 0 {
      ZeroSystemIsSingular(cols, n);
    } else {
      assert forall x: Vec :: |x| == 0 ==> x == Zeros(0);
    }
  }

  function Moments(cols: Matrix, w: Vec): (h: Vec)
    requires Wide(cols, |w|)
    ensures IsMoment(h, cols, w)
  {
    seq(|cols|, i requires 0 <= i < |cols| => Dot(cols[i], w))
  }

  /** What the guarded sweeps compute for one block, and the factors they used. */
  datatype Sweep = Sweep(f: Matrix, piv: seq<int>, y: Vec)

  ghost predicate SweptBlock(cols: Matrix, w: Vec, s: Vec, run: Sweep)
    requires Wide(cols, |w|)
  {
    var k := |cols|;
    && Factors(System(cols, |w|), run.f, run.piv, k) && UnitMultipliers(run.f, k, k)
    && ForwardSwept(run.f, Interchanges(Moments(cols, w), run.piv, k), run.y, k)
    && BackwardSwept(run.f, run.y, s, k)
  }

  /** The products that the guards skipped in the two sweeps of a block cancel. */
  ghost predicate SkipsCancelIn(cols: Matrix, w: Vec, s: Vec, run: Sweep)
    requires Wide(cols, |w|) && SweptBlock(cols, w, s, run)
  {
    SkipsCancel(run.f, Interchanges(Moments(cols, w), run.piv, |cols|), run.y, s, |cols|)
  }

  /** The scales of one block: zeros when it holds no digit, the swept solution otherwise. */
  ghost predicate BlockFit(cols: Matrix, w: Vec, s: Vec, run: Sweep)
    requires Wide(cols, |w|)
  {
    |s| == |cols| && if |cols| > 0 && AllZero(cols) then s == Zeros(|cols|) else SweptBlock(cols, w, s, run)
  }

  /**
   The scales of a block minimise the ridge objective over all scales exactly when they solve its system,
   that is, when the block holds no digit or the products that the guards skipped cancel.
   */
  lemma BlockFitMinimises(cols: Matrix, w: Vec, s: Vec, run: Sweep)
    requires Wide(cols, |w|) && BlockFit(cols, w, s, run)
    ensures Minimises(w, cols, Ridge(cols, |w|), s) <==> Solves(System(cols, |w|), s, Moments(cols, w))
    ensures Minimises(w, cols, Ridge(cols, |w|), s) <==> AllZero(cols) || SkipsCancelIn(cols, w, s, run)
  {
    hide ForwardSwept, BackwardSwept, SkipsCancel, Objective, Ridge, Gram, Minimises, Moments;
    MinimisesExactly(w, Gram(cols, |w|), Moments(cols, w), cols, Ridge(cols, |w|), s);
    if AllZero(cols) {
      ZeroColumnsMinimise(cols, w, s);
    } else {
      SolveExact(System(cols, |w|), run.f, run.piv, Moments(cols, w), run.y, s, |cols|);
    }
  }

  lemma ZeroColumnsMinimise(cols: Matrix, w: Vec, s: Vec)
    requires Wide(cols, |w|) && AllZero(cols) && |s| == |cols|
    ensures Minimises(w, cols, Ridge(cols, |w|), s)
  {
    hide Objective, Ridge;
    forall t: Vec | |t| == |cols|
      ensures Objective(w, cols, Ridge(cols, |w|), s) <= Objective(w, cols, Ridge(cols, |w|), t)
    {
      ZeroColumnsAreIndifferent(cols, w, s, t);
    }
  }

  /** With all digits zero every choice of scales has the same objective. */
  lemma ZeroColumnsAreIndifferent(cols: Matrix, w: Vec, s: Vec, t: Vec)
    requires Wide(cols, |w|) && AllZero(cols) && |s| == |t| == |cols|
    ensures Objective(w, cols, Ridge(cols, |w|), s) == Objective(w, cols, Ridge(cols, |w|), t)
  {
    RidgeVanishes(cols, |w|);
    ZeroSpan(cols, s, |cols|, |w|);
    ZeroSpan(cols, t, |cols|, |w|);
  }

  lemma {:induction false} ZeroSpan(cols: Matrix, s: Vec, c: nat, n: nat)
    requires c <= |s| == |cols| && Wide(cols, n) && AllZero(cols)
    ensures Combine(s, cols, c, n) == Zeros(n)
  {
    if c > 0 {
      ZeroSpan(cols, s, c - 1, n);
      assert Scale(s[c - 1], cols[c - 1]) == Zeros(n);
    }
  }

  /** The power-of-two scales of the terms. */
  function OwnScales(terms: seq<RawTerm>): (s: Vec)
    ensures |s| == |terms|
  {
    seq(|terms|, i requires 0 <= i < |terms| => terms[i].a)
  }

  /** Under that condition they are no worse than the scales that refinement left. */
  lemma FitBeatsRefinedScales(w: Vec, terms: seq<RawTerm>, ps: seq<nat>, s: Vec, run: Sweep)
    requires Shaped(terms, |w|) && InRange(ps, |w|)
    requires BlockFit(Columns(terms, ps, |w|), Gather(w, ps), s, run)
    requires var cols := Columns(terms, ps, |w|); AllZero(cols) || SkipsCancelIn(cols, Gather(w, ps), s, run)
    ensures var cols, block := Columns(terms, ps, |w|), Gather(w, ps);
      Objective(block, cols, Ridge(cols, |ps|), s) <= Objective(block, cols, Ridge(cols, |ps|), OwnScales(terms))
  {
    hide BlockFit, SkipsCancelIn, Objective, Ridge, AllZero;
    BlockFitMinimises(Columns(terms, ps, |w|), Gather(w, ps), s, run);
  }

  // ----- the loop over blocks

  function BlockEnd(inF: nat, qk: nat, b: nat): nat {
    if b * qk + qk < inF then b * qk + qk else inF
  }

  lemma BlockStarts(inF: nat, qk: nat, b: nat)
    requires qk > 0 && b < Bytes.CeilDiv(inF, qk)
    ensures b * qk < inF && b * qk < BlockEnd(inF, qk, b) <= inF
  {
    var q := Bytes.CeilDiv(inF, qk);
    assert q * qk <= inF + qk - 1;
    assert (q - b - 1) * qk >= 0;
    assert (q - b - 1) * qk == q * qk - b * qk - qk;
  }

  function PositionsOfBlock(outF: nat, inF: nat, qk: nat, b: nat): (ps: seq<nat>)
    requires qk > 0 && b < Bytes.CeilDiv(inF, qk)
    ensures InRange(ps, outF * inF)
  {
    BlockStarts(inF, qk, b);
    BlockInRange(outF, inF, b * qk, BlockEnd(inF, qk, b), outF);
    BlockPositions(inF, b * qk, BlockEnd(inF, qk, b), outF)
  }

  method LargestDiagonal(ata: array2<real>, n: nat) returns (m: real)
    requires ata.Length0 == n && ata.Length1 == n
    ensures m == DiagonalMax(Rows(ata), n, n)
  {
    m := 0.0;
    for i := 0 to n
      invariant m == DiagonalMax(Rows(ata), n, i)
    {
      assert Rows(ata)[i][i] == ata[i, i];
      if ata[i, i] > m {
        m := ata[i, i];
      }
    }
  }

  method CopyWithRidge(ata: array2<real>, n: nat, ridge: real) returns (work: array2<real>)
    requires ata.Length0 == n && ata.Length1 == n
    ensures fresh(work) && work.Length0 == n && work.Length1 == n
    ensures Rows(work) == WithRidge(Rows(ata), n, ridge)
  {
    work := new real[n, n];
    forall i, j | 0 <= i < n && 0 <= j < n {
      work[i, j] := ata[i, j];
    }
    for i := 0 to n
      invariant forall r, c :: 0 <= r < n && 0 <= c < n ==>
        work[r, c] == if r < i && r == c then ata[r, c] + ridge else ata[r, c]
    {
      work[i, i] := work[i, i] + ridge;
    }
    forall r | 0 <= r < n ensures Rows(work)[r] == WithRidge(Rows(ata), n, ridge)[r] {
      forall c | 0 <= c < n ensures Rows(work)[r][c] == WithRidge(Rows(ata), n, ridge)[r][c] {
        assert Rows(work)[r][c] == work[r, c] && Rows(ata)[r][c] == ata[r, c];
      }
    }
  }

  /** Visiting all positions of a block leaves its system and its moments. */
  lemma HoldsIsSystem(g: Matrix, h: Vec, w: Vec, terms: seq<RawTerm>, ps: seq<nat>)
    requires Shaped(terms, |w|) && InRange(ps, |w|) && Holds(g, h, w, terms, ps)
    ensures g == Gram(Columns(terms, ps, |w|), |ps|)
    ensures h == Moments(Columns(terms, ps, |w|), Gather(w, ps))
  {
    hide Dot, Column, Gather;
    var cols, n := Columns(terms, ps, |w|), |terms|;
    forall i | 0 <= i < n ensures g[i] == Gram(cols, |ps|)[i] {
      assert forall j :: 0 <= j < n ==> g[i][j] == Gram(cols, |ps|)[i][j];
    }
  }

  /** Factors and solves the system of one block; zeros when it does not factor. */
  method SolveBlock(ata: array2<real>, atw: array<real>, ghost cols: Matrix, ghost block: Vec)
    returns (s: Vec, ghost run: Sweep)
    requires Wide(cols, |block|) && |cols| == atw.Length == ata.Length0 == ata.Length1
    requires Rows(ata) == Gram(cols, |block|) && atw[..] == Moments(cols, block)
    modifies atw
    ensures BlockFit(cols, block, s, run)
  {
    hide AllZero, Gram, Moments, NonSingular, ForwardSwept, BackwardSwept, UnitMultipliers, MatMul;
    var n := atw.Length;
    var diagonal := LargestDiagonal(ata, n);
    var work := CopyWithRidge(ata, n, RIDGE_SCALE * diagonal);
    assert Rows(work) == System(cols, |block|);
    FallbackExactly(cols, |block|);
    var ipiv := new int[n];
    var ok := Factor(work, n, ipiv);
    if !ok {
      return Zeros(n), Sweep([], [], []);
    }
    ghost var y := Solve(work, n, ipiv, atw);
    s := atw[..];
    run := Sweep(Rows(work), ipiv[..], y);
    assert SweptBlock(cols, block, s, run);
  }

  /** The scales of one block. */
  method FitBlock(w: Vec, terms: seq<RawTerm>, outF: nat, inF: nat, qk: nat, b: nat)
    returns (s: Vec, ghost run: Sweep)
    requires qk > 0 && b < Bytes.CeilDiv(inF, qk) && |w| == outF * inF && Shaped(terms, |w|)
    ensures var ps := PositionsOfBlock(outF, inF, qk, b);
      BlockFit(Columns(terms, ps, |w|), Gather(w, ps), s, run)
  {
    hide Gram, Moments, Columns, Gather, Holds, BlockFit;
    var n := |terms|;
    var ata, atw := new real[n, n], new real[n];
    BlockStarts(inF, qk, b);
    ghost var ps := AccumulateBlock(ata, atw, w, terms, outF, inF, b * qk, BlockEnd(inF, qk, b));
    HoldsIsSystem(Rows(ata), atw[..], w, terms, ps);
    ColumnsShape(terms, ps, w);
    s, run := SolveBlock(ata, atw, Columns(terms, ps, |w|), Gather(w, ps));
  }

  lemma ColumnsShape(terms: seq<RawTerm>, ps: seq<nat>, w: Vec)
    requires Shaped(terms, |w|) && InRange(ps, |w|)
    ensures Wide(Columns(terms, ps, |w|), |ps|) && |Columns(terms, ps, |w|)| == |terms| && |Gather(w, ps)| == |ps|
  {
  }

  /** fit_block_scales: scales[i][b] belongs to term i and block b. */
  method FitBlockScales(w: Vec, outF: nat, inF: nat, qk: nat, terms: seq<RawTerm>)
    returns (scales: seq<Vec>, ghost runs: seq<Sweep>)
    requires qk > 0 && |w| == outF * inF && Shaped(terms, |w|)
    ensures |scales| == |terms| && Wide(scales, Bytes.CeilDiv(inF, qk)) && |runs| == Bytes.CeilDiv(inF, qk)
    ensures forall b :: 0 <= b < Bytes.CeilDiv(inF, qk) ==>
      var ps := PositionsOfBlock(outF, inF, qk, b);
      BlockFit(Columns(terms, ps, |w|), Gather(w, ps), ScalesOfBlock(scales, b, Bytes.CeilDiv(inF, qk)), runs[b])
  {
    hide BlockFit, Columns, Gather, PositionsOfBlock, Bytes.CeilDiv;
    var nBlocks := Bytes.CeilDiv(inF, qk);
    var perBlock: seq<Vec> := [];
    runs := [];
    for b := 0 to nBlocks
      invariant |perBlock| == |runs| == b && Wide(perBlock, |terms|)
      invariant forall k :: 0 <= k < b ==>
        var ps := PositionsOfBlock(outF, inF, qk, k);
        BlockFit(Columns(terms, ps, |w|), Gather(w, ps), perBlock[k], runs[k])
    {
      var s, run := FitBlock(w, terms, outF, inF, qk, b);
      ghost var ps := PositionsOfBlock(outF, inF, qk, b);
      BlockFitShape(Columns(terms, ps, |w|), Gather(w, ps), s, run);
      perBlock, runs := perBlock + [s], runs + [run];
    }
    scales := seq(|terms|, i requires 0 <= i < |terms| => seq(nBlocks, b requires 0 <= b < nBlocks => perBlock[b][i]));
    forall b | 0 <= b < nBlocks ensures ScalesOfBlock(scales, b, nBlocks) == perBlock[b] {
    }
  }

  lemma BlockFitShape(cols: Matrix, w: Vec, s: Vec, run: Sweep)
    requires Wide(cols, |w|) && BlockFit(cols, w, s, run)
    ensures |s| == |cols|
  {
  }

  /** The scales that all terms use in block b. */
  function ScalesOfBlock(scales: seq<Vec>, b: nat, nBlocks: nat): Vec
    requires Wide(scales, nBlocks) && b < nBlocks
  {
    seq(|scales|, i requires 0 <= i < |scales| => scales[i][b])
  }
}
