/** als_decompose: greedy terms, refinement and joint scales in one call, and what holds of the whole. */
module AlsPipeline {
  import Bytes
  import opened Vectors
  import opened Ternary
  import opened Decompose
  import opened TermSearch
  import opened Refinement
  import opened BlockScales
  import LeastSquares
  import RecordFile
  import Packing
  import BlockKernel
  import StoredLayers

  /** How one decomposition came about. */
  datatype Run = Run(
    greedy: seq<RawTerm>, residuals: seq<Vec>, refined: seq<RawTerm>, sweeps: seq<seq<seq<RawTerm>>>,
    scales: seq<Vec>, blocks: seq<Sweep>)

  ghost predicate IsRun(w: Vec, outF: nat, inF: nat, numTerms: nat, maxIter: nat, qk: nat, run: Run)
    requires qk > 0 && |w| == outF * inF
  {
    && |run.greedy| == |run.refined| == numTerms && GreedyRun(w, run.greedy, run.residuals)
    && |run.sweeps| == maxIter && Shaped(run.refined, |w|)
    && RefineRun(w, run.greedy, run.refined, run.sweeps, numTerms)
    && IsFit(w, outF, inF, qk, run)
  }

  /** The scales of every block come from its own least-squares system. */
  ghost predicate IsFit(w: Vec, outF: nat, inF: nat, qk: nat, run: Run)
    requires qk > 0 && |w| == outF * inF && Shaped(run.refined, |w|)
  {
    && |run.scales| == |run.refined| && Wide(run.scales, Bytes.CeilDiv(inF, qk)) && |run.blocks| == Bytes.CeilDiv(inF, qk)
    && forall b :: 0 <= b < Bytes.CeilDiv(inF, qk) ==>
      var ps := PositionsOfBlock(outF, inF, qk, b);
      BlockFit(Columns(run.refined, ps, |w|), Gather(w, ps), ScalesOfBlock(run.scales, b, Bytes.CeilDiv(inF, qk)), run.blocks[b])
  }

  /** The result pairs the digits that refinement left with the fitted scales, stored as floats. */
  function Stored(run: Run, store: real -> Bytes.Word): seq<Packing.AlsTerm>
    requires |run.scales| == |run.refined|
  {
    seq(|run.refined|, i requires 0 <= i < |run.refined| => Packing.AlsTerm(StoreAll(run.scales[i], store), run.refined[i].t))
  }

  function StoreAll(v: Vec, store: real -> Bytes.Word): (ws: seq<Bytes.Word>)
    ensures |ws| == |v|
  {
    seq(|v|, b requires 0 <= b < |v| => store(v[b]))
  }

  /** als_decompose */
  method AlsDecompose(w: Vec, outF: nat, inF: nat, numTerms: nat, maxIter: nat, qk: nat, store: real -> Bytes.Word)
    returns (result: seq<Packing.AlsTerm>, ghost run: Run)
    requires qk > 0 && |w| == outF * inF
    ensures IsRun(w, outF, inF, numTerms, maxIter, qk, run)
    ensures result == Stored(run, store)
  {
    hide GreedyRun, RefineRun, BlockFit, Columns, Gather, PositionsOfBlock, Bytes.CeilDiv;
    var greedy;
    ghost var residuals;
    greedy, residuals := GreedyTerms(w, numTerms);
    GreedyShapes(w, greedy, residuals);
    var terms := new RawTerm[numTerms](i requires 0 <= i < numTerms => greedy[i]);
    assert terms[..] == greedy;
    ghost var sweeps := RefineTerms(w, maxIter, terms);
    var refined := terms[..];
    var scales;
    ghost var blocks;
    scales, blocks := FitBlockScales(w, outF, inF, qk, refined);
    run := Run(greedy, residuals, refined, sweeps, scales, blocks);
    result := seq(numTerms, i requires 0 <= i < numTerms => Packing.AlsTerm(StoreAll(scales[i], store), refined[i].t));
  }

  lemma GreedyShapes(w: Vec, terms: seq<RawTerm>, rs: seq<Vec>)
    requires GreedyRun(w, terms, rs)
    ensures Shaped(terms, |w|)
  {
    hide Fitted;
    ResidualShapes(w, terms, rs);
  }

  // ----- every term stays ternary with a power-of-two scale

  lemma GreedyIsValid(w: Vec, terms: seq<RawTerm>, rs: seq<Vec>)
    requires GreedyRun(w, terms, rs)
    ensures AllValid(terms, |w|)
  {
    hide Fitted, ValidTerm;
    forall t | 0 <= t < |terms| ensures ValidTerm(terms[t], |w|) {
      ResidualLength(w, terms, rs, t);
      FittedIsValid(rs[t], terms[t]);
    }
  }

  lemma {:induction false} SweepIsValid(w: Vec, states: seq<seq<RawTerm>>, n: nat, m: nat)
    requires RefineSweep(w, states, n) && m <= n && AllValid(states[0], |w|)
    ensures AllValid(states[m], |w|)
  {
    hide Fitted, ValidTerm, Target;
    if m > 0 {
      SweepIsValid(w, states, n, m - 1);
      assert RefineStep(w, states[m - 1], states[m - 1 + 1], m - 1);
      FittedIsValid(Target(w, states[m - 1], m - 1), states[m][m - 1]);
      TargetLength(w, states[m - 1], m - 1);
    }
  }

  lemma TargetLength(w: Vec, ts: seq<RawTerm>, i: nat)
    requires Shaped(ts, |w|)
    ensures |Target(w, ts, i)| == |w|
  {
  }

  lemma {:induction false} RefinedIsValid(w: Vec, first: seq<RawTerm>, last: seq<RawTerm>, sweeps: seq<seq<seq<RawTerm>>>, n: nat)
    requires RefineRun(w, first, last, sweeps, n) && AllValid(first, |w|)
    ensures AllValid(last, |w|)
    decreases |sweeps|
  {
    hide RefineSweep, ValidTerm;
    if |sweeps| > 0 {
      var states := sweeps[|sweeps| - 1];
      SweepLength(w, states, n);
      RefinedIsValid(w, first, states[0], sweeps[..|sweeps| - 1], n);
      SweepIsValid(w, states, n, n);
    }
  }

  lemma SweepLength(w: Vec, states: seq<seq<RawTerm>>, n: nat)
    requires RefineSweep(w, states, n)
    ensures |states| == n + 1
  {
  }

  /** With blocks of 128 columns the result fits the packer and its digits are ternary. */
  lemma ResultIsPackable(w: Vec, outF: nat, inF: nat, numTerms: nat, maxIter: nat, run: Run, store: real -> Bytes.Word)
    requires |w| == outF * inF && IsRun(w, outF, inF, numTerms, maxIter, RecordFile.QK, run)
    ensures StoredLayers.AllFit(Stored(run, store), outF, inF) && StoredLayers.AllTernary(Stored(run, store))
  {
    hide GreedyRun, RefineRun, BlockFit, ValidTerm;
    GreedyIsValid(w, run.greedy, run.residuals);
    RefinedIsValid(w, run.greedy, run.refined, run.sweeps, numTerms);
    forall i | 0 <= i < numTerms ensures StoredLayers.Ternary(run.refined[i].t) {
      ValidIsTernary(run.refined[i], |w|);
    }
  }

  lemma ValidIsTernary(term: RawTerm, n: nat)
    requires ValidTerm(term, n)
    ensures StoredLayers.Ternary(term.t)
  {
  }

  // ----- the error of the whole

  lemma {:induction false} RemainingIsResidual(w: Vec, terms: seq<RawTerm>, rs: seq<Vec>, m: nat)
    requires Residuals(w, terms, rs) && Shaped(terms, |w|) && m <= |terms|
    ensures Remaining(w, terms, m) == rs[m]
  {
    if m > 0 {
      RemainingIsResidual(w, terms, rs, m - 1);
      assert Leaves(rs[m - 1], terms[m - 1], rs[m - 1 + 1]);
    }
  }

  lemma ResidualUnderCutoff(r: Vec)
    requires MaxAbs(r) < CUTOFF
    ensures SumSq(r) <= ErrorFloor(|r|)
  {
    hide SumSq, MaxAbs, Sq;
    CutoffBound(r);
  }

  lemma LargerBound(e: real, s: real, floor: real, bound: real)
    requires e <= MaxReal(s, floor) && (s <= floor || s <= bound)
    ensures e <= MaxReal(bound, floor)
  {
  }

  /**
   After greedy fitting and regular refinement the total squared error is at most the geometric
   bound for that many terms, or what weights under the cut-off can hold.
   */
  lemma DecompositionError(w: Vec, outF: nat, inF: nat, numTerms: nat, maxIter: nat, qk: nat, run: Run)
    requires qk > 0 && |w| == outF * inF > 0 && IsRun(w, outF, inF, numTerms, maxIter, qk, run)
    requires forall s :: 0 <= s < |run.sweeps| ==> RefineSweep(w, run.sweeps[s], numTerms) && RegularSweep(w, run.sweeps[s], numTerms)
    ensures TotalError(w, run.refined) <= MaxReal(GeometricBound(w, numTerms), ErrorFloor(|w|))
  {
    hide RefineRun, RefineSweep, RegularSweep, BlockFit, Fitted, SumSq, MaxAbs, GeometricBound, ErrorFloor, ValidTerm, IsFit;
    GreedyShapes(w, run.greedy, run.residuals);
    GreedyIsValid(w, run.greedy, run.residuals);
    RefineRunBound(w, run.greedy, run.refined, run.sweeps, numTerms);
    RemainingIsResidual(w, run.greedy, run.residuals, numTerms);
    GreedyBound(w, run.greedy, run.residuals);
    ResidualLength(w, run.greedy, run.residuals, numTerms);
    var r := run.residuals[numTerms];
    assert TotalError(w, run.greedy) == SumSq(r) && |r| == |w|;
    if MaxAbs(r) < CUTOFF {
      ResidualUnderCutoff(r);
    }
    LargerBound(TotalError(w, run.refined), SumSq(r), ErrorFloor(|w|), GeometricBound(w, numTerms));
  }

  /** Where the skipped products cancel, the fitted scales of a block are no worse than the ones refinement left. */
  lemma FittedBeatRefined(w: Vec, outF: nat, inF: nat, qk: nat, run: Run, b: nat)
    requires qk > 0 && |w| == outF * inF && Shaped(run.refined, |w|) && IsFit(w, outF, inF, qk, run)
    requires b < Bytes.CeilDiv(inF, qk)
    requires var ps := PositionsOfBlock(outF, inF, qk, b);
      var cols, s := Columns(run.refined, ps, |w|), ScalesOfBlock(run.scales, b, Bytes.CeilDiv(inF, qk));
      AllZero(cols) || SkipsCancelIn(cols, Gather(w, ps), s, run.blocks[b])
    ensures var ps := PositionsOfBlock(outF, inF, qk, b);
      var cols, block := Columns(run.refined, ps, |w|), Gather(w, ps);
      LeastSquares.Objective(block, cols, Ridge(cols, |ps|), ScalesOfBlock(run.scales, b, Bytes.CeilDiv(inF, qk)))
      <= LeastSquares.Objective(block, cols, Ridge(cols, |ps|), OwnScales(run.refined))
  {
    hide BlockFit, SkipsCancelIn, LeastSquares.Objective, Ridge, AllZero, PositionsOfBlock;
    var ps := PositionsOfBlock(outF, inF, qk, b);
    FitBeatsRefinedScales(w, run.refined, ps, ScalesOfBlock(run.scales, b, Bytes.CeilDiv(inF, qk)), run.blocks[b]);
  }

  // ----- from the weights to the product

  /** Row of the fitted matrix: each digit times the fitted scale of its block, over the first m terms. */
  function FittedRow(run: Run, outF: nat, inF: nat, row: nat, m: nat): (w: Vec)
    requires m <= |run.refined| == |run.scales| && row < outF
    requires Shaped(run.refined, outF * inF) && Wide(run.scales, RecordFile.BlockCount(inF))
    ensures |w| == inF
  {
    if m == 0 then Zeros(inF) else Add(FittedRow(run, outF, inF, row, m - 1), FittedTermRow(run, outF, inF, row, m - 1))
  }

  function FittedTermRow(run: Run, outF: nat, inF: nat, row: nat, t: nat): (w: Vec)
    requires t < |run.refined| == |run.scales| && row < outF
    requires Shaped(run.refined, outF * inF) && Wide(run.scales, RecordFile.BlockCount(inF))
    ensures |w| == inF
  {
    seq(inF, col requires 0 <= col < inF =>
      BlockKernel.ColumnBlock(inF, col); Bytes.FlatIndex(outF, inF, row, col);
      run.scales[t][col / RecordFile.QK] * (run.refined[t].t[row * inF + col] as real))
  }

  function FittedProduct(run: Run, outF: nat, inF: nat, x: Vec): (y: Vec)
    requires |run.refined| == |run.scales| && |x| == inF
    requires Shaped(run.refined, outF * inF) && Wide(run.scales, RecordFile.BlockCount(inF))
    ensures |y| == outF
  {
    seq(outF, row requires 0 <= row < outF => Dot(FittedRow(run, outF, inF, row, |run.refined|), x))
  }

  /** The stored floats stand for the fitted scales themselves. */
  ghost predicate ExactScales(run: Run, store: real -> Bytes.Word, value: Bytes.Word -> real) {
    forall t, b :: 0 <= t < |run.scales| && 0 <= b < |run.scales[t]| ==> value(store(run.scales[t][b])) == run.scales[t][b]
  }

  lemma {:induction false} ReconstructedIsFitted(
      run: Run, store: real -> Bytes.Word, value: Bytes.Word -> real, outF: nat, inF: nat, row: nat, m: nat)
    requires m <= |run.refined| == |run.scales| && row < outF && ExactScales(run, store, value)
    requires Shaped(run.refined, outF * inF) && Wide(run.scales, RecordFile.BlockCount(inF))
    requires StoredLayers.AllFit(Stored(run, store), outF, inF)
    ensures StoredLayers.ReconstructedRow(Stored(run, store), value, outF, inF, row, m) == FittedRow(run, outF, inF, row, m)
  {
    hide StoredLayers.TermRow, FittedTermRow, ExactScales, Stored;
    if m > 0 {
      ReconstructedIsFitted(run, store, value, outF, inF, row, m - 1);
      StoredTermRow(run, store, value, outF, inF, row, m - 1);
    }
  }

  lemma StoredTermRow(run: Run, store: real -> Bytes.Word, value: Bytes.Word -> real, outF: nat, inF: nat, row: nat, t: nat)
    requires t < |run.refined| == |run.scales| && row < outF && ExactScales(run, store, value)
    requires Shaped(run.refined, outF * inF) && Wide(run.scales, RecordFile.BlockCount(inF))
    requires StoredLayers.AllFit(Stored(run, store), outF, inF)
    ensures |Stored(run, store)| == |run.refined|
    ensures StoredLayers.TermRow(Stored(run, store)[t], value, outF, inF, row) == FittedTermRow(run, outF, inF, row, t)
  {
    hide RecordFile.BlockCount;
    var term := Stored(run, store)[t];
    Bytes.NextRow(outF, inF, row);
    forall col | 0 <= col < inF
      ensures StoredLayers.TermRow(term, value, outF, inF, row)[col] == FittedTermRow(run, outF, inF, row, t)[col]
    {
      BlockKernel.ColumnBlock(inF, col);
      Bytes.FlatIndex(outF, inF, row, col);
      assert Packing.RowOf(term, outF, inF, row)[col] == term.ternary[row * inF + col];
      assert value(term.scales[col / RecordFile.QK]) == run.scales[t][col / RecordFile.QK];
    }
  }

  /**
   Decompose, pack, write, load, cache, multiply: the kernels return the product with the fitted matrix,
   whatever other layers the file holds, when every layer loads back and the scales are exact as floats.
   */
  lemma DecomposedProduct(
      w: Vec, numTerms: nat, maxIter: nat, run: Run, store: real -> Bytes.Word, value: Bytes.Word -> real,
      layers: seq<Packing.Converted>, i: nat, cs: seq<BlockKernel.TermCache>, x: Vec)
    requires Packing.AllConvertible(layers) && |layers| < 0x1_0000_0000 && i < |layers| && |x| == layers[i].inF
    requires |w| == layers[i].outF * layers[i].inF
    requires IsRun(w, layers[i].outF, layers[i].inF, numTerms, maxIter, RecordFile.QK, run)
    requires layers[i].content == Packing.TermSet(Stored(run, store)) && ExactScales(run, store, value)
    requires forall k :: 0 <= k < |layers| ==> Packing.LoadsBack(layers[k])
    requires var loaded := RecordFile.Load(RecordFile.FileBytes(Packing.ToRecords(layers)));
      loaded.Some? && i < |loaded.value| && StoredLayers.CachedLayer(cs, loaded.value[i])
    ensures BlockKernel.ValidCaches(cs, layers[i].outF, layers[i].inF)
    ensures BlockKernel.DenseProduct(cs, value, BlockKernel.Signed, layers[i].outF, layers[i].inF, x)
         == FittedProduct(run, layers[i].outF, layers[i].inF, x)
  {
    hide IsRun, RecordFile.Load, RecordFile.FileBytes, Packing.AllConvertible, Packing.LoadsBack, Packing.ToRecords,
         StoredLayers.CachedLayer, StoredLayers.AllFit, StoredLayers.AllTernary, StoredLayers.ReconstructedProduct,
         BlockKernel.DenseProduct, BlockKernel.ValidCaches, Stored, ExactScales, FittedProduct, Shaped, Wide;
    var outF, inF := layers[i].outF, layers[i].inF;
    RunShapes(w, outF, inF, numTerms, maxIter, run);
    ResultIsPackable(w, outF, inF, numTerms, maxIter, run, store);
    StoredLayers.StoredProduct(layers, i, cs, value, x);
    ReconstructedProductIsFitted(run, store, value, outF, inF, x);
  }

  lemma ReconstructedProductIsFitted(
      run: Run, store: real -> Bytes.Word, value: Bytes.Word -> real, outF: nat, inF: nat, x: Vec)
    requires |run.refined| == |run.scales| && ExactScales(run, store, value) && |x| == inF
    requires Shaped(run.refined, outF * inF) && Wide(run.scales, RecordFile.BlockCount(inF))
    requires StoredLayers.AllFit(Stored(run, store), outF, inF)
    ensures StoredLayers.ReconstructedProduct(Stored(run, store), value, outF, inF, x) == FittedProduct(run, outF, inF, x)
  {
    hide Stored, ExactScales, StoredLayers.ReconstructedRow, StoredLayers.AllFit, FittedRow, Dot, Shaped, Wide;
    StoredCount(run, store);
    forall row | 0 <= row < outF
      ensures StoredLayers.ReconstructedProduct(Stored(run, store), value, outF, inF, x)[row] == FittedProduct(run, outF, inF, x)[row]
    {
      ReconstructedIsFitted(run, store, value, outF, inF, row, |run.refined|);
    }
  }

  lemma StoredCount(run: Run, store: real -> Bytes.Word)
    requires |run.scales| == |run.refined|
    ensures |Stored(run, store)| == |run.refined|
  {
  }

  lemma RunShapes(w: Vec, outF: nat, inF: nat, numTerms: nat, maxIter: nat, run: Run)
    requires |w| == outF * inF && IsRun(w, outF, inF, numTerms, maxIter, RecordFile.QK, run)
    ensures |run.refined| == |run.scales| == numTerms && Shaped(run.refined, outF * inF)
    ensures Wide(run.scales, RecordFile.BlockCount(inF))
  {
    hide BlockFit, RefineRun, GreedyRun;
  }
}
