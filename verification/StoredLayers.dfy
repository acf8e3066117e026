/** A converted layer from its ternary terms through the file and the block cache to the product. */
module StoredLayers {
  import opened Bytes
  import opened RecordFile
  import opened Packing
  import opened BlockKernel
  import opened Vectors

  predicate Ternary(ts: seq<int>) {
    forall k :: 0 <= k < |ts| ==> -1 <= ts[k] <= 1
  }

  predicate AllTernary(terms: seq<AlsTerm>) {
    forall t :: 0 <= t < |terms| ==> Ternary(terms[t].ternary)
  }

  /** Row of the matrix that one term stands for: its digits times the scale of their block. */
  function TermRow(term: AlsTerm, value: Word -> real, outF: nat, inF: nat, row: nat): (w: Vec)
    requires FitsShape(term, outF, inF) && row < outF
    ensures |w| == inF
  {
    seq(inF, col requires 0 <= col < inF =>
      ColumnBlock(inF, col); value(term.scales[col / QK]) * (RowOf(term, outF, inF, row)[col] as real))
  }

  predicate AllFit(terms: seq<AlsTerm>, outF: nat, inF: nat) {
    forall t :: 0 <= t < |terms| ==> FitsShape(terms[t], outF, inF)
  }

  /** Row of the reconstructed matrix: the sum of the first m terms. */
  function ReconstructedRow(terms: seq<AlsTerm>, value: Word -> real, outF: nat, inF: nat, row: nat, m: nat): (w: Vec)
    requires AllFit(terms, outF, inF) && row < outF && m <= |terms|
    ensures |w| == inF
  {
    if m == 0 then Zeros(inF)
    else Add(ReconstructedRow(terms, value, outF, inF, row, m - 1), TermRow(terms[m - 1], value, outF, inF, row))
  }

  /** The caches of a layer hold the blocks of its terms. */
  predicate Holds(cs: seq<TermCache>, terms: seq<AlsTerm>, outF: nat, inF: nat) {
    && |cs| == |terms| && AllFit(terms, outF, inF)
    && forall t :: 0 <= t < |cs| ==> Caches(cs[t], TermBlocks(terms[t], outF, inF))
  }

  lemma CacheIsValid(c: TermCache, term: AlsTerm, outF: nat, inF: nat)
    requires FitsShape(term, outF, inF) && Caches(c, TermBlocks(term, outF, inF))
    ensures ValidCache(c, outF, inF)
  {
  }

  /** A cached weight is the stored one. */
  lemma CachedWeight(c: TermCache, term: AlsTerm, outF: nat, inF: nat, row: nat, col: nat)
    requires FitsShape(term, outF, inF) && Caches(c, TermBlocks(term, outF, inF)) && ValidCache(c, outF, inF)
    requires Ternary(term.ternary) && row < outF && col < inF
    ensures col / QK < BlockCount(inF) && ScaleAt(c, outF, inF, row, col) == term.scales[col / QK]
    ensures Signed(Code(c, outF, inF, row, col)) == RowOf(term, outF, inF, row)[col]
  {
    hide BlockCount, BlockCodes, PackedBlock, CodeAt, TermBlock;
    var b := col / QK;
    ColumnBlock(inF, col);
    var k := BlockNumber(inF, outF, row, col);
    TermBlockIs(term, outF, inF, row, b);
    assert Copied(c.codes, c.scales, TermBlocks(term, outF, inF), k);
    var digits := RowOf(term, outF, inF, row);
    BlockCodesHold(digits, b, col % QK);
    assert b * QK + col % QK == col;
    RowIsTernary(term, outF, inF, row);
  }

  lemma RowIsTernary(term: AlsTerm, outF: nat, inF: nat, row: nat)
    requires FitsShape(term, outF, inF) && row < outF && Ternary(term.ternary)
    ensures Ternary(RowOf(term, outF, inF, row))
  {
    var digits := RowOf(term, outF, inF, row);
    NextRow(outF, inF, row);
    assert forall k :: 0 <= k < inF ==> digits[k] == term.ternary[row * inF + k];
  }

  lemma CachedRow(c: TermCache, term: AlsTerm, value: Word -> real, outF: nat, inF: nat, row: nat)
    requires FitsShape(term, outF, inF) && Caches(c, TermBlocks(term, outF, inF)) && ValidCache(c, outF, inF)
    requires Ternary(term.ternary) && row < outF
    ensures WeightRow(c, value, Signed, outF, inF, row) == TermRow(term, value, outF, inF, row)
  {
    hide Caches, Code, ScaleAt, TermBlocks, RowOf;
    forall col | 0 <= col < inF
      ensures WeightRow(c, value, Signed, outF, inF, row)[col] == TermRow(term, value, outF, inF, row)[col]
    {
      CachedWeight(c, term, outF, inF, row, col);
    }
  }

  /** Term by term, the kernel's row is the product with the reconstructed row. */
  lemma {:induction false} DenseIsReconstructed(
      cs: seq<TermCache>, terms: seq<AlsTerm>, value: Word -> real, outF: nat, inF: nat, row: nat, x: Vec, m: nat)
    requires Holds(cs, terms, outF, inF) && ValidCaches(cs, outF, inF) && AllTernary(terms)
    requires row < outF && |x| == inF && m <= |cs|
    ensures DenseRow(cs, value, Signed, outF, inF, row, x, m) == Dot(ReconstructedRow(terms, value, outF, inF, row, m), x)
  {
    hide TermRow, WeightRow, Caches, TermBlocks;
    if m == 0 {
      DotRangeZero(Zeros(inF), x, 0, inF);
    } else {
      DenseIsReconstructed(cs, terms, value, outF, inF, row, x, m - 1);
      CachedRow(cs[m - 1], terms[m - 1], value, outF, inF, row);
      TermRowLength(terms[m - 1], value, outF, inF, row);
      DotRangeAdd(ReconstructedRow(terms, value, outF, inF, row, m - 1), TermRow(terms[m - 1], value, outF, inF, row), x, inF);
    }
  }

  lemma TermRowLength(term: AlsTerm, value: Word -> real, outF: nat, inF: nat, row: nat)
    requires FitsShape(term, outF, inF) && row < outF
    ensures |TermRow(term, value, outF, inF, row)| == inF
  {
  }

  /** The product with the matrix sum_t scale_t * T_t. */
  function ReconstructedProduct(terms: seq<AlsTerm>, value: Word -> real, outF: nat, inF: nat, x: Vec): Vec
    requires AllFit(terms, outF, inF) && |x| == inF
  {
    seq(outF, row requires 0 <= row < outF => Dot(ReconstructedRow(terms, value, outF, inF, row, |terms|), x))
  }

  /** Caches that hold a layer's terms give its product. */
  lemma HeldProduct(cs: seq<TermCache>, terms: seq<AlsTerm>, value: Word -> real, outF: nat, inF: nat, x: Vec)
    requires Holds(cs, terms, outF, inF) && AllTernary(terms) && |x| == inF
    ensures ValidCaches(cs, outF, inF)
    ensures DenseProduct(cs, value, Signed, outF, inF, x) == ReconstructedProduct(terms, value, outF, inF, x)
  {
    hide DenseRow, ReconstructedRow, Caches, TermBlocks, ValidCache;
    forall t | 0 <= t < |cs| ensures ValidCache(cs[t], outF, inF) {
      CacheIsValid(cs[t], terms[t], outF, inF);
    }
    forall row | 0 <= row < outF
      ensures DenseProduct(cs, value, Signed, outF, inF, x)[row] == ReconstructedProduct(terms, value, outF, inF, x)[row]
    {
      DenseIsReconstructed(cs, terms, value, outF, inF, row, x, |cs|);
    }
  }

  /** The cache that the loader builds for a layer. */
  predicate CachedLayer(cs: seq<TermCache>, l: LayerData) {
    && l.body.Blocks? && |cs| == |l.body.sets|
    && forall t :: 0 <= t < |cs| ==>
      if |l.body.sets[t]| == l.outF * BlockCount(l.inF) then Caches(cs[t], l.body.sets[t]) else cs[t] == TermCache([], [])
  }

  /**
   End to end: pack, write, load, cache. The caches of a ternary layer i of the loaded file give the product
   with the matrix that its scales and digits stand for, whatever float tensors and other layers are in the file.
   */
  lemma StoredProduct(layers: seq<Converted>, i: nat, cs: seq<TermCache>, value: Word -> real, x: Vec)
    requires AllConvertible(layers) && |layers| < 0x1_0000_0000 && i < |layers| && |x| == layers[i].inF
    requires forall k :: 0 <= k < |layers| ==> LoadsBack(layers[k])
    requires !layers[i].content.FloatTensor? && AllTernary(TermsOf(layers[i].content))
    requires Load(FileBytes(ToRecords(layers))).Some? && i < |Load(FileBytes(ToRecords(layers))).value|
    requires CachedLayer(cs, Load(FileBytes(ToRecords(layers))).value[i])
    ensures AllFit(TermsOf(layers[i].content), layers[i].outF, layers[i].inF) && ValidCaches(cs, layers[i].outF, layers[i].inF)
    ensures DenseProduct(cs, value, Signed, layers[i].outF, layers[i].inF, x)
         == ReconstructedProduct(TermsOf(layers[i].content), value, layers[i].outF, layers[i].inF, x)
  {
    hide Load, FileBytes, ToRecords, DenseProduct, ReconstructedProduct, ValidCaches, AllLoaded, Convertible, LoadsBack;
    ConvertedFileLoads(layers);
    AllLoadedAt(layers, i);
    LayerIsHeld(layers[i], cs);
    HeldProduct(cs, TermsOf(layers[i].content), value, layers[i].outF, layers[i].inF, x);
  }

  lemma LayerIsHeld(c: Converted, cs: seq<TermCache>)
    requires Convertible(c) && !c.content.FloatTensor? && CachedLayer(cs, Loaded(c))
    ensures Holds(cs, TermsOf(c.content), c.outF, c.inF)
  {
    hide Caches, ContentBytes, Writable;
    forall t | 0 <= t < |cs| ensures |TermBlocks(TermsOf(c.content)[t], c.outF, c.inF)| == c.outF * BlockCount(c.inF) {
    }
  }

  lemma {:induction false} AllLoadedAt(layers: seq<Converted>, i: nat)
    requires AllConvertible(layers) && i < |layers|
    ensures |AllLoaded(layers)| == |layers| && AllLoaded(layers)[i] == Loaded(layers[i])
  {
    hide Convertible, Loaded;
    AllLoadedLength(layers);
    if i > 0 {
      AllLoadedAt(layers[1..], i - 1);
    }
  }

  lemma {:induction false} AllLoadedLength(layers: seq<Converted>)
    requires AllConvertible(layers)
    ensures |AllLoaded(layers)| == |layers|
  {
    hide Convertible, Loaded;
    if layers != [] {
      AllLoadedLength(layers[1..]);
    }
  }
}
