/** The contiguous block cache (loader.h, dispatcher.cpp) and the scalar block kernel (kernel_avx2.cpp). */
module BlockKernel {
  import opened Bytes
  import opened Bitplane
  import opened RecordFile
  import opened Packing
  import opened Vectors

  /** One term: all code bytes in a row, all scales in a row; blocks row by row. */
  datatype TermCache = TermCache(codes: seq<Byte>, scales: seq<Word>)

  predicate ValidCache(c: TermCache, outF: nat, inF: nat) {
    |c.scales| == outF * BlockCount(inF) && |c.codes| == CODE_BYTES * |c.scales|
  }

  predicate ValidCaches(cs: seq<TermCache>, outF: nat, inF: nat) {
    forall t :: 0 <= t < |cs| ==> ValidCache(cs[t], outF, inF)
  }

  /** The code bytes of block k. */
  function PackedBlock(c: TermCache, k: nat): (packed: seq<Byte>)
    requires |c.codes| == CODE_BYTES * |c.scales| && k < |c.scales|
    ensures |packed| == CODE_BYTES
  {
    c.codes[CODE_BYTES * k..CODE_BYTES * k + CODE_BYTES]
  }

  /** The block of a row that column col lies in. */
  function BlockNumber(inF: nat, outF: nat, row: nat, col: nat): (k: nat)
    requires row < outF && col < inF
    ensures k < outF * BlockCount(inF)
  {
    ColumnBlock(inF, col);
    FlatIndex(outF, BlockCount(inF), row, col / QK);
    row * BlockCount(inF) + col / QK
  }

  lemma ColumnBlock(inF: nat, col: nat)
    requires col < inF
    ensures col / QK < BlockCount(inF)
  {
  }

  function Code(c: TermCache, outF: nat, inF: nat, row: nat, col: nat): (code: nat)
    requires ValidCache(c, outF, inF) && row < outF && col < inF
    ensures code < 4
  {
    CodeAt(PackedBlock(c, BlockNumber(inF, outF, row, col)), col % QK)
  }

  function ScaleAt(c: TermCache, outF: nat, inF: nat, row: nat, col: nat): Word
    requires ValidCache(c, outF, inF) && row < outF && col < inF
  {
    c.scales[BlockNumber(inF, outF, row, col)]
  }

  // ----- the dense matrix that a layer denotes

  /** Row of weights of one term; decode gives the digit of a code, value the number in a float. */
  function WeightRow(c: TermCache, value: Word -> real, decode: nat -> int, outF: nat, inF: nat, row: nat): (w: Vec)
    requires ValidCache(c, outF, inF) && row < outF
    ensures |w| == inF
  {
    seq(inF, col requires 0 <= col < inF =>
      value(ScaleAt(c, outF, inF, row, col)) * (decode(Code(c, outF, inF, row, col)) as real))
  }

  /** Row of the matrix-vector product, over the first m terms. */
  function DenseRow(cs: seq<TermCache>, value: Word -> real, decode: nat -> int, outF: nat, inF: nat, row: nat, x: Vec, m: nat): real
    requires ValidCaches(cs, outF, inF) && row < outF && |x| == inF && m <= |cs|
  {
    if m == 0 then 0.0
    else DenseRow(cs, value, decode, outF, inF, row, x, m - 1) + Dot(WeightRow(cs[m - 1], value, decode, outF, inF, row), x)
  }

  function DenseProduct(cs: seq<TermCache>, value: Word -> real, decode: nat -> int, outF: nat, inF: nat, x: Vec): (y: Vec)
    requires ValidCaches(cs, outF, inF) && |x| == inF
    ensures |y| == outF
  {
    seq(outF, row requires 0 <= row < outF => DenseRow(cs, value, decode, outF, inF, row, x, |cs|))
  }

  /** Codes 0, 1, 2 are -1, 0, 1; the scalar kernel reads code 3 as 2. */
  function Signed(code: nat): int {
    code - 1
  }

  // ----- building the cache

  /** The code bytes of the first m blocks. */
  function Joined(blocks: seq<BlockTerm>, m: nat): (bs: seq<Byte>)
    requires m <= |blocks|
  {
    if m == 0 then [] else Joined(blocks, m - 1) + blocks[m - 1].packed
  }

  predicate FullBlocks(blocks: seq<BlockTerm>) {
    forall k :: 0 <= k < |blocks| ==> |blocks[k].packed| == CODE_BYTES
  }

  /** Block k has been copied. */
  predicate Copied(codes: seq<Byte>, scales: seq<Word>, blocks: seq<BlockTerm>, k: nat)
    requires k < |blocks| == |scales| && |codes| == CODE_BYTES * |scales|
  {
    BlockTerm(PackedBlock(TermCache(codes, scales), k), scales[k]) == blocks[k]
  }

  /** The cache holds exactly these blocks. */
  predicate Caches(c: TermCache, blocks: seq<BlockTerm>) {
    && |c.scales| == |blocks| && |c.codes| == CODE_BYTES * |c.scales|
    && forall k :: 0 <= k < |blocks| ==> Copied(c.codes, c.scales, blocks, k)
  }

  /** The copy loops of build_block_contig_cache for one term. */
  method CopyBlocks(blocks: seq<BlockTerm>, outF: nat, inF: nat) returns (codes: array<Byte>, scales: array<Word>)
    requires |blocks| == outF * BlockCount(inF) && FullBlocks(blocks)
    ensures Caches(TermCache(codes[..], scales[..]), blocks)
  {
    hide BlockCount, FullBlocks, Copied;
    var n := BlockCount(inF);
    codes, scales := new Byte[CODE_BYTES * |blocks|](_ => 0), new Word[|blocks|](_ => 0);
    ghost var done := 0;
    for row := 0 to outF
      invariant done == row * n <= |blocks|
      invariant forall k :: 0 <= k < done ==> Copied(codes[..], scales[..], blocks, k)
    {
      NextRow(outF, n, row);
      for b := 0 to n
        invariant done == row * n + b
        invariant forall k :: 0 <= k < done ==> Copied(codes[..], scales[..], blocks, k)
      {
        var idx := row * n + b;
        BlockIsFull(blocks, idx);
        ghost var was, wasScales := codes[..], scales[..];
        CopyCodes(codes, CODE_BYTES * idx, blocks[idx].packed);
        scales[idx] := blocks[idx].scale;
        CopiedStays(was, wasScales, codes[..], scales[..], blocks, idx);
        done := done + 1;
      }
    }
  }

  lemma BlockIsFull(blocks: seq<BlockTerm>, k: nat)
    requires FullBlocks(blocks) && k < |blocks|
    ensures |blocks[k].packed| == CODE_BYTES && CODE_BYTES * k + CODE_BYTES <= CODE_BYTES * |blocks|
  {
  }

  lemma CopiedStays(was: seq<Byte>, wasScales: seq<Word>, codes: seq<Byte>, scales: seq<Word>, blocks: seq<BlockTerm>, idx: nat)
    requires idx < |blocks| == |scales| == |wasScales| && |was| == |codes| == CODE_BYTES * |scales|
    requires FullBlocks(blocks)
    requires scales == wasScales[idx := blocks[idx].scale]
    requires codes == was[..CODE_BYTES * idx] + blocks[idx].packed + was[CODE_BYTES * idx + CODE_BYTES..]
    requires forall k :: 0 <= k < idx ==> Copied(was, wasScales, blocks, k)
    ensures forall k :: 0 <= k < idx + 1 ==> Copied(codes, scales, blocks, k)
  {
    forall k | 0 <= k < idx ensures Copied(codes, scales, blocks, k) {
      assert Copied(was, wasScales, blocks, k);
      assert CODE_BYTES * k + CODE_BYTES <= CODE_BYTES * idx;
      assert codes[CODE_BYTES * k..CODE_BYTES * k + CODE_BYTES] == was[CODE_BYTES * k..CODE_BYTES * k + CODE_BYTES];
    }
    assert codes[CODE_BYTES * idx..CODE_BYTES * idx + CODE_BYTES] == blocks[idx].packed;
  }

  method CopyCodes(codes: array<Byte>, at: nat, packed: seq<Byte>)
    requires at + |packed| <= codes.Length
    modifies codes
    ensures codes[..] == old(codes[..])[..at] + packed + old(codes[..])[at + |packed|..]
  {
    for g := 0 to |packed|
      invariant forall k :: 0 <= k < g ==> codes[at + k] == packed[k]
      invariant forall k :: 0 <= k < at || at + g <= k < codes.Length ==> codes[k] == old(codes[..])[k]
    {
      codes[at + g] := packed[g];
    }
  }

  /** build_block_contig_cache, also the lazy build: one cache per term, none for a term of the wrong size. */
  method BuildCaches(sets: seq<seq<BlockTerm>>, outF: nat, inF: nat) returns (cs: seq<TermCache>)
    requires forall t :: 0 <= t < |sets| ==> FullBlocks(sets[t])
    ensures |cs| == |sets|
    ensures forall t :: 0 <= t < |sets| ==>
      if |sets[t]| == outF * BlockCount(inF) then Caches(cs[t], sets[t]) else cs[t] == TermCache([], [])
  {
    hide FullBlocks, Caches, BlockCount;
    cs := [];
    for t := 0 to |sets|
      invariant |cs| == t
      invariant forall i :: 0 <= i < t ==>
        if |sets[i]| == outF * BlockCount(inF) then Caches(cs[i], sets[i]) else cs[i] == TermCache([], [])
    {
      if |sets[t]| != outF * BlockCount(inF) {
        cs := cs + [TermCache([], [])];
      } else {
        var codes, scales := CopyBlocks(sets[t], outF, inF);
        cs := cs + [TermCache(codes[..], scales[..])];
      }
    }
  }

  // ----- the scalar kernel

  /** Sum over the first `size` elements of a block, before scaling. */
  function BlockDot(packed: seq<Byte>, decode: nat -> int, x: Vec, start: nat, size: nat): real
    requires size <= 4 * |packed| && start + size <= |x|
  {
    if size == 0 then 0.0
    else BlockDot(packed, decode, x, start, size - 1) + (decode(CodeAt(packed, size - 1)) as real) * x[start + size - 1]
  }

  function Times(x: real, t: int): real {
    x * t as real
  }

  /** The loop over one block, four codes at a time. */
  method BlockSum(packed: seq<Byte>, x: Vec, start: nat, size: nat) returns (sum: real)
    requires size <= 4 * |packed| && start + size <= |x|
    ensures sum == BlockDot(packed, Signed, x, start, size)
  {
    hide Field, BlockDot, Times;
    sum := 0.0;
    EmptyBlock(packed, x, start);
    var j := 0;
    while j < size
      invariant j % 4 == 0 && sum == BlockDot(packed, Signed, x, start, Least(j, size))
    {
      var byte := packed[j / 4];
      var t0, t1, t2, t3 := Field(byte, 0) - 1, Field(byte, 1) - 1, Field(byte, 2) - 1, Field(byte, 3) - 1;
      if j + 0 < size { OneMore(packed, x, start, j, 0, size); sum := sum + Times(x[start + j + 0], t0); }
      assert sum == BlockDot(packed, Signed, x, start, Least(j + 1, size));
      if j + 1 < size { OneMore(packed, x, start, j, 1, size); sum := sum + Times(x[start + j + 1], t1); }
      assert sum == BlockDot(packed, Signed, x, start, Least(j + 2, size));
      if j + 2 < size { OneMore(packed, x, start, j, 2, size); sum := sum + Times(x[start + j + 2], t2); }
      assert sum == BlockDot(packed, Signed, x, start, Least(j + 3, size));
      if j + 3 < size { OneMore(packed, x, start, j, 3, size); sum := sum + Times(x[start + j + 3], t3); }
      j := j + 4;
    }
  }

  lemma EmptyBlock(packed: seq<Byte>, x: Vec, start: nat)
    requires start <= |x|
    ensures BlockDot(packed, Signed, x, start, 0) == 0.0
  {
  }

  lemma OneMore(packed: seq<Byte>, x: Vec, start: nat, j: nat, i: nat, size: nat)
    requires j % 4 == 0 && i < 4 && j + i < size <= 4 * |packed| && start + size <= |x|
    ensures BlockDot(packed, Signed, x, start, Least(j + i + 1, size))
         == BlockDot(packed, Signed, x, start, Least(j + i, size)) + Times(x[start + j + i], Field(packed[j / 4], i) - 1)
  {
    hide Field;
    assert (j + i) / 4 == j / 4 && (j + i) % 4 == i;
  }

  /** The weight of element e of block b. */
  lemma WeightAt(c: TermCache, value: Word -> real, decode: nat -> int, outF: nat, inF: nat, row: nat, b: nat, e: nat)
    requires ValidCache(c, outF, inF) && row < outF && b < BlockCount(inF) && e < QK && b * QK + e < inF
    requires row * BlockCount(inF) + b < |c.scales|
    ensures var k, w := row * BlockCount(inF) + b, WeightRow(c, value, decode, outF, inF, row);
      w[b * QK + e] == value(c.scales[k]) * (decode(CodeAt(PackedBlock(c, k), e)) as real)
  {
    hide BlockCount;
    var k, col := row * BlockCount(inF) + b, b * QK + e;
    assert col / QK == b && col % QK == e;
    assert BlockNumber(inF, outF, row, col) == k;
    assert Code(c, outF, inF, row, col) == CodeAt(PackedBlock(c, k), e);
    assert ScaleAt(c, outF, inF, row, col) == c.scales[k];
  }

  /** A scaled block sum is that block's share of the dense row. */
  lemma BlockShare(c: TermCache, value: Word -> real, decode: nat -> int, outF: nat, inF: nat, row: nat, b: nat, size: nat, x: Vec)
    requires ValidCache(c, outF, inF) && row < outF && |x| == inF
    requires b < BlockCount(inF) && size <= QK && b * QK + size <= inF
    requires row * BlockCount(inF) + b < |c.scales|
    ensures var k := row * BlockCount(inF) + b;
      DotRange(WeightRow(c, value, decode, outF, inF, row), x, b * QK, b * QK + size)
      == value(c.scales[k]) * BlockDot(PackedBlock(c, k), decode, x, b * QK, size)
  {
    hide CodeAt, PackedBlock, BlockCount, WeightRow;
    WeightRowLength(c, value, decode, outF, inF, row);
    PackedBlockLength(c, row * BlockCount(inF) + b);
    if size > 0 {
      var k := row * BlockCount(inF) + b;
      BlockShare(c, value, decode, outF, inF, row, b, size - 1, x);
      WeightAt(c, value, decode, outF, inF, row, b, size - 1);
      var v, d := value(c.scales[k]), decode(CodeAt(PackedBlock(c, k), size - 1)) as real;
      WeighedStep(v, BlockDot(PackedBlock(c, k), decode, x, b * QK, size - 1), d, x[b * QK + size - 1]);
    }
  }

  lemma WeighedStep(v: real, s: real, d: real, x: real)
    ensures v * (s + d * x) == v * s + v * d * x
  {
  }

  function BlockSize(inF: nat, b: nat): (size: nat)
    requires b < BlockCount(inF)
    ensures 0 < size <= QK && b * QK + size <= inF
    ensures b + 1 < BlockCount(inF) ==> size == QK
    ensures b + 1 == BlockCount(inF) ==> b * QK + size == inF
  {
    if b * QK + QK < inF then QK else inF - b * QK
  }

  /** Columns before block b. */
  function Reached(inF: nat, b: nat): nat {
    if b * QK < inF then b * QK else inF
  }

  /** One more block of a row. */
  lemma NextBlock(c: TermCache, value: Word -> real, decode: nat -> int, outF: nat, inF: nat, row: nat, b: nat, x: Vec)
    requires ValidCache(c, outF, inF) && row < outF && |x| == inF && b < BlockCount(inF)
    ensures row * BlockCount(inF) + b < |c.scales|
    ensures var k, w := row * BlockCount(inF) + b, WeightRow(c, value, decode, outF, inF, row);
      DotRange(w, x, 0, Reached(inF, b + 1))
      == DotRange(w, x, 0, Reached(inF, b))
         + value(c.scales[k]) * BlockDot(PackedBlock(c, k), decode, x, b * QK, BlockSize(inF, b))
  {
    hide PackedBlock, BlockDot, WeightRow;
    FlatIndex(outF, BlockCount(inF), row, b);
    BlockShare(c, value, decode, outF, inF, row, b, BlockSize(inF, b), x);
    WeightRowLength(c, value, decode, outF, inF, row);
    DotRangeSplit(WeightRow(c, value, decode, outF, inF, row), x, 0, b * QK, b * QK + BlockSize(inF, b));
  }

  lemma WeightRowLength(c: TermCache, value: Word -> real, decode: nat -> int, outF: nat, inF: nat, row: nat)
    requires ValidCache(c, outF, inF) && row < outF
    ensures |WeightRow(c, value, decode, outF, inF, row)| == inF
  {
  }

  /** All blocks of a row cover all its columns. */
  lemma AllReached(inF: nat)
    ensures Reached(inF, BlockCount(inF)) == inF
  {
  }

  /** The loop over the blocks of one row of one term. */
  method AddTermRow(c: TermCache, value: Word -> real, outF: nat, inF: nat, row: nat, x: Vec, start: real) returns (sum: real)
    requires ValidCache(c, outF, inF) && row < outF && |x| == inF
    ensures sum == start + Dot(WeightRow(c, value, Signed, outF, inF, row), x)
  {
    hide PackedBlock, BlockDot, WeightRow, BlockSize;
    sum := start;
    WeightRowLength(c, value, Signed, outF, inF, row);
    for b := 0 to BlockCount(inF)
      invariant sum == start + DotRange(WeightRow(c, value, Signed, outF, inF, row), x, 0, Reached(inF, b))
    {
      NextBlock(c, value, Signed, outF, inF, row, b, x);
      var k := row * BlockCount(inF) + b;
      PackedBlockLength(c, k);
      BlockSizeFits(inF, b);
      var blockSum := BlockSum(PackedBlock(c, k), x, b * QK, BlockSize(inF, b));
      sum := sum + blockSum * value(c.scales[k]);
    }
    AllReached(inF);
  }

  lemma BlockSizeFits(inF: nat, b: nat)
    requires b < BlockCount(inF)
    ensures BlockSize(inF, b) <= QK && b * QK + BlockSize(inF, b) <= inF
  {
  }

  method ScalarRow(cs: seq<TermCache>, value: Word -> real, outF: nat, inF: nat, row: nat, x: Vec) returns (sum: real)
    requires ValidCaches(cs, outF, inF) && row < outF && |x| == inF
    ensures sum == DenseRow(cs, value, Signed, outF, inF, row, x, |cs|)
  {
    hide WeightRow;
    sum := 0.0;
    for t := 0 to |cs|
      invariant sum == DenseRow(cs, value, Signed, outF, inF, row, x, t)
    {
      WeightRowLength(cs[t], value, Signed, outF, inF, row);
      sum := AddTermRow(cs[t], value, outF, inF, row, x, sum);
    }
  }

  /** ternary_mul_scalar_blocks computes the dense product. */
  method ScalarBlocks(cs: seq<TermCache>, value: Word -> real, outF: nat, inF: nat, x: Vec) returns (output: array<real>)
    requires ValidCaches(cs, outF, inF) && |x| == inF
    ensures output[..] == DenseProduct(cs, value, Signed, outF, inF, x)
  {
    hide DenseRow;
    output := new real[outF];
    for row := 0 to outF
      invariant output[..row] == DenseProduct(cs, value, Signed, outF, inF, x)[..row]
    {
      output[row] := ScalarRow(cs, value, outF, inF, row, x);
    }
  }

  lemma PackedBlockLength(c: TermCache, k: nat)
    requires |c.codes| == CODE_BYTES * |c.scales| && k < |c.scales|
    ensures |PackedBlock(c, k)| == CODE_BYTES
  {
  }
}
