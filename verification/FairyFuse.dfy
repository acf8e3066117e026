/** The AVX-512 block kernel (kernel_avx2.cpp) and exactly when it agrees with the scalar one. */
module FairyFuse {
  import opened Bytes
  import opened Bitplane
  import opened BitOps
  import opened RecordFile
  import opened Packing
  import opened BlockKernel
  import opened Vectors

  /** The kernel's masks leave codes 1 and 3 out. */
  function MaskedDigit(code: nat): int {
    if code == 2 then 1 else if code == 0 then -1 else 0
  }

  // ----- decoding 16 codes

  /** reverse_2bit_codes, on the eight bits of a byte. */
  function Reverse2BitCodes(x: Bits): (r: Bits)
    requires |x| == 8
    ensures |r| == 8
  {
    Or(Or(ShiftLeft(And(x, Ones(0, 2, 8)), 6), ShiftLeft(And(x, Ones(2, 4, 8)), 2)),
       Or(ShiftRight(And(x, Ones(4, 6, 8)), 2), ShiftRight(And(x, Ones(6, 8, 8)), 6)))
  }

  /** The reversed byte holds the fields of the original in ascending bit order. */
  lemma ReversedFields(x: Bits, m: nat)
    requires |x| == 8 && m < 4
    ensures Reverse2BitCodes(x)[2 * m] == x[6 - 2 * m] && Reverse2BitCodes(x)[2 * m + 1] == x[7 - 2 * m]
  {
  }

  lemma FieldBits(b: Byte, m: nat)
    requires m < 4
    ensures Field(b, m) == (if Bit(b, 7 - 2 * m) then 2 else 0) + (if Bit(b, 6 - 2 * m) then 1 else 0)
  {
    SmallPowers();
    hide Pow2;
    if m == 0 {
      PairOfBits(b / 64);
      assert b / 128 == b / 64 / 2;
    } else if m == 1 {
      PairOfBits(b / 16);
      assert b / 32 == b / 16 / 2;
    } else if m == 2 {
      PairOfBits(b / 4);
      assert b / 8 == b / 4 / 2;
    } else {
      PairOfBits(b);
      assert b / 1 == b;
    }
  }

  lemma SmallPowers()
    ensures Pow2(0) == 1 && Pow2(1) == 2 && Pow2(2) == 4 && Pow2(3) == 8
    ensures Pow2(4) == 16 && Pow2(5) == 32 && Pow2(6) == 64 && Pow2(7) == 128
  {
  }

  lemma PairOfBits(q: nat)
    ensures q % 4 == 2 * (q / 2 % 2) + q % 2
  {
  }

  /** The 32 bits of four packed bytes after reordering each of them. */
  function Ascending(packed: seq<Byte>, j: nat): (bits: Bits)
    requires 4 * j + 4 <= |packed|
    ensures |bits| == 32
  {
    Reverse2BitCodes(BitsOf(packed[4 * j], 8)) + Reverse2BitCodes(BitsOf(packed[4 * j + 1], 8))
      + Reverse2BitCodes(BitsOf(packed[4 * j + 2], 8)) + Reverse2BitCodes(BitsOf(packed[4 * j + 3], 8))
  }

  /** Element k of the chunk sits in bits 2k and 2k + 1. */
  lemma AscendingCode(packed: seq<Byte>, j: nat, k: nat)
    requires 4 * j + 4 <= |packed| && k < 16
    ensures CodeAt(packed, 16 * j + k)
         == (if Ascending(packed, j)[2 * k + 1] then 2 else 0) + (if Ascending(packed, j)[2 * k] then 1 else 0)
  {
    hide Reverse2BitCodes, Field, Bit;
    var i, m := k / 4, k % 4;
    var b := packed[4 * j + i];
    assert (16 * j + k) / 4 == 4 * j + i && (16 * j + k) % 4 == m;
    FieldBits(b, m);
    var x := BitsOf(b, 8);
    ReversedFields(x, m);
    ReversedLength(x);
    assert 2 * k == 8 * i + 2 * m;
    ReversedLength(BitsOf(packed[4 * j], 8));
    ReversedLength(BitsOf(packed[4 * j + 1], 8));
    ReversedLength(BitsOf(packed[4 * j + 2], 8));
    assert Ascending(packed, j)[8 * i + 2 * m] == Reverse2BitCodes(x)[2 * m];
    assert Ascending(packed, j)[8 * i + 2 * m + 1] == Reverse2BitCodes(x)[2 * m + 1];
  }

  lemma ReversedLength(x: Bits)
    requires |x| == 8
    ensures |Reverse2BitCodes(x)| == 8
  {
  }

  /** Which of the 16 elements are added and which subtracted. */
  method DecodeMasks(packed: seq<Byte>, j: nat) returns (add: Bits, sub: Bits)
    requires 4 * j + 4 <= |packed|
    ensures |add| == |sub| == 16
    ensures forall k :: 0 <= k < 16 ==>
      (add[k] <==> CodeAt(packed, 16 * j + k) == 2) && (sub[k] <==> CodeAt(packed, 16 * j + k) == 0)
  {
    hide CodeAt, Ascending, Pext, Alternate;
    AscendingLength(packed, j);
    var codes := Ascending(packed, j);
    AlternateLength();
    PextAlternate(codes, 0);
    PextAlternate(codes, 1);
    var low, high := Pext(codes, Alternate(0, 32)), Pext(codes, Alternate(1, 32));
    add, sub := And(high, Not(low)), Not(Or(high, low));
    forall k | 0 <= k < 16
      ensures CodeAt(packed, 16 * j + k) == (if high[k] then 2 else 0) + (if low[k] then 1 else 0)
    {
      AscendingCode(packed, j, k);
    }
  }

  lemma AscendingLength(packed: seq<Byte>, j: nat)
    requires 4 * j + 4 <= |packed|
    ensures |Ascending(packed, j)| == 32
  {
  }

  lemma AlternateLength()
    ensures |Alternate(0, 32)| == 32 && |Alternate(1, 32)| == 32
  {
  }

  // ----- one chunk of 16 elements

  /** A masked load: lanes outside the mask are zero and their memory is not touched. */
  function MaskedLoad(mask: Bits, x: Vec, at: nat): (v: Lanes)
    requires forall k :: 0 <= k < |mask| && mask[k] ==> at + k < |x|
    ensures |v| == |mask|
  {
    seq(|mask|, k requires 0 <= k < |mask| => if mask[k] then x[at + k] else 0.0)
  }

  /** a + b where the mask is set, src elsewhere. */
  function MaskedAdd(src: Lanes, mask: Bits, a: Lanes, b: Lanes): (v: Lanes)
    requires |src| == |mask| == |a| == |b|
    ensures |v| == |src|
  {
    seq(|src|, k requires 0 <= k < |src| => if mask[k] then a[k] + b[k] else src[k])
  }

  function MaskedSub(src: Lanes, mask: Bits, a: Lanes, b: Lanes): (v: Lanes)
    requires |src| == |mask| == |a| == |b|
    ensures |v| == |src|
  {
    seq(|src|, k requires 0 <= k < |src| => if mask[k] then a[k] - b[k] else src[k])
  }

  method ChunkLanes(packed: seq<Byte>, j: nat, x: Vec, at: nat, chunk: nat) returns (tmp: Lanes)
    requires 4 * j + 4 <= |packed| && chunk <= 16 && at + chunk <= |x|
    ensures IsChunk(tmp, packed, j, x, at, chunk)
  {
    hide CodeAt;
    var add, sub := DecodeMasks(packed, j);
    var load := if chunk == 16 then Ones(0, 16, 16) else Ones(0, chunk, 16);
    var zero := ZeroLanes(16);
    var vin := MaskedLoad(load, x, at);
    tmp := MaskedAdd(zero, add, zero, vin);
    tmp := MaskedSub(tmp, sub, zero, vin);
  }

  /** The lanes hold the masked digits times the elements, and zero past the chunk. */
  predicate IsChunk(tmp: Lanes, packed: seq<Byte>, j: nat, x: Vec, at: nat, chunk: nat)
    requires 4 * j + 4 <= |packed| && chunk <= 16 && at + chunk <= |x|
  {
    |tmp| == 16 && forall k :: 0 <= k < 16 ==>
      tmp[k] == if k < chunk then (MaskedDigit(CodeAt(packed, 16 * j + k)) as real) * x[at + k] else 0.0
  }

  /** The lanes of a chunk add up to its part of the block sum. */
  lemma {:induction false} ChunkSum(tmp: Lanes, packed: seq<Byte>, j: nat, x: Vec, start: nat, chunk: nat, k: nat)
    requires 4 * j + 4 <= |packed| && chunk <= 16 && start + 16 * j + chunk <= |x| && k <= 16
    requires IsChunk(tmp, packed, j, x, start + 16 * j, chunk)
    ensures LaneSum(tmp[..k])
         == BlockDot(packed, MaskedDigit, x, start, 16 * j + Least(k, chunk)) - BlockDot(packed, MaskedDigit, x, start, 16 * j)
  {
    hide CodeAt;
    if k > 0 {
      ChunkSum(tmp, packed, j, x, start, chunk, k - 1);
      assert tmp[..k][..k - 1] == tmp[..k - 1];
    }
  }

  // ----- the kernel

  /** The chunks of one block, in lanes. */
  method BlockLanes(packed: seq<Byte>, x: Vec, start: nat, size: nat) returns (bacc: Lanes)
    requires |packed| == CODE_BYTES && size <= QK && start + size <= |x|
    ensures |bacc| == 16 && LaneSum(bacc) == BlockDot(packed, MaskedDigit, x, start, size)
  {
    hide CodeAt, IsChunk, LaneSum, BlockDot;
    bacc := ZeroLanes(16);
    ZeroLaneSum(16);
    NoBlock(packed, x, start);
    var nb := (size + 15) / 16;
    for j := 0 to nb
      invariant |bacc| == 16 && LaneSum(bacc) == BlockDot(packed, MaskedDigit, x, start, Least(16 * j, size))
    {
      var rem := size - 16 * j;
      var chunk := if rem > 16 then 16 else rem;
      var tmp := ChunkLanes(packed, j, x, start + 16 * j, chunk);
      ChunkShape(tmp, packed, j, x, start + 16 * j, chunk);
      ChunkSum(tmp, packed, j, x, start, chunk, 16);
      assert tmp[..16] == tmp;
      AddLaneSum(bacc, tmp);
      bacc := AddLanes(bacc, tmp);
    }
  }

  lemma NoBlock(packed: seq<Byte>, x: Vec, start: nat)
    requires start <= |x|
    ensures BlockDot(packed, MaskedDigit, x, start, 0) == 0.0
  {
  }

  lemma ChunkShape(tmp: Lanes, packed: seq<Byte>, j: nat, x: Vec, at: nat, chunk: nat)
    requires 4 * j + 4 <= |packed| && chunk <= 16 && at + chunk <= |x| && IsChunk(tmp, packed, j, x, at, chunk)
    ensures |tmp| == 16
  {
  }

  method AddTermLanes(c: TermCache, value: Word -> real, outF: nat, inF: nat, row: nat, x: Vec, start: Lanes) returns (vacc: Lanes)
    requires ValidCache(c, outF, inF) && row < outF && |x| == inF && |start| == 16
    ensures |vacc| == 16
    ensures LaneSum(vacc) == LaneSum(start) + Dot(WeightRow(c, value, MaskedDigit, outF, inF, row), x)
  {
    hide PackedBlock, BlockDot, WeightRow, BlockSize, LaneSum;
    vacc := start;
    WeightRowLength(c, value, MaskedDigit, outF, inF, row);
    for b := 0 to BlockCount(inF)
      invariant |vacc| == 16
      invariant LaneSum(vacc)
             == LaneSum(start) + DotRange(WeightRow(c, value, MaskedDigit, outF, inF, row), x, 0, Reached(inF, b))
    {
      NextBlock(c, value, MaskedDigit, outF, inF, row, b, x);
      var k := row * BlockCount(inF) + b;
      PackedBlockLength(c, k);
      BlockSizeFits(inF, b);
      var bacc := BlockLanes(PackedBlock(c, k), x, b * QK, BlockSize(inF, b));
      FusedLaneSum(value(c.scales[k]), bacc, vacc);
      vacc := FusedMultiplyAdd(value(c.scales[k]), bacc, vacc);
    }
    AllReached(inF);
  }

  method FairyFuseRow(cs: seq<TermCache>, value: Word -> real, outF: nat, inF: nat, row: nat, x: Vec) returns (sum: real)
    requires ValidCaches(cs, outF, inF) && row < outF && |x| == inF
    ensures sum == DenseRow(cs, value, MaskedDigit, outF, inF, row, x, |cs|)
  {
    hide WeightRow, LaneSum;
    var vacc := ZeroLanes(16);
    ZeroLaneSum(16);
    for t := 0 to |cs|
      invariant |vacc| == 16 && LaneSum(vacc) == DenseRow(cs, value, MaskedDigit, outF, inF, row, x, t)
    {
      WeightRowLength(cs[t], value, MaskedDigit, outF, inF, row);
      vacc := AddTermLanes(cs[t], value, outF, inF, row, x, vacc);
    }
    sum := LaneSum(vacc);
  }

  /** ternary_mul_avx512_fairyfuse */
  method FairyFuseBlocks(cs: seq<TermCache>, value: Word -> real, outF: nat, inF: nat, x: Vec) returns (output: array<real>)
    requires ValidCaches(cs, outF, inF) && |x| == inF
    ensures output[..] == DenseProduct(cs, value, MaskedDigit, outF, inF, x)
  {
    hide DenseRow;
    output := new real[outF];
    for row := 0 to outF
      invariant output[..row] == DenseProduct(cs, value, MaskedDigit, outF, inF, x)[..row]
    {
      output[row] := FairyFuseRow(cs, value, outF, inF, row, x);
    }
  }

  // ----- agreement with the scalar kernel

  /** 2 at code 3, which only the scalar kernel counts. */
  function Stray(code: nat): int {
    if code == 3 then 2 else 0
  }

  /** The total weight that code 3 gives an input element in the scalar kernel. */
  function StrayWeight(cs: seq<TermCache>, value: Word -> real, outF: nat, inF: nat, row: nat, col: nat, m: nat): real
    requires ValidCaches(cs, outF, inF) && row < outF && col < inF && m <= |cs|
  {
    if m == 0 then 0.0
    else StrayWeight(cs, value, outF, inF, row, col, m - 1) + WeightRow(cs[m - 1], value, Stray, outF, inF, row)[col]
  }

  function StrayRow(cs: seq<TermCache>, value: Word -> real, outF: nat, inF: nat, row: nat, m: nat): (w: Vec)
    requires ValidCaches(cs, outF, inF) && row < outF && m <= |cs|
    ensures |w| == inF
  {
    seq(inF, col requires 0 <= col < inF => StrayWeight(cs, value, outF, inF, row, col, m))
  }

  /** The kernels differ by exactly what code 3 contributes. */
  lemma {:induction false} DifferenceIsStray(
      cs: seq<TermCache>, value: Word -> real, outF: nat, inF: nat, row: nat, x: Vec, m: nat)
    requires ValidCaches(cs, outF, inF) && row < outF && |x| == inF && m <= |cs|
    ensures DenseRow(cs, value, Signed, outF, inF, row, x, m)
         == DenseRow(cs, value, MaskedDigit, outF, inF, row, x, m) + Dot(StrayRow(cs, value, outF, inF, row, m), x)
  {
    hide WeightRow, ValidCache;
    if m == 0 {
      DotRangeZero(StrayRow(cs, value, outF, inF, row, 0), x, 0, inF);
    } else {
      var c := cs[m - 1];
      DifferenceIsStray(cs, value, outF, inF, row, x, m - 1);
      SplitWeights(c, value, outF, inF, row);
      var masked, stray := WeightRow(c, value, MaskedDigit, outF, inF, row), WeightRow(c, value, Stray, outF, inF, row);
      DotRangeAdd(masked, stray, x, inF);
      DotRangeAdd(StrayRow(cs, value, outF, inF, row, m - 1), stray, x, inF);
      assert StrayRow(cs, value, outF, inF, row, m) == Add(StrayRow(cs, value, outF, inF, row, m - 1), stray);
    }
  }

  lemma SplitWeights(c: TermCache, value: Word -> real, outF: nat, inF: nat, row: nat)
    requires ValidCache(c, outF, inF) && row < outF
    ensures |WeightRow(c, value, Signed, outF, inF, row)| == |WeightRow(c, value, MaskedDigit, outF, inF, row)|
         == |WeightRow(c, value, Stray, outF, inF, row)| == inF
    ensures WeightRow(c, value, Signed, outF, inF, row)
         == Add(WeightRow(c, value, MaskedDigit, outF, inF, row), WeightRow(c, value, Stray, outF, inF, row))
  {
    hide Code, ScaleAt, ValidCache;
    forall col | 0 <= col < inF
      ensures WeightRow(c, value, Signed, outF, inF, row)[col]
           == WeightRow(c, value, MaskedDigit, outF, inF, row)[col] + WeightRow(c, value, Stray, outF, inF, row)[col]
    {
      CodeRange(c, outF, inF, row, col);
      var code := Code(c, outF, inF, row, col);
      assert Signed(code) == MaskedDigit(code) + Stray(code);
      var v := value(ScaleAt(c, outF, inF, row, col));
      assert v * (Signed(code) as real) == v * (MaskedDigit(code) as real) + v * (Stray(code) as real);
    }
  }

  lemma CodeRange(c: TermCache, outF: nat, inF: nat, row: nat, col: nat)
    requires ValidCache(c, outF, inF) && row < outF && col < inF
    ensures Code(c, outF, inF, row, col) < 4
  {
  }

  ghost predicate AgreeOn(cs: seq<TermCache>, value: Word -> real, outF: nat, inF: nat, x: Vec)
    requires ValidCaches(cs, outF, inF)
  {
    |x| == inF ==> DenseProduct(cs, value, MaskedDigit, outF, inF, x) == DenseProduct(cs, value, Signed, outF, inF, x)
  }

  /** The kernels give the same result on every input. */
  ghost predicate Agree(cs: seq<TermCache>, value: Word -> real, outF: nat, inF: nat)
    requires ValidCaches(cs, outF, inF)
  {
    forall x: Vec :: AgreeOn(cs, value, outF, inF, x)
  }

  /** The code-3 weights of every element cancel. */
  predicate StrayCancels(cs: seq<TermCache>, value: Word -> real, outF: nat, inF: nat)
    requires ValidCaches(cs, outF, inF)
  {
    forall row, col :: 0 <= row < outF && 0 <= col < inF ==> StrayWeight(cs, value, outF, inF, row, col, |cs|) == 0.0
  }

  /** A row that meets every vector in zero is zero, and conversely. */
  lemma StrayVanishes(cs: seq<TermCache>, value: Word -> real, outF: nat, inF: nat, row: nat, col: nat)
    requires ValidCaches(cs, outF, inF) && row < outF && col < inF
    requires Agree(cs, value, outF, inF)
    ensures StrayWeight(cs, value, outF, inF, row, col, |cs|) == 0.0
  {
    hide StrayWeight, DenseRow;
    var unit := Unit(inF, col);
    var stray := StrayRow(cs, value, outF, inF, row, |cs|);
    assert AgreeOn(cs, value, outF, inF, unit);
    assert DenseProduct(cs, value, MaskedDigit, outF, inF, unit)[row] == DenseProduct(cs, value, Signed, outF, inF, unit)[row];
    DifferenceIsStray(cs, value, outF, inF, row, unit, |cs|);
    DotUnit(stray, col);
  }

  /**
   The two kernels give the same result on every input exactly when the code-3 weights of every
   element cancel; codes past the last column never matter.
   */
  lemma KernelsAgreeExactly(cs: seq<TermCache>, value: Word -> real, outF: nat, inF: nat)
    requires ValidCaches(cs, outF, inF)
    ensures Agree(cs, value, outF, inF) <==> StrayCancels(cs, value, outF, inF)
  {
    if Agree(cs, value, outF, inF) {
      hide Agree, StrayWeight, ValidCaches;
      forall row, col | 0 <= row < outF && 0 <= col < inF
        ensures StrayWeight(cs, value, outF, inF, row, col, |cs|) == 0.0
      {
        StrayVanishes(cs, value, outF, inF, row, col);
      }
    }
    if StrayCancels(cs, value, outF, inF) {
      forall x: Vec ensures AgreeOn(cs, value, outF, inF, x) {
        if |x| == inF {
          NoStrayAgrees(cs, value, outF, inF, x);
        }
      }
    }
  }

  lemma NoStrayAgrees(cs: seq<TermCache>, value: Word -> real, outF: nat, inF: nat, x: Vec)
    requires ValidCaches(cs, outF, inF) && |x| == inF
    requires StrayCancels(cs, value, outF, inF)
    ensures DenseProduct(cs, value, MaskedDigit, outF, inF, x) == DenseProduct(cs, value, Signed, outF, inF, x)
  {
    hide StrayWeight, DenseRow, ValidCaches;
    forall row | 0 <= row < outF
      ensures DenseProduct(cs, value, MaskedDigit, outF, inF, x)[row] == DenseProduct(cs, value, Signed, outF, inF, x)[row]
    {
      DifferenceIsStray(cs, value, outF, inF, row, x, |cs|);
      DotRangeZero(StrayRow(cs, value, outF, inF, row, |cs|), x, 0, inF);
    }
  }

  /** In particular they agree whenever every code in range is 0, 1 or 2. */
  lemma {:induction false} TernaryCodesCancel(cs: seq<TermCache>, value: Word -> real, outF: nat, inF: nat, row: nat, col: nat, m: nat)
    requires ValidCaches(cs, outF, inF) && row < outF && col < inF && m <= |cs|
    requires forall t :: 0 <= t < |cs| ==> Code(cs[t], outF, inF, row, col) != 3
    ensures StrayWeight(cs, value, outF, inF, row, col, m) == 0.0
  {
    hide Code, ScaleAt, ValidCache;
    if m > 0 {
      TernaryCodesCancel(cs, value, outF, inF, row, col, m - 1);
      var c := cs[m - 1];
      assert Stray(Code(c, outF, inF, row, col)) == 0;
      assert value(ScaleAt(c, outF, inF, row, col)) * 0.0 == 0.0;
      assert WeightRow(c, value, Stray, outF, inF, row)[col] == value(ScaleAt(c, outF, inF, row, col)) * (0 as real);
    }
  }
}
