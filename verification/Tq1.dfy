/** TQ1 layers: five base-3 digits to a byte (model.h) and their conversion on loading (loader.h). */
module Tq1 {
  import opened Bytes
  import opened Bitplane
  import opened BitWriter
  import opened RecordFile
  import opened Packing
  import opened BitKernels
  import BlockKernel
  import Float32

  const TQ_BLOCK := 120
  const TQ_CODES := 24
  const TQ_STRIDE := 28

  // ----- five trits to a byte

  function Pow3(n: nat): (p: nat)
    ensures p > 0
  {
    if n == 0 then 1 else 3 * Pow3(n - 1)
  }

  /** Base-3 number of trits, lowest first, with -1, 0, 1 as digits 0, 1, 2. */
  function Encode(trits: seq<int>): (v: nat)
    requires TernaryRow(trits)
    ensures v < Pow3(|trits|)
  {
    if trits == [] then 0 else trits[0] + 1 + 3 * Encode(trits[1..])
  }

  function Decode(v: nat, n: nat): (trits: seq<int>)
    ensures |trits| == n && TernaryRow(trits)
  {
    if n == 0 then [] else [v % 3 - 1] + Decode(v / 3, n - 1)
  }

  lemma {:induction false} DecodeEncoded(trits: seq<int>)
    requires TernaryRow(trits)
    ensures Decode(Encode(trits), |trits|) == trits
  {
    if trits != [] {
      DecodeEncoded(trits[1..]);
      assert Encode(trits) / 3 == Encode(trits[1..]) && Encode(trits) % 3 == trits[0] + 1;
    }
  }

  /** A byte survives decoding and encoding exactly when it is below 3^5 = 243. */
  lemma {:induction false} EncodeDecoded(v: nat, n: nat)
    ensures Encode(Decode(v, n)) == v <==> v < Pow3(n)
  {
    if n > 0 {
      EncodeDecoded(v / 3, n - 1);
      assert Decode(v, n)[1..] == Decode(v / 3, n - 1);
      assert Pow3(n) == 3 * Pow3(n - 1);
    }
  }

  /** tq1_encode_5_trits */
  method EncodeFive(trits: seq<int>) returns (val: nat)
    requires |trits| == 5 && TernaryRow(trits)
    ensures val < 243 && val == Encode(trits)
  {
    val := 0;
    var i := 5;
    while i > 0
      invariant 0 <= i <= 5 && val == Encode(trits[i..])
    {
      i := i - 1;
      assert trits[i..][1..] == trits[i + 1..];
      val := val * 3 + (trits[i] + 1);
    }
    assert trits[0..] == trits;
    assert Pow3(5) == 243;
  }

  /** tq1_decode_byte */
  method DecodeByte(byte: Byte) returns (trits: seq<int>)
    ensures trits == Decode(byte, 5)
  {
    var val: nat := byte;
    trits := [];
    for i := 0 to 5
      invariant Decode(byte, 5) == trits + Decode(val, 5 - i)
    {
      trits := trits + [val % 3 - 1];
      val := val / 3;
    }
  }

  // ----- a packed row

  /** Element k of a run of packed bytes. */
  function TritAt(packed: seq<Byte>, k: nat): (t: int)
    requires k / 5 < |packed|
    ensures -1 <= t <= 1
  {
    Decode(packed[k / 5], 5)[k % 5]
  }

  /** tq1_decode_block: the first n elements. */
  method DecodeBlock(packed: seq<Byte>, n: nat) returns (ternary: seq<int>)
    requires (n + 4) / 5 <= |packed|
    ensures |ternary| == n && forall k :: 0 <= k < n ==> ternary[k] == TritAt(packed, k)
  {
    hide Decode;
    ternary := [];
    for i := 0 to (n + 4) / 5
      invariant |ternary| == Least(5 * i, n)
      invariant forall k :: 0 <= k < |ternary| ==> ternary[k] == TritAt(packed, k)
    {
      var trits := DecodeByte(packed[i]);
      FiveTrits(packed[i]);
      var j := 0;
      while j < 5 && i * 5 + j < n
        invariant 0 <= j <= 5 && |ternary| == Least(5 * i + j, n)
        invariant forall k :: 0 <= k < |ternary| ==> ternary[k] == TritAt(packed, k)
      {
        assert (5 * i + j) / 5 == i && (5 * i + j) % 5 == j;
        ternary := ternary + [trits[j]];
        j := j + 1;
      }
    }
  }

  lemma FiveTrits(byte: Byte)
    ensures |Decode(byte, 5)| == 5
  {
  }

  function TqCount(inF: nat): nat {
    CeilDiv(inF, TQ_BLOCK)
  }

  /** Where the codes of a block of a row start. */
  function BlockOffset(inF: nat, row: nat, b: nat): nat {
    row * (TqCount(inF) * TQ_STRIDE) + b * TQ_STRIDE
  }

  lemma BlockInside(outF: nat, inF: nat, row: nat, b: nat)
    requires row < outF && b < TqCount(inF)
    ensures BlockOffset(inF, row, b) + TQ_STRIDE <= outF * (TqCount(inF) * TQ_STRIDE)
  {
    NextRow(outF, TqCount(inF) * TQ_STRIDE, row);
  }

  /** The digit that the file holds for one weight. */
  function StoredTrit(data: seq<Byte>, outF: nat, inF: nat, row: nat, col: nat): (t: int)
    requires |data| >= outF * (TqCount(inF) * TQ_STRIDE) && row < outF && col < inF
    ensures -1 <= t <= 1
  {
    BlockInside(outF, inF, row, col / TQ_BLOCK);
    TritAt(data[BlockOffset(inF, row, col / TQ_BLOCK)..], col % TQ_BLOCK)
  }

  function StoredRow(data: seq<Byte>, outF: nat, inF: nat, row: nat): (ts: seq<int>)
    requires |data| >= outF * (TqCount(inF) * TQ_STRIDE) && row < outF
    ensures |ts| == inF && TernaryRow(ts)
  {
    seq(inF, col requires 0 <= col < inF => StoredTrit(data, outF, inF, row, col))
  }

  /** The loop over the 120-element blocks of a row. */
  method DecodeRow(data: seq<Byte>, outF: nat, inF: nat, row: nat) returns (ts: seq<int>)
    requires |data| >= outF * (TqCount(inF) * TQ_STRIDE) && row < outF
    ensures ts == StoredRow(data, outF, inF, row)
  {
    hide TritAt;
    ts := [];
    for b := 0 to TqCount(inF)
      invariant |ts| == Least(b * TQ_BLOCK, inF)
      invariant forall c :: 0 <= c < |ts| ==> ts[c] == StoredTrit(data, outF, inF, row, c)
    {
      var start := b * TQ_BLOCK;
      var end := if start + TQ_BLOCK < inF then start + TQ_BLOCK else inF;
      BlockInside(outF, inF, row, b);
      var block := DecodeBlock(data[BlockOffset(inF, row, b)..], end - start);
      forall c | start <= c < end ensures block[c - start] == StoredTrit(data, outF, inF, row, c) {
        assert c / TQ_BLOCK == b && c % TQ_BLOCK == c - start;
      }
      ts := ts + block;
    }
  }

  // ----- repacking as 2-bit codes

  /** byte | (code << shift of field f), for a clear field. */
  function OrCode(b: nat, f: nat, code: nat): nat
    requires f < 4
  {
    if f == 0 then b + 64 * code else if f == 1 then b + 16 * code else if f == 2 then b + 4 * code else b + code
  }

  lemma FieldsMake(b: Byte)
    ensures Field(b, 0) < 4 && Field(b, 1) < 4 && Field(b, 2) < 4 && Field(b, 3) < 4
    ensures b == PackByte(Field(b, 0), Field(b, 1), Field(b, 2), Field(b, 3))
  {
    assert b / 4 == 4 * (b / 16) + b / 4 % 4;
    assert b / 16 == 4 * (b / 64) + b / 16 % 4;
  }

  /** Or-ing a code into a byte whose fields from f on are still clear. */
  lemma SetField(b: Byte, f: nat, code: nat)
    requires f < 4 && code < 4 && forall g :: f <= g < 4 ==> Field(b, g) == 0
    ensures OrCode(b, f, code) < 256
    ensures forall g :: 0 <= g < 4 ==> Field(OrCode(b, f, code), g) == if g == f then code else Field(b, g)
  {
    FieldsMake(b);
    hide Field, PackByte, OrCode;
    var p, q, r, s := Field(b, 0), Field(b, 1), Field(b, 2), Field(b, 3);
    var p', q', r', s' := if f == 0 then code else p, if f == 1 then code else q, if f == 2 then code else r, if f == 3 then code else s;
    assert p' < 4 && q' < 4 && r' < 4 && s' < 4;
    OrIsPack(p, q, r, s, f, code);
    PackByteFields(p', q', r', s');
  }

  lemma OrIsPack(p: nat, q: nat, r: nat, s: nat, f: nat, code: nat)
    requires p < 4 && q < 4 && r < 4 && s < 4 && f < 4 && code < 4
    requires (f <= 0 ==> p == 0) && (f <= 1 ==> q == 0) && (f <= 2 ==> r == 0) && (f <= 3 ==> s == 0)
    ensures OrCode(PackByte(p, q, r, s), f, code)
      == PackByte(if f == 0 then code else p, if f == 1 then code else q, if f == 2 then code else r, if f == 3 then code else s)
  {
  }

  /** The codes 0, 1, 2 of one 128-column block; elements past the row keep code 0. */
  method RepackBlock(row: seq<int>, b: nat) returns (packed: array<Byte>)
    requires TernaryRow(row) && b * QK < |row|
    ensures fresh(packed) && packed.Length == CODE_BYTES
    ensures forall c :: 0 <= c < QK ==> CodeAt(packed[..], c) == if b * QK + c < |row| then row[b * QK + c] + 1 else 0
  {
    hide Field;
    packed := new Byte[CODE_BYTES](_ => 0);
    ZeroFields();
    var size := if b * QK + QK < |row| then QK else |row| - b * QK;
    for j := 0 to size
      invariant forall c :: 0 <= c < QK ==> Field(packed[c / 4], c % 4) == if c < j then row[b * QK + c] + 1 else 0
    {
      var code := row[b * QK + j] + 1;
      var byte := packed[j / 4];
      forall g | j % 4 <= g < 4 ensures Field(byte, g) == 0 {
        var c := j / 4 * 4 + g;
        assert c / 4 == j / 4 && c % 4 == g && c >= j;
      }
      SetField(byte, j % 4, code);
      packed[j / 4] := OrCode(byte, j % 4, code);
      SameFields(j);
    }
  }

  lemma SameFields(j: nat)
    ensures forall c: nat :: c / 4 == j / 4 && c % 4 == j % 4 ==> c == j
  {
  }

  lemma ZeroFields()
    ensures Field(0, 0) == 0 && Field(0, 1) == 0 && Field(0, 2) == 0 && Field(0, 3) == 0
  {
  }

  /** The scale the loader computes: the largest magnitude in the block, or 1, which is always 1. */
  method BlockScale(row: seq<int>, b: nat) returns (scale: Word)
    requires TernaryRow(row) && b * QK < |row|
    ensures scale == Float32.FloatOfInt(1)
  {
    var size := if b * QK + QK < |row| then QK else |row| - b * QK;
    var maxAbs := 0;
    for j := 0 to size
      invariant 0 <= maxAbs <= 1
    {
      var v := if row[b * QK + j] < 0 then -row[b * QK + j] else row[b * QK + j];
      if v > maxAbs {
        maxAbs := v;
      }
    }
    scale := if maxAbs > 0 then Float32.FloatOfInt(maxAbs) else Float32.FloatOfInt(1);
  }

  /** Block b of a row, holding its digits at scale 1. */
  predicate HoldsRow(block: BlockTerm, row: seq<int>, b: nat) {
    && |block.packed| == CODE_BYTES && block.scale == Float32.FloatOfInt(1)
    && forall c :: 0 <= c < QK && b * QK + c < |row| ==> BlockKernel.Signed(CodeAt(block.packed, c)) == row[b * QK + c]
  }

  /** Loading a ternary TQ1 layer: decoded once, kept as 2-bit blocks and as bitplane words. */
  method ConvertLayer(data: seq<Byte>, outF: nat, inF: nat) returns (blocks: seq<BlockTerm>, planes: Body)
    requires |data| >= outF * (TqCount(inF) * TQ_STRIDE)
    ensures |blocks| == outF * BlockCount(inF)
    ensures forall k :: 0 <= k < |blocks| ==> HoldsBlock(blocks[k], data, outF, inF, k)
    ensures planes == Bitplanes(1, [BitTerm(0, RowsWords(StoredRows(data, outF, inF)))])
  {
    hide StoredRow, HoldsRow, Float32.FloatOfInt;
    var rows: seq<seq<int>> := [];
    for row := 0 to outF
      invariant rows == StoredRows(data, outF, inF)[..row]
    {
      var ts := DecodeRow(data, outF, inF, row);
      rows := rows + [ts];
    }
    assert rows == StoredRows(data, outF, inF);
    var n := BlockCount(inF);
    blocks := [];
    for row := 0 to outF
      invariant |blocks| == row * n
      invariant forall k :: 0 <= k < |blocks| ==> k < outF * n && HoldsBlock(blocks[k], data, outF, inF, k)
    {
      NextRow(outF, n, row);
      StoredRowShape(data, outF, inF, row);
      for b := 0 to n
        invariant |blocks| == row * n + b
        invariant forall k :: 0 <= k < |blocks| ==> k < outF * n && HoldsBlock(blocks[k], data, outF, inF, k)
      {
        BlockStartsInRow(inF, b);
        var packed := RepackBlock(rows[row], b);
        var scale := BlockScale(rows[row], b);
        RowHeld(BlockTerm(packed[..], scale), rows[row], b);
        BlockIndex(n, row, b);
        FlatIndex(outF, n, row, b);
        blocks := blocks + [BlockTerm(packed[..], scale)];
      }
    }
    forall r | 0 <= r < outF ensures |rows[r]| == inF && TernaryRow(rows[r]) {
      StoredRowShape(data, outF, inF, r);
    }
    var combined := MarkRows(rows, inF);
    planes := Bitplanes(1, [BitTerm(0, combined[..])]);
  }

  function StoredRows(data: seq<Byte>, outF: nat, inF: nat): (rows: seq<seq<int>>)
    requires |data| >= outF * (TqCount(inF) * TQ_STRIDE)
    ensures |rows| == outF && RowsOf(rows, inF)
  {
    seq(outF, r requires 0 <= r < outF => StoredRow(data, outF, inF, r))
  }

  /** Block k of the layer holds the digits that the file stores for its row and columns. */
  predicate HoldsBlock(block: BlockTerm, data: seq<Byte>, outF: nat, inF: nat, k: nat)
    requires |data| >= outF * (TqCount(inF) * TQ_STRIDE)
  {
    HoldsRowOf(block, StoredRows(data, outF, inF), BlockCount(inF), k)
  }

  /** The row and the place in it of the k-th block, n blocks to a row. */
  predicate HoldsRowOf(block: BlockTerm, rows: seq<seq<int>>, n: nat, k: nat) {
    n > 0 && k / n < |rows| && HoldsRow(block, rows[k / n], k % n)
  }

  lemma StoredRowShape(data: seq<Byte>, outF: nat, inF: nat, row: nat)
    requires |data| >= outF * (TqCount(inF) * TQ_STRIDE) && row < outF
    ensures |StoredRow(data, outF, inF, row)| == inF && TernaryRow(StoredRow(data, outF, inF, row))
  {
  }

  lemma RowHeld(block: BlockTerm, row: seq<int>, b: nat)
    requires |block.packed| == CODE_BYTES && block.scale == Float32.FloatOfInt(1)
    requires forall c :: 0 <= c < QK ==> CodeAt(block.packed, c) == if b * QK + c < |row| then row[b * QK + c] + 1 else 0
    ensures HoldsRow(block, row, b)
  {
    hide CodeAt;
  }

  /** All three forms of a TQ1 layer denote the same ternary matrix. */
  lemma SameMatrix(data: seq<Byte>, outF: nat, inF: nat, block: BlockTerm, term: BitTerm, row: nat, col: nat)
    requires |data| >= outF * (TqCount(inF) * TQ_STRIDE) && row < outF && col < inF
    requires row * BlockCount(inF) + col / QK < outF * BlockCount(inF)
    requires HoldsBlock(block, data, outF, inF, row * BlockCount(inF) + col / QK)
    requires term.combined == RowsWords(StoredRows(data, outF, inF))
    ensures |block.packed| == CODE_BYTES && FitsMatrix(term, outF, inF)
    ensures BlockKernel.Signed(CodeAt(block.packed, col % QK)) == StoredTrit(data, outF, inF, row, col)
    ensures DigitRow(term, outF, inF, row)[col] == StoredTrit(data, outF, inF, row, col) as real
  {
    hide StoredTrit, CodeAt, RowsWords, FitsMatrix, DigitRow;
    BlockKernel.ColumnBlock(inF, col);
    BlockIndex(BlockCount(inF), row, col / QK);
    assert col / QK * QK + col % QK == col;
    var rows := StoredRows(data, outF, inF);
    assert rows[row] == StoredRow(data, outF, inF, row);
    StoredRowShape(data, outF, inF, row);
    assert rows[row][col] == StoredTrit(data, outF, inF, row, col);
    WordsGiveDigits(term, rows, inF, row, col);
  }
}
