/** Encoding a ternary matrix as a TQ1 payload and loading it again. */
module Tq1RoundTrip {
  import opened Bytes
  import opened Bitplane
  import opened BitWriter
  import opened Packing
  import opened RecordFile
  import opened Tq1

  /** Five digits from a column on, zeros past the row. */
  function FiveAt(row: seq<int>, at: nat): (trits: seq<int>)
    requires TernaryRow(row)
    ensures |trits| == 5 && TernaryRow(trits)
  {
    seq(5, j requires 0 <= j < 5 => if at + j < |row| then row[at + j] else 0)
  }

  lemma FiveFit(trits: seq<int>)
    requires |trits| == 5 && TernaryRow(trits)
    ensures Encode(trits) < 243
  {
    assert Pow3(5) == 243;
  }

  /** 24 bytes of five digits each, and the scale that the loader never reads. */
  function EncodedBlock(row: seq<int>, b: nat, scale: Word): (bs: seq<Byte>)
    requires TernaryRow(row)
    ensures |bs| == TQ_STRIDE
  {
    seq(TQ_CODES, i requires 0 <= i < TQ_CODES =>
      FiveFit(FiveAt(row, b * TQ_BLOCK + 5 * i)); Encode(FiveAt(row, b * TQ_BLOCK + 5 * i)) as Byte) + EncodeWord(scale)
  }

  predicate TernaryRows(rows: seq<seq<int>>, inF: nat) {
    RowsOf(rows, inF) && forall r :: 0 <= r < |rows| ==> TernaryRow(rows[r])
  }

  /** The k-th block of the matrix, rows in order. */
  function BlockNumbered(rows: seq<seq<int>>, inF: nat, scales: nat -> Word, k: nat): (bs: seq<Byte>)
    requires TernaryRows(rows, inF) && k < |rows| * TqCount(inF)
    ensures |bs| == TQ_STRIDE
  {
    BlockPlace(TqCount(inF), k, |rows|);
    EncodedBlock(rows[k / TqCount(inF)], k % TqCount(inF), scales(k))
  }

  /** The first m blocks. */
  function EncodedBlocks(rows: seq<seq<int>>, inF: nat, scales: nat -> Word, m: nat): (bs: seq<Byte>)
    requires TernaryRows(rows, inF) && m <= |rows| * TqCount(inF)
    ensures |bs| == TQ_STRIDE * m
  {
    if m == 0 then [] else EncodedBlocks(rows, inF, scales, m - 1) + BlockNumbered(rows, inF, scales, m - 1)
  }

  /** The payload of a layer. */
  function EncodedLayer(rows: seq<seq<int>>, inF: nat, scales: nat -> Word): (bs: seq<Byte>)
    requires TernaryRows(rows, inF)
    ensures |bs| == TQ_STRIDE * (|rows| * TqCount(inF))
  {
    EncodedBlocks(rows, inF, scales, |rows| * TqCount(inF))
  }

  lemma {:induction false} EncodedBlockAt(rows: seq<seq<int>>, inF: nat, scales: nat -> Word, m: nat, k: nat)
    requires TernaryRows(rows, inF) && k < m <= |rows| * TqCount(inF)
    ensures EncodedBlocks(rows, inF, scales, m)[TQ_STRIDE * k..TQ_STRIDE * k + TQ_STRIDE] == BlockNumbered(rows, inF, scales, k)
  {
    hide BlockNumbered, EncodedBlocks, TqCount;
    EncodedNext(rows, inF, scales, m);
    var front, block := EncodedBlocks(rows, inF, scales, m - 1), BlockNumbered(rows, inF, scales, m - 1);
    SlicesOfSum(front, block, TQ_STRIDE * k, TQ_STRIDE * k + TQ_STRIDE);
    if k + 1 < m {
      EncodedBlockAt(rows, inF, scales, m - 1, k);
    }
  }

  lemma EncodedNext(rows: seq<seq<int>>, inF: nat, scales: nat -> Word, m: nat)
    requires TernaryRows(rows, inF) && 0 < m <= |rows| * TqCount(inF)
    ensures |EncodedBlocks(rows, inF, scales, m - 1)| == TQ_STRIDE * (m - 1)
    ensures |BlockNumbered(rows, inF, scales, m - 1)| == TQ_STRIDE
    ensures EncodedBlocks(rows, inF, scales, m)
         == EncodedBlocks(rows, inF, scales, m - 1) + BlockNumbered(rows, inF, scales, m - 1)
  {
    hide BlockNumbered, TqCount;
    BlockLength(rows, inF, scales, m - 1);
  }

  lemma BlockLength(rows: seq<seq<int>>, inF: nat, scales: nat -> Word, k: nat)
    requires TernaryRows(rows, inF) && k < |rows| * TqCount(inF)
    ensures |BlockNumbered(rows, inF, scales, k)| == TQ_STRIDE
  {
  }

  /** A digit of an encoded block. */
  lemma TritOfBlock(row: seq<int>, b: nat, scale: Word, rest: seq<Byte>, c: nat)
    requires TernaryRow(row) && c < TQ_BLOCK && b * TQ_BLOCK + c < |row|
    ensures TritAt(EncodedBlock(row, b, scale) + rest, c) == row[b * TQ_BLOCK + c]
  {
    hide Encode, Decode;
    var i := c / 5;
    var trits := FiveAt(row, b * TQ_BLOCK + 5 * i);
    assert (EncodedBlock(row, b, scale) + rest)[i] == Encode(trits);
    DecodeEncoded(trits);
    assert c == 5 * i + c % 5;
  }

  /** Where block b of a row lies. */
  lemma OffsetOfBlock(inF: nat, outF: nat, row: nat, b: nat)
    requires row < outF && b < TqCount(inF)
    ensures row * TqCount(inF) + b < outF * TqCount(inF)
    ensures BlockOffset(inF, row, b) == TQ_STRIDE * (row * TqCount(inF) + b)
  {
    FlatIndex(outF, TqCount(inF), row, b);
    hide TqCount;
    assert row * (TqCount(inF) * TQ_STRIDE) == TQ_STRIDE * (row * TqCount(inF));
  }

  lemma PayloadLength(rows: seq<seq<int>>, inF: nat, scales: nat -> Word)
    requires TernaryRows(rows, inF)
    ensures |EncodedLayer(rows, inF, scales)| == |rows| * (TqCount(inF) * TQ_STRIDE)
  {
    hide EncodedBlocks, TqCount;
    assert TQ_STRIDE * (|rows| * TqCount(inF)) == |rows| * (TqCount(inF) * TQ_STRIDE);
  }

  lemma StoredTritIs(rows: seq<seq<int>>, inF: nat, scales: nat -> Word, row: nat, col: nat)
    requires TernaryRows(rows, inF) && row < |rows| && col < inF
    ensures |EncodedLayer(rows, inF, scales)| >= |rows| * (TqCount(inF) * TQ_STRIDE)
    ensures StoredTrit(EncodedLayer(rows, inF, scales), |rows|, inF, row, col) == rows[row][col]
  {
    hide EncodedBlocks, EncodedBlock, TritAt;
    PayloadLength(rows, inF, scales);
    var n, b := TqCount(inF), col / TQ_BLOCK;
    var data := EncodedLayer(rows, inF, scales);
    BlockInside(|rows|, inF, row, b);
    OffsetOfBlock(inF, |rows|, row, b);
    hide TqCount;
    var k := row * n + b;
    EncodedBlockAt(rows, inF, scales, |rows| * n, k);
    BlockIndex(n, row, b);
    var tail := data[TQ_STRIDE * k + TQ_STRIDE..];
    var block := BlockNumbered(rows, inF, scales, k);
    assert block == EncodedBlock(rows[row], b, scales(k));
    assert data[TQ_STRIDE * k..] == block + tail;
    TritOfBlock(rows[row], b, scales(k), tail, col % TQ_BLOCK);
    assert b * TQ_BLOCK + col % TQ_BLOCK == col;
  }

  /** Loading finds exactly the matrix that was encoded, whatever the scales say. */
  lemma EncodedLayerLoads(rows: seq<seq<int>>, inF: nat, scales: nat -> Word)
    requires TernaryRows(rows, inF)
    ensures |EncodedLayer(rows, inF, scales)| >= |rows| * (TqCount(inF) * TQ_STRIDE)
    ensures StoredRows(EncodedLayer(rows, inF, scales), |rows|, inF) == rows
  {
    hide EncodedLayer, StoredTrit, TqCount;
    PayloadLength(rows, inF, scales);
    var data := EncodedLayer(rows, inF, scales);
    forall r | 0 <= r < |rows| ensures StoredRow(data, |rows|, inF, r) == rows[r] {
      forall c | 0 <= c < inF ensures StoredRow(data, |rows|, inF, r)[c] == rows[r][c] {
        StoredTritIs(rows, inF, scales, r, c);
      }
    }
  }
}
