/** Packing block-scaled ternary terms for the model file (als_decompose.cpp), and what the loader reads back. */
module Packing {
  import opened Bytes
  import opened Bitplane
  import opened RecordFile

  /** Digits of all rows, and one float per block of columns, shared by the rows. */
  datatype AlsTerm = AlsTerm(scales: seq<Word>, ternary: seq<int>)

  predicate FitsShape(term: AlsTerm, outF: nat, inF: nat) {
    |term.scales| == BlockCount(inF) && |term.ternary| == outF * inF
  }

  /** -1, 0, 1 as 0, 1, 2; anything else is packed as 0. */
  function DigitCode(v: int): (code: nat)
    ensures code < 3
  {
    if v == -1 then 0 else if v == 1 then 2 else 1
  }

  /** The code of element c of a packed block. */
  function CodeAt(packed: seq<Byte>, c: nat): (code: nat)
    requires c < 4 * |packed|
    ensures code < 4
  {
    Field(packed[c / 4], c % 4)
  }

  function PackByte(a: nat, b: nat, c: nat, d: nat): Byte
    requires a < 4 && b < 4 && c < 4 && d < 4
  {
    64 * a + 16 * b + 4 * c + d
  }

  lemma PackByteFields(a: nat, b: nat, c: nat, d: nat)
    requires a < 4 && b < 4 && c < 4 && d < 4
    ensures Field(PackByte(a, b, c, d), 0) == a && Field(PackByte(a, b, c, d), 1) == b
    ensures Field(PackByte(a, b, c, d), 2) == c && Field(PackByte(a, b, c, d), 3) == d
  {
    var v, ab, abc := PackByte(a, b, c, d), 4 * a + b, 16 * a + 4 * b + c;
    assert v / 64 == a;
    assert v / 16 == ab && ab % 4 == b;
    assert v / 4 == abc && abc % 4 == c;
    assert v == 4 * abc + d;
  }

  // ----- one block

  /** Code c of block b of a row; elements past the row are packed as zero digits. */
  function BlockCode(row: seq<int>, b: nat, c: nat): (code: nat)
    ensures code < 4
  {
    if b * QK + c < |row| then DigitCode(row[b * QK + c]) else 1
  }

  function BlockCodes(row: seq<int>, b: nat): (bs: seq<Byte>)
    ensures |bs| == CODE_BYTES
  {
    seq(CODE_BYTES, g requires 0 <= g < CODE_BYTES => PackByte(
      BlockCode(row, b, 4 * g), BlockCode(row, b, 4 * g + 1), BlockCode(row, b, 4 * g + 2), BlockCode(row, b, 4 * g + 3)))
  }

  /** A packed block holds the codes of its row. */
  lemma BlockCodesHold(row: seq<int>, b: nat, c: nat)
    requires c < QK
    ensures CodeAt(BlockCodes(row, b), c) == BlockCode(row, b, c)
  {
    hide BlockCode, PackByte, Field, DigitCode;
    var g := c / 4;
    CodeRange(row, b, 4 * g);
    PackByteFields(BlockCode(row, b, 4 * g), BlockCode(row, b, 4 * g + 1), BlockCode(row, b, 4 * g + 2), BlockCode(row, b, 4 * g + 3));
    assert c == 4 * g + c % 4;
  }

  /** The code buffer of a block: 1 everywhere, then the codes of the columns that exist. */
  method FillCodes(row: seq<int>, b: nat, codes: array<int>)
    requires codes.Length == QK && b * QK < |row|
    modifies codes
    ensures forall k :: 0 <= k < QK ==> codes[k] == BlockCode(row, b, k)
  {
    hide DigitCode;
    var start := b * QK;
    var end := if start + QK < |row| then start + QK else |row|;
    for c := 0 to QK
      invariant forall k :: 0 <= k < c ==> codes[k] == 1
    {
      codes[c] := 1;
    }
    for c := 0 to end - start
      invariant forall k :: 0 <= k < QK ==> codes[k] == if k < c then DigitCode(row[start + k]) else 1
    {
      codes[c] := DigitCode(row[start + c]);
    }
  }

  /** Four codes to a byte, then the scale. */
  method PackOneBlock(row: seq<int>, b: nat, scale: Word, codes: array<int>, dst: array<Byte>, off: nat)
    requires codes.Length == QK && off + BLOCK_BYTES <= dst.Length && b * QK < |row|
    modifies codes, dst
    ensures dst[..] == old(dst[..])[..off] + (BlockCodes(row, b) + EncodeWord(scale)) + old(dst[..])[off + BLOCK_BYTES..]
  {
    hide EncodeWord, PackByte, BlockCode;
    FillCodes(row, b, codes);
    PackCodes(row, b, codes, dst, off);
    PutWord(dst, off + CODE_BYTES, scale);
    EncodeWordLength(scale);
  }

  method PackCodes(row: seq<int>, b: nat, codes: array<int>, dst: array<Byte>, off: nat)
    requires codes.Length == QK && off + CODE_BYTES <= dst.Length
    requires forall k :: 0 <= k < QK ==> codes[k] == BlockCode(row, b, k)
    modifies dst
    ensures dst[..] == old(dst[..])[..off] + BlockCodes(row, b) + old(dst[..])[off + CODE_BYTES..]
  {
    hide PackByte, BlockCode, DigitCode, BlockCodes;
    BlockCodesAt(row, b);
    for g := 0 to CODE_BYTES
      invariant forall k :: 0 <= k < g ==> dst[off + k] == BlockCodes(row, b)[k]
      invariant forall k :: 0 <= k < off || off + g <= k < dst.Length ==> dst[k] == old(dst[..])[k]
    {
      CodeRange(row, b, 4 * g);
      dst[off + g] := PackByte(codes[4 * g], codes[4 * g + 1], codes[4 * g + 2], codes[4 * g + 3]);
    }
  }

  lemma BlockCodesAt(row: seq<int>, b: nat)
    ensures |BlockCodes(row, b)| == CODE_BYTES
    ensures forall g :: 0 <= g < CODE_BYTES ==>
      BlockCode(row, b, 4 * g) < 4 && BlockCode(row, b, 4 * g + 1) < 4
      && BlockCode(row, b, 4 * g + 2) < 4 && BlockCode(row, b, 4 * g + 3) < 4
      && BlockCodes(row, b)[g] == PackByte(
        BlockCode(row, b, 4 * g), BlockCode(row, b, 4 * g + 1), BlockCode(row, b, 4 * g + 2), BlockCode(row, b, 4 * g + 3))
  {
    hide PackByte;
  }

  lemma CodeRange(row: seq<int>, b: nat, c: nat)
    ensures BlockCode(row, b, c) < 4 && BlockCode(row, b, c + 1) < 4
    ensures BlockCode(row, b, c + 2) < 4 && BlockCode(row, b, c + 3) < 4
  {
  }

  // ----- one term

  function RowOf(term: AlsTerm, outF: nat, inF: nat, r: nat): (row: seq<int>)
    requires |term.ternary| == outF * inF && r < outF
    ensures |row| == inF
  {
    MulMonotone(r + 1, outF, inF);
    assert (r + 1) * inF == r * inF + inF;
    term.ternary[r * inF..r * inF + inF]
  }

  /** Row and column of the k-th block of a matrix. */
  lemma BlockPlace(n: nat, k: nat, outF: nat)
    requires k < outF * n
    ensures n > 0 && k / n < outF && k % n < n
  {
    assert n == 0 ==> outF * n == 0;
    if n > 0 {
      MulMonotone(outF, k / n, n);
      QuotientTimes(k, n);
    }
  }

  lemma QuotientTimes(k: nat, n: nat)
    requires n > 0
    ensures k / n * n <= k
  {
  }

  lemma BlockIndex(n: nat, r: nat, b: nat)
    requires b < n
    ensures (r * n + b) / n == r && (r * n + b) % n == b
  {
    EvenQuotient(r, b, n);
    assert (r * n + b) / n * n + (r * n + b) % n == r * n + b;
  }

  /** Block k of a term, as the loader will present it. */
  function TermBlock(term: AlsTerm, outF: nat, inF: nat, k: nat): BlockTerm
    requires FitsShape(term, outF, inF) && k < outF * BlockCount(inF)
  {
    var n := BlockCount(inF);
    BlockPlace(n, k, outF);
    BlockTerm(BlockCodes(RowOf(term, outF, inF, k / n), k % n), term.scales[k % n])
  }

  function BlockBytes(block: BlockTerm): seq<Byte> {
    block.packed + EncodeWord(block.scale)
  }

  /** The first m blocks of a term. */
  function TermBytes(term: AlsTerm, outF: nat, inF: nat, m: nat): (bs: seq<Byte>)
    requires FitsShape(term, outF, inF) && m <= outF * BlockCount(inF)
    ensures |bs| == BLOCK_BYTES * m
  {
    if m == 0 then [] else TermBytes(term, outF, inF, m - 1) + BlockBytes(TermBlock(term, outF, inF, m - 1))
  }

  /** pack_als_block_into: the rows and blocks of a term, written at base. */
  method PackBlockInto(term: AlsTerm, dst: array<Byte>, base: nat, outF: nat, inF: nat) returns (total: nat)
    requires FitsShape(term, outF, inF) && base + BLOCK_BYTES * (outF * BlockCount(inF)) <= dst.Length
    modifies dst
    ensures total == BLOCK_BYTES * (outF * BlockCount(inF))
    ensures dst[..] == old(dst[..])[..base] + TermBytes(term, outF, inF, outF * BlockCount(inF)) + old(dst[..])[base + total..]
  {
    hide TermBytes, BlockCount, Packed, FitsShape;
    var n := BlockCount(inF);
    var codes := new int[QK];
    ghost var was := dst[..];
    NothingPacked(term, was, base, outF, inF);
    for row := 0 to outF
      invariant |was| == dst.Length && 0 <= row * n <= outF * n
      invariant Packed(was, dst[..], term, base, outF, inF, row * n)
    {
      NextRow(outF, n, row);
      PackRow(term, dst, base, outF, inF, row, codes, was);
    }
    total := BLOCK_BYTES * (outF * n);
    AllPacked(was, dst[..], term, base, outF, inF);
  }

  /** The blocks of one row. */
  method PackRow(term: AlsTerm, dst: array<Byte>, base: nat, outF: nat, inF: nat, row: nat, codes: array<int>, ghost was: seq<Byte>)
    requires FitsShape(term, outF, inF) && row < outF && codes.Length == QK
    requires base + BLOCK_BYTES * (outF * BlockCount(inF)) <= dst.Length == |was|
    requires 0 <= row * BlockCount(inF) <= (row + 1) * BlockCount(inF) <= outF * BlockCount(inF)
    requires Packed(was, dst[..], term, base, outF, inF, row * BlockCount(inF))
    modifies dst, codes
    ensures Packed(was, dst[..], term, base, outF, inF, (row + 1) * BlockCount(inF))
  {
    hide BlockCodes, EncodeWord, TermBytes, BlockCount, Packed;
    var n := BlockCount(inF);
    NextRow(outF, n, row);
    ghost var k := row * n;
    for b := 0 to n
      invariant k == row * n + b <= outF * n && Packed(was, dst[..], term, base, outF, inF, k)
    {
      FlatIndex(outF, n, row, b);
      ghost var before := dst[..];
      var off := row * (n * BLOCK_BYTES) + b * BLOCK_BYTES;
      Regroup(row, BLOCK_BYTES, n);
      assert off == BLOCK_BYTES * k;
      BlockStartsInRow(inF, b);
      PackOneBlock(RowOf(term, outF, inF, row), b, term.scales[b], codes, dst, base + off);
      BlockPacked(was, before, dst[..], term, base, outF, inF, row, b);
      k := k + 1;
    }
  }

  lemma AllPacked(was: seq<Byte>, now: seq<Byte>, term: AlsTerm, base: nat, outF: nat, inF: nat)
    requires FitsShape(term, outF, inF) && base + BLOCK_BYTES * (outF * BlockCount(inF)) <= |was|
    requires Packed(was, now, term, base, outF, inF, outF * BlockCount(inF))
    ensures now == was[..base] + TermBytes(term, outF, inF, outF * BlockCount(inF))
                   + was[base + BLOCK_BYTES * (outF * BlockCount(inF))..]
  {
  }

  lemma BlockStartsInRow(inF: nat, b: nat)
    requires b < BlockCount(inF)
    ensures b * QK < inF
  {
  }

  /** The first k blocks of a term have been written at base. */
  ghost predicate Packed(was: seq<Byte>, now: seq<Byte>, term: AlsTerm, base: nat, outF: nat, inF: nat, k: nat)
    requires FitsShape(term, outF, inF) && k <= outF * BlockCount(inF) && base + BLOCK_BYTES * k <= |was|
  {
    now == was[..base] + TermBytes(term, outF, inF, k) + was[base + BLOCK_BYTES * k..]
  }

  lemma NothingPacked(term: AlsTerm, was: seq<Byte>, base: nat, outF: nat, inF: nat)
    requires FitsShape(term, outF, inF) && base <= |was|
    ensures Packed(was, was, term, base, outF, inF, 0)
  {
  }

  lemma TermBlockIs(term: AlsTerm, outF: nat, inF: nat, r: nat, b: nat)
    requires FitsShape(term, outF, inF) && r < outF && b < BlockCount(inF)
    ensures r * BlockCount(inF) + b < outF * BlockCount(inF)
    ensures TermBlock(term, outF, inF, r * BlockCount(inF) + b) == BlockTerm(BlockCodes(RowOf(term, outF, inF, r), b), term.scales[b])
  {
    hide BlockCodes, RowOf, BlockCount;
    FlatIndex(outF, BlockCount(inF), r, b);
    BlockIndex(BlockCount(inF), r, b);
  }

  lemma BlockPacked(was: seq<Byte>, before: seq<Byte>, after: seq<Byte>, term: AlsTerm, base: nat, outF: nat, inF: nat,
                    row: nat, b: nat)
    requires FitsShape(term, outF, inF) && row < outF && b < BlockCount(inF)
    requires row * BlockCount(inF) + b < outF * BlockCount(inF)
    requires base + BLOCK_BYTES * (row * BlockCount(inF) + b) + BLOCK_BYTES <= |was|
    requires Packed(was, before, term, base, outF, inF, row * BlockCount(inF) + b)
    requires var at := base + BLOCK_BYTES * (row * BlockCount(inF) + b);
      after == before[..at] + (BlockCodes(RowOf(term, outF, inF, row), b) + EncodeWord(term.scales[b])) + before[at + BLOCK_BYTES..]
    ensures Packed(was, after, term, base, outF, inF, row * BlockCount(inF) + b + 1)
  {
    hide BlockCodes, EncodeWord, RowOf, BlockCount, TermBlock;
    var k := row * BlockCount(inF) + b;
    TermBlockIs(term, outF, inF, row, b);
    BlockCodesAt(RowOf(term, outF, inF, row), b);
    EncodeWordLength(term.scales[b]);
    SplicedBlock(was, before, after, base, TermBytes(term, outF, inF, k), BlockBytes(TermBlock(term, outF, inF, k)));
  }

  lemma SplicedBlock(was: seq<Byte>, before: seq<Byte>, after: seq<Byte>, base: nat, done: seq<Byte>, block: seq<Byte>)
    requires base + |done| + |block| <= |was|
    requires before == was[..base] + done + was[base + |done|..]
    requires after == before[..base + |done|] + block + before[base + |done| + |block|..]
    ensures after == was[..base] + (done + block) + was[base + |done| + |block|..]
  {
  }

  /** Block k of the packed bytes. */
  lemma {:induction false} TermBytesAt(term: AlsTerm, outF: nat, inF: nat, m: nat, k: nat)
    requires FitsShape(term, outF, inF) && k < m <= outF * BlockCount(inF)
    ensures TermBytes(term, outF, inF, m)[BLOCK_BYTES * k..BLOCK_BYTES * k + BLOCK_BYTES] == BlockBytes(TermBlock(term, outF, inF, k))
  {
    hide BlockBytes, TermBlock, TermBytes, BlockCount;
    TermBytesNext(term, outF, inF, m);
    var front, block := TermBytes(term, outF, inF, m - 1), BlockBytes(TermBlock(term, outF, inF, m - 1));
    SlicesOfSum(front, block, BLOCK_BYTES * k, BLOCK_BYTES * k + BLOCK_BYTES);
    if k + 1 < m {
      TermBytesAt(term, outF, inF, m - 1, k);
    }
  }

  lemma TermBytesNext(term: AlsTerm, outF: nat, inF: nat, m: nat)
    requires FitsShape(term, outF, inF) && 0 < m <= outF * BlockCount(inF)
    ensures |TermBytes(term, outF, inF, m - 1)| == BLOCK_BYTES * (m - 1)
    ensures |BlockBytes(TermBlock(term, outF, inF, m - 1))| == BLOCK_BYTES
    ensures TermBytes(term, outF, inF, m) == TermBytes(term, outF, inF, m - 1) + BlockBytes(TermBlock(term, outF, inF, m - 1))
  {
    hide TermBlock, BlockCount, EncodeWord;
    TermBlockShape(term, outF, inF, m - 1);
    EncodeWordLength(TermBlock(term, outF, inF, m - 1).scale);
  }

  /** A slice of a sum that lies in one of its parts. */
  lemma SlicesOfSum(u: seq<Byte>, v: seq<Byte>, lo: nat, hi: nat)
    requires lo <= hi <= |u| + |v|
    ensures hi <= |u| ==> (u + v)[lo..hi] == u[lo..hi]
    ensures lo == |u| && hi == |u| + |v| ==> (u + v)[lo..hi] == v
  {
  }

  function TermBlocks(term: AlsTerm, outF: nat, inF: nat): seq<BlockTerm>
    requires FitsShape(term, outF, inF)
  {
    seq(outF * BlockCount(inF), k requires 0 <= k < outF * BlockCount(inF) => TermBlock(term, outF, inF, k))
  }

  lemma BlockBytesRead(data: seq<Byte>, k: nat, block: BlockTerm)
    requires BLOCK_BYTES * (k + 1) <= |data| && |block.packed| == CODE_BYTES
    requires data[BLOCK_BYTES * k..BLOCK_BYTES * k + BLOCK_BYTES] == BlockBytes(block)
    ensures BlockAt(data, k) == block
  {
    hide EncodeWord, WordAt;
    var at := BLOCK_BYTES * k;
    EncodeWordLength(block.scale);
    var cell := data[at..at + BLOCK_BYTES];
    assert data[at..at + CODE_BYTES] == cell[..CODE_BYTES] == block.packed;
    assert data[at + CODE_BYTES..at + CODE_BYTES + 4] == cell[CODE_BYTES..] == EncodeWord(block.scale);
    WordAtSlice(data, at + CODE_BYTES, block.scale);
  }

  /** The packed bytes of one term; the loader takes fewer than 2^31 of them. */
  function BlobBytes(outF: nat, inF: nat): nat {
    BLOCK_BYTES * (outF * BlockCount(inF))
  }

  /** The loader reads a packed term back block by block, when its length fits an int. */
  lemma TermReadsBack(term: AlsTerm, outF: nat, inF: nat)
    requires FitsShape(term, outF, inF) && BlobBytes(outF, inF) < 0x1_0000_0000
    ensures ParseBlockTerms(TermBytes(term, outF, inF, outF * BlockCount(inF)), outF, inF)
         == if BlobBytes(outF, inF) < 0x8000_0000 then Some(TermBlocks(term, outF, inF)) else None
  {
    hide TermBlock, BlockBytes, BlockCodes, BlockAt, AsInt, BlockCount;
    var n := outF * BlockCount(inF);
    var data := TermBytes(term, outF, inF, n);
    forall k | 0 <= k < n ensures BlockAt(data, k) == TermBlock(term, outF, inF, k) {
      TermBytesAt(term, outF, inF, n, k);
      TermBlockShape(term, outF, inF, k);
      BlockBytesRead(data, k, TermBlock(term, outF, inF, k));
    }
    assert TermBlocks(term, outF, inF) == seq(n, k requires 0 <= k < n => BlockAt(data, k));
  }

  lemma TermBlockShape(term: AlsTerm, outF: nat, inF: nat, k: nat)
    requires FitsShape(term, outF, inF) && k < outF * BlockCount(inF)
    ensures |TermBlock(term, outF, inF, k).packed| == CODE_BYTES
  {
  }

  // ----- the multi-term container

  predicate Packable(terms: seq<AlsTerm>, outF: nat, inF: nat) {
    && |terms| < 0x1_0000_0000 && BlobBytes(outF, inF) < 0x1_0000_0000
    && forall t :: 0 <= t < |terms| ==> FitsShape(terms[t], outF, inF)
  }

  function WholeTerm(term: AlsTerm, outF: nat, inF: nat): seq<Byte>
    requires FitsShape(term, outF, inF)
  {
    TermBytes(term, outF, inF, outF * BlockCount(inF))
  }

  /** The terms with their lengths in front. */
  function TermsBytes(terms: seq<AlsTerm>, outF: nat, inF: nat): seq<Byte>
    requires Packable(terms, outF, inF)
  {
    if terms == [] then []
    else EncodeWord(BlobBytes(outF, inF)) + WholeTerm(terms[0], outF, inF) + TermsBytes(terms[1..], outF, inF)
  }

  function ContainerBytes(terms: seq<AlsTerm>, outF: nat, inF: nat): seq<Byte>
    requires Packable(terms, outF, inF)
  {
    EncodeWord(|terms|) + TermsBytes(terms, outF, inF)
  }

  /** pack_als_block_terms */
  method PackTerms(terms: seq<AlsTerm>, outF: nat, inF: nat) returns (buf: seq<Byte>)
    requires Packable(terms, outF, inF)
    ensures buf == ContainerBytes(terms, outF, inF)
  {
    hide EncodeWord, TermBytes, BlockCount, WholeTerm;
    buf := EncodeWord(|terms|);
    ghost var rest := TermsBytes(terms, outF, inF);
    assert terms[0..] == terms;
    for t := 0 to |terms|
      invariant buf + TermsBytes(terms[t..], outF, inF) == ContainerBytes(terms, outF, inF)
    {
      var len := BLOCK_BYTES * (outF * BlockCount(inF));
      var blob := new Byte[len](_ => 0);
      var total := PackBlockInto(terms[t], blob, 0, outF, inF);
      WholeBlob(blob[..], terms[t], outF, inF);
      assert terms[t..][1..] == terms[t + 1..];
      buf := buf + EncodeWord(len) + blob[..];
    }
    assert TermsBytes(terms[|terms|..], outF, inF) == [];
  }

  lemma WholeBlob(blob: seq<Byte>, term: AlsTerm, outF: nat, inF: nat)
    requires FitsShape(term, outF, inF)
    requires blob == [] + TermBytes(term, outF, inF, outF * BlockCount(inF)) + []
    ensures blob == WholeTerm(term, outF, inF)
  {
  }

  function BlocksOf(terms: seq<AlsTerm>, outF: nat, inF: nat): (sets: seq<seq<BlockTerm>>)
    requires Packable(terms, outF, inF)
    ensures |sets| == |terms|
  {
    seq(|terms|, t requires 0 <= t < |terms| => TermBlocks(terms[t], outF, inF))
  }

  lemma {:induction false} TermsReadBack(terms: seq<AlsTerm>, outF: nat, inF: nat)
    requires Packable(terms, outF, inF)
    ensures ParseTerms(TermsBytes(terms, outF, inF), |terms|, outF, inF)
         == if terms == [] || BlobBytes(outF, inF) < 0x8000_0000 then Some(BlocksOf(terms, outF, inF)) else None
  {
    hide EncodeWord, TermBytes, TakeWord, TakeBytes, ParseBlockTerms, TermBlocks;
    if terms != [] {
      var blob, more := WholeTerm(terms[0], outF, inF), TermsBytes(terms[1..], outF, inF);
      WholeTermLength(terms[0], outF, inF);
      assert TermsBytes(terms, outF, inF) == EncodeWord(|blob|) + (blob + more);
      TakeEncodedWord(|blob|, blob + more);
      TakePrefix(blob, more);
      TermReadsBack(terms[0], outF, inF);
      TermsReadBack(terms[1..], outF, inF);
      assert BlocksOf(terms, outF, inF) == [TermBlocks(terms[0], outF, inF)] + BlocksOf(terms[1..], outF, inF);
    }
  }

  lemma WholeTermLength(term: AlsTerm, outF: nat, inF: nat)
    requires FitsShape(term, outF, inF)
    ensures |WholeTerm(term, outF, inF)| == BlobBytes(outF, inF)
  {
  }

  /** What the loader takes of what the packer packs: 1 to 32 terms of fewer than 2^31 bytes each. */
  predicate LoaderTakes(count: nat, outF: nat, inF: nat) {
    1 <= count <= MAX_TERMS && BlobBytes(outF, inF) < 0x8000_0000
  }

  /** A container reads back as the blocks of its terms, and is refused exactly when the loader does not take it. */
  lemma ContainerReadsBack(terms: seq<AlsTerm>, outF: nat, inF: nat)
    requires Packable(terms, outF, inF)
    ensures ParsePayload(2, ContainerBytes(terms, outF, inF), outF, inF)
         == if LoaderTakes(|terms|, outF, inF) then Some(Blocks(BlocksOf(terms, outF, inF))) else None
  {
    hide EncodeWord, TermsBytes, TakeWord, ParseTerms, BlocksOf, BlobBytes;
    TakeEncodedWord(|terms|, TermsBytes(terms, outF, inF));
    TermsReadBack(terms, outF, inF);
  }

  /** The length of a container: its count, and per term a length and a blob. */
  function ContainerLength(count: nat, outF: nat, inF: nat): nat {
    4 + count * (4 + BlobBytes(outF, inF))
  }

  lemma {:induction false} TermsLength(terms: seq<AlsTerm>, outF: nat, inF: nat)
    requires Packable(terms, outF, inF)
    ensures |TermsBytes(terms, outF, inF)| == |terms| * (4 + BlobBytes(outF, inF))
  {
    hide BlobBytes, EncodeWord, WholeTerm;
    var each := 4 + BlobBytes(outF, inF);
    if terms != [] {
      TermsLength(terms[1..], outF, inF);
      WholeTermLength(terms[0], outF, inF);
      EncodeWordLength(BlobBytes(outF, inF));
      NextRow(|terms|, each, |terms| - 1);
    }
  }

  // ----- from the converter to the loader

  /** What a record carries: a float tensor, one packed term, or a container of packed terms. */
  datatype Content = FloatTensor(weights: seq<Word>) | OneTerm(term: AlsTerm) | TermSet(terms: seq<AlsTerm>)

  /** The terms that a record's weights are the sum of; none for a float tensor. */
  function TermsOf(content: Content): seq<AlsTerm> {
    match content
    case FloatTensor(_) => []
    case OneTerm(term) => [term]
    case TermSet(terms) => terms
  }

  datatype Converted = Converted(name: string, outF: nat, inF: nat, content: Content)

  /** Layer types 1, 0 and 2. */
  function TypeOf(content: Content): (layerType: Byte)
    ensures layerType <= 2
  {
    match content
    case FloatTensor(_) => 1
    case OneTerm(_) => 0
    case TermSet(_) => 2
  }

  predicate ContentFits(content: Content, outF: nat, inF: nat) {
    match content
    case FloatTensor(_) => true
    case OneTerm(term) => FitsShape(term, outF, inF) && BlobBytes(outF, inF) < 0x1_0000_0000
    case TermSet(terms) => Packable(terms, outF, inF)
  }

  function ContentBytes(content: Content, outF: nat, inF: nat): seq<Byte>
    requires ContentFits(content, outF, inF)
  {
    match content
    case FloatTensor(weights) => EncodeWords(weights)
    case OneTerm(term) => WholeTerm(term, outF, inF)
    case TermSet(terms) => ContainerBytes(terms, outF, inF)
  }

  predicate Convertible(c: Converted) {
    && ContentFits(c.content, c.outF, c.inF)
    && Writable(OutLayer(c.name, c.outF, c.inF, TypeOf(c.content), ContentBytes(c.content, c.outF, c.inF)))
  }

  function ToRecord(c: Converted): (l: OutLayer)
    requires Convertible(c)
    ensures Writable(l)
  {
    OutLayer(c.name, c.outF, c.inF, TypeOf(c.content), ContentBytes(c.content, c.outF, c.inF))
  }

  predicate AllConvertible(cs: seq<Converted>) {
    forall i :: 0 <= i < |cs| ==> Convertible(cs[i])
  }

  function ToRecords(cs: seq<Converted>): (ls: seq<OutLayer>)
    requires AllConvertible(cs)
    ensures AllWritable(ls) && |ls| == |cs|
  {
    if cs == [] then [] else [ToRecord(cs[0])] + ToRecords(cs[1..])
  }

  /** The weights of a float tensor, or the blocks of every term. */
  function Loaded(c: Converted): LayerData
    requires Convertible(c)
  {
    LayerData(c.name, c.outF, c.inF,
      match c.content
      case FloatTensor(weights) => Raw(weights)
      case OneTerm(term) => Blocks([TermBlocks(term, c.outF, c.inF)])
      case TermSet(terms) => Blocks(BlocksOf(terms, c.outF, c.inF)))
  }

  function AllLoaded(cs: seq<Converted>): (ls: seq<LayerData>)
    requires AllConvertible(cs)
  {
    if cs == [] then [] else [Loaded(cs[0])] + AllLoaded(cs[1..])
  }

  function ContentLength(content: Content, outF: nat, inF: nat): nat {
    match content
    case FloatTensor(weights) => 4 * |weights|
    case OneTerm(_) => BlobBytes(outF, inF)
    case TermSet(terms) => ContainerLength(|terms|, outF, inF)
  }

  predicate ContentTaken(content: Content, outF: nat, inF: nat) {
    match content
    case FloatTensor(_) => true
    case OneTerm(_) => LoaderTakes(1, outF, inF)
    case TermSet(terms) => LoaderTakes(|terms|, outF, inF)
  }

  /** What a caller can check before writing: the loader takes the content, and its length is no multiple of 2^24. */
  predicate LoadsBack(c: Converted) {
    ContentTaken(c.content, c.outF, c.inF) && ContentLength(c.content, c.outF, c.inF) % LOW24 != 0
  }

  /** A single term reads back as its blocks, and is refused exactly when it is too long for the loader. */
  lemma SingleReadsBack(term: AlsTerm, outF: nat, inF: nat)
    requires FitsShape(term, outF, inF) && BlobBytes(outF, inF) < 0x1_0000_0000
    ensures ParsePayload(0, WholeTerm(term, outF, inF), outF, inF)
         == if LoaderTakes(1, outF, inF) then Some(Blocks([TermBlocks(term, outF, inF)])) else None
  {
    hide TermBytes, ParseBlockTerms, TermBlocks, BlobBytes;
    TermReadsBack(term, outF, inF);
  }

  /** The bytes of a record's content, their number, and what the loader makes of them. */
  lemma ContentReadsBack(c: Converted)
    requires Convertible(c)
    ensures |ContentBytes(c.content, c.outF, c.inF)| == ContentLength(c.content, c.outF, c.inF)
    ensures ParsePayload(TypeOf(c.content), ContentBytes(c.content, c.outF, c.inF), c.outF, c.inF)
         == if ContentTaken(c.content, c.outF, c.inF) then Some(Loaded(c).body) else None
  {
    hide BlocksOf, TermBlocks, ParsePayload, TermsBytes, BlobBytes, LoaderTakes, EncodeWords, WholeTerm;
    match c.content {
      case FloatTensor(weights) => RawReadsBack(weights, c.outF, c.inF);
      case OneTerm(term) =>
        WholeTermLength(term, c.outF, c.inF);
        SingleReadsBack(term, c.outF, c.inF);
      case TermSet(terms) =>
        TermsLength(terms, c.outF, c.inF);
        ContainerReadsBack(terms, c.outF, c.inF);
    }
  }

  lemma ConvertedReadsAs(c: Converted)
    requires Convertible(c)
    ensures RightKind(ToRecord(c).layerType, Loaded(c).body)
    ensures ReadsAs(ToRecord(c), Loaded(c)) <==> LoadsBack(c)
  {
    hide BlocksOf, TermBlocks, ParsePayload, ContentBytes, ContentLength, ContentTaken, ContentFits;
    ContentReadsBack(c);
  }

  lemma {:induction false} AllConvertedReadAs(cs: seq<Converted>)
    requires AllConvertible(cs)
    ensures AllRightKind(ToRecords(cs), AllLoaded(cs))
    ensures AllReadAs(ToRecords(cs), AllLoaded(cs)) <==> forall i :: 0 <= i < |cs| ==> LoadsBack(cs[i])
  {
    hide Convertible, ReadsAs, RightKind, LoadsBack, ToRecord, Loaded;
    if cs != [] {
      ConvertedReadsAs(cs[0]);
      AllConvertedReadAs(cs[1..]);
      RightKindStep(ToRecords(cs), AllLoaded(cs));
      ReadAsStep(ToRecords(cs), AllLoaded(cs));
      assert cs == [cs[0]] + cs[1..];
    }
  }

  lemma RightKindStep(ls: seq<OutLayer>, want: seq<LayerData>)
    requires |want| == |ls| > 0 && RightKind(ls[0].layerType, want[0].body) && AllRightKind(ls[1..], want[1..])
    ensures AllRightKind(ls, want)
  {
    hide RightKind;
    assert ls == [ls[0]] + ls[1..] && want == [want[0]] + want[1..];
  }

  /**
   Written and loaded, every layer of a file that mixes float tensors, single terms and containers comes back with its
   weights or blocks if and only if all layers load back.
   */
  lemma ConvertedFileLoads(cs: seq<Converted>)
    requires AllConvertible(cs) && |cs| < 0x1_0000_0000
    ensures Load(FileBytes(ToRecords(cs))) == Some(AllLoaded(cs)) <==> forall i :: 0 <= i < |cs| ==> LoadsBack(cs[i])
  {
    hide Load, FileBytes, Convertible, AllLoaded, AllReadAs, AllRightKind, LoadsBack;
    AllConvertedReadAs(cs);
    FileReadsBack(ToRecords(cs), AllLoaded(cs));
  }
}
