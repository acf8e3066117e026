/** The readers and the writer of model_decomposed.bin as they move through a stream. */
module FileStreams {
  import opened Bytes
  import opened Bitplane
  import opened BitWriter
  import opened LayerNames
  import opened RecordFile
  import opened ShardFile

  /** An input stream: its bytes and a position that may be moved past the end. */
  class InputStream {
    const data: seq<Byte>
    var pos: nat

    constructor (data: seq<Byte>)
      ensures this.data == data && Rest() == data
    {
      this.data, pos := data, 0;
    }

    /** What is still to be read. */
    function Rest(): seq<Byte>
      reads this
    {
      if pos <= |data| then data[pos..] else []
    }

    method ReadWord() returns (ok: bool, w: Word)
      modifies `pos
      ensures ok <==> TakeWord(old(Rest())).Some?
      ensures ok ==> TakeWord(old(Rest())) == Some((w, Rest()))
    {
      if pos + 4 > |data| {
        return false, 0;
      }
      assert data[pos..][4..] == data[pos + 4..] && data[pos..][0..4] == data[pos..pos + 4];
      ok, w := true, WordAt(data, pos);
      pos := pos + 4;
    }

    method ReadBytes(n: nat) returns (ok: bool, bs: seq<Byte>)
      modifies `pos
      ensures ok <==> TakeBytes(old(Rest()), n).Some?
      ensures ok ==> TakeBytes(old(Rest()), n) == Some((bs, Rest())) && |bs| == n
    {
      if |Rest()| < n {
        return false, [];
      }
      ok, bs := true, Rest()[..n];
      assert Rest()[n..] == if pos + n <= |data| then data[pos + n..] else [];
      pos := pos + n;
    }

    method Seek(n: nat)
      modifies `pos
      ensures Rest() == Skip(old(Rest()), n)
    {
      assert pos + n <= |data| ==> data[pos..][n..] == data[pos + n..];
      pos := pos + n;
    }
  }

  // ----- payloads

  /** parse_block_terms, row by row and block by block. */
  method ReadBlockTerms(data: seq<Byte>, outF: nat, inF: nat) returns (blocks: Option<seq<BlockTerm>>)
    ensures blocks == ParseBlockTerms(data, outF, inF)
  {
    hide AsInt, BlockCount, BlockAt, BlocksRead;
    var nBlocks, size := BlockCount(inF), AsInt(|data|);
    var read: seq<BlockTerm> := [];
    NoBlocksRead(data, size);
    for row := 0 to outF
      invariant |read| == row * nBlocks && BlocksRead(read, data, size)
    {
      for b := 0 to nBlocks
        invariant |read| == row * nBlocks + b && BlocksRead(read, data, size)
      {
        var offset := row * (nBlocks * BLOCK_BYTES) + b * BLOCK_BYTES;
        FlatIndex(outF, nBlocks, row, b);
        Regroup(row, BLOCK_BYTES, nBlocks);
        assert offset == BLOCK_BYTES * |read|;
        if offset + BLOCK_BYTES > size {
          return None;
        }
        BlockRead(read, data, size);
        read := read + [BlockTerm(data[offset..offset + CODE_BYTES], WordAt(data, offset + CODE_BYTES))];
      }
      NextRow(outF, nBlocks, row);
    }
    AllBlocksRead(read, data, size);
    blocks := Some(read);
  }

  /** Blocks taken one after another, none of them past a length. */
  ghost predicate BlocksRead(read: seq<BlockTerm>, data: seq<Byte>, size: int) {
    && size <= |data| && (|read| > 0 ==> BLOCK_BYTES * |read| <= size)
    && forall k :: 0 <= k < |read| ==> read[k] == BlockAt(data, k)
  }

  lemma NoBlocksRead(data: seq<Byte>, size: int)
    requires size <= |data|
    ensures BlocksRead([], data, size)
  {
  }

  lemma BlockRead(read: seq<BlockTerm>, data: seq<Byte>, size: int)
    requires BlocksRead(read, data, size) && BLOCK_BYTES * |read| + BLOCK_BYTES <= size
    ensures var offset := BLOCK_BYTES * |read|;
      && offset + BLOCK_BYTES <= |data|
      && BlocksRead(read + [BlockTerm(data[offset..offset + CODE_BYTES], WordAt(data, offset + CODE_BYTES))], data, size)
  {
    hide WordAt;
  }

  lemma AllBlocksRead(read: seq<BlockTerm>, data: seq<Byte>, size: int)
    requires BlocksRead(read, data, size)
    ensures |read| > 0 ==> BLOCK_BYTES * |read| <= size
    ensures BLOCK_BYTES * |read| <= |data| && read == seq(|read|, k requires 0 <= k < |read| => BlockAt(data, k))
  {
    hide BlockAt;
  }

  /** The terms of a container, front to back. */
  method ReadContainerTerms(data: seq<Byte>, count: nat, outF: nat, inF: nat) returns (terms: Option<seq<seq<BlockTerm>>>)
    ensures terms == ParseTerms(data, count, outF, inF)
  {
    hide ParseBlockTerms, TakeWord, TakeBytes;
    var stream := new InputStream(data);
    var read: seq<seq<BlockTerm>> := [];
    PrependNone(ParseTerms(data, count, outF, inF));
    for t := 0 to count
      invariant ParseTerms(data, count, outF, inF) == Prepended(read, ParseTerms(stream.Rest(), count - t, outF, inF))
    {
      var ok, len := stream.ReadWord();
      if !ok {
        return None;
      }
      var blob;
      ok, blob := stream.ReadBytes(len);
      if !ok {
        return None;
      }
      var term := ReadBlockTerms(blob, outF, inF);
      if term.None? {
        return None;
      }
      PrependOne(read, term.value, ParseTerms(stream.Rest(), count - t - 1, outF, inF));
      read := read + [term.value];
    }
    assert read + [] == read;
    terms := Some(read);
  }

  ghost function Prepended<T>(read: seq<T>, rest: Option<seq<T>>): Option<seq<T>> {
    match rest
    case None => None
    case Some(more) => Some(read + more)
  }

  lemma PrependNone<T>(rest: Option<seq<T>>)
    ensures Prepended([], rest) == rest
  {
    if rest.Some? {
      assert [] + rest.value == rest.value;
    }
  }

  lemma PrependOne<T>(read: seq<T>, x: T, rest: Option<seq<T>>)
    ensures Prepended(read + [x], rest) == Prepended(read, Prepended([x], rest))
  {
    if rest.Some? {
      assert read + [x] + rest.value == read + ([x] + rest.value);
    }
  }

  method ReadPayload(layerType: Byte, data: seq<Byte>, outF: nat, inF: nat) returns (body: Option<Body>)
    requires layerType <= 2
    ensures body == ParsePayload(layerType, data, outF, inF)
  {
    hide ParseTerms, ParseBlockTerms, ParseRaw;
    if layerType == 1 {
      return ParseRaw(data);
    }
    if layerType == 2 {
      if |data| < 4 {
        return None;
      }
      var numTerms: int := WordAt(data, 0);
      if numTerms == 0 || numTerms > MAX_TERMS {
        return None;
      }
      var terms := ReadContainerTerms(data[4..], numTerms, outF, inF);
      return if terms.None? then None else Some(Blocks(terms.value));
    }
    var term := ReadBlockTerms(data, outF, inF);
    return if term.None? then None else Some(Blocks([term.value]));
  }

  /** The codes of a term, unpacked and packed again as bitplane words. */
  method UnpackCodes(packed: seq<Byte>, outF: nat, inF: nat) returns (combined: array<Word>)
    requires |packed| == OldCodeBytes(outF, inF)
    ensures fresh(combined) && combined[..] == OldCombined(packed, outF, inF)
  {
    hide OldCodeBytes;
    var rows := OldRows(packed, outF, inF);
    forall r | 0 <= r < outF ensures TernaryRow(rows[r]) {
      OldRowTernary(packed, inF, r);
    }
    combined := MarkRows(rows, inF);
  }

  lemma OldRowTernary(packed: seq<Byte>, inF: nat, r: nat)
    ensures TernaryRow(OldRow(packed, inF, r))
  {
    hide OldDigit;
    forall j | 0 <= j < inF ensures -1 <= OldRow(packed, inF, r)[j] <= 1 {
      DigitRange(packed, r * inF + j);
    }
  }

  lemma DigitRange(packed: seq<Byte>, pos: nat)
    ensures -1 <= OldDigit(packed, pos) <= 1
  {
  }

  // ----- records

  method ReadHeader(stream: InputStream) returns (ok: bool, h: Header)
    modifies stream`pos
    ensures ok <==> TakeHeader(old(stream.Rest())).Some?
    ensures ok ==> TakeHeader(old(stream.Rest())) == Some((h, stream.Rest()))
  {
    hide TakeWord, TakeBytes, NameOf;
    h := Header("", 0, 0, 0);
    var nameLen, name, outF, inF, x;
    ok, nameLen := stream.ReadWord();
    if !ok { return; }
    ok, name := stream.ReadBytes(nameLen);
    if !ok { return; }
    ok, outF := stream.ReadWord();
    if !ok { return; }
    ok, inF := stream.ReadWord();
    if !ok { return; }
    ok, x := stream.ReadWord();
    if !ok { return; }
    h := Header(NameOf(name), outF, inF, x);
  }

  method ReadOldTerms(stream: InputStream, count: nat, outF: nat, inF: nat) returns (terms: Option<seq<BitTerm>>)
    modifies stream`pos
    ensures terms.Some? <==> ParseOldTerms(old(stream.Rest()), count, outF, inF).Some?
    ensures terms.Some? ==> ParseOldTerms(old(stream.Rest()), count, outF, inF) == Some((terms.value, stream.Rest()))
  {
    hide TakeWord, TakeBytes, OldCombined, OldCodeBytes, WordToSigned;
    ghost var start := stream.Rest();
    var read: seq<BitTerm> := [];
    PrependPairNone(ParseOldTerms(start, count, outF, inF));
    for t := 0 to count
      invariant ParseOldTerms(start, count, outF, inF)
             == PrependedPair(read, ParseOldTerms(stream.Rest(), count - t, outF, inF))
    {
      var ok, alpha := stream.ReadWord();
      if !ok {
        return None;
      }
      var packed;
      ok, packed := stream.ReadBytes(OldCodeBytes(outF, inF));
      if !ok {
        return None;
      }
      var combined := UnpackCodes(packed, outF, inF);
      var term := BitTerm(WordToSigned(alpha), combined[..]);
      PrependPairOne(read, term, ParseOldTerms(stream.Rest(), count - t - 1, outF, inF));
      read := read + [term];
    }
    assert read + [] == read;
    terms := Some(read);
  }

  ghost function PrependedPair<T>(read: seq<T>, rest: Option<(seq<T>, seq<Byte>)>): Option<(seq<T>, seq<Byte>)> {
    match rest
    case None => None
    case Some((more, end)) => Some((read + more, end))
  }

  lemma PrependPairNone<T>(rest: Option<(seq<T>, seq<Byte>)>)
    ensures PrependedPair([], rest) == rest
  {
    if rest.Some? {
      assert [] + rest.value.0 == rest.value.0;
    }
  }

  lemma PrependPairOne<T>(read: seq<T>, x: T, rest: Option<(seq<T>, seq<Byte>)>)
    ensures PrependedPair(read + [x], rest) == PrependedPair(read, PrependedPair([x], rest))
  {
    if rest.Some? {
      assert read + [x] + rest.value.0 == read + ([x] + rest.value.0);
    }
  }

  /** The payload of a record that is kept. */
  method ReadBody(stream: InputStream, h: Header) returns (body: Option<Body>)
    modifies stream`pos
    ensures body.Some? <==> TakeBody(h, old(stream.Rest())).Some?
    ensures body.Some? ==> TakeBody(h, old(stream.Rest())) == Some((body.value, stream.Rest()))
  {
    hide TakeWord, TakeBytes, ParseOldTerms, ParsePayload, ParseRaw, InputStream.Rest;
    var ok, len, high, data;
    if IsOldLayout(h.x) {
      if h.x == 0 {
        ok, len := stream.ReadWord();
        if !ok { return None; }
        ok, data := stream.ReadBytes(len);
        if !ok { return None; }
        return ParseRaw(data);
      }
      var terms := ReadOldTerms(stream, h.x, h.outF, h.inF);
      return if terms.None? then None else Some(Bitplanes(0, terms.value));
    }
    if h.x % 256 > 2 {
      return None;
    }
    ok, high := stream.ReadBytes(1);
    if !ok { return None; }
    ok, data := stream.ReadBytes(h.x / 256 + LOW24 * (high[0] as int));
    if !ok { return None; }
    body := ReadPayload(h.x % 256, data, h.outF, h.inF);
  }

  /** Moving past the payload of a record that is not kept. */
  method SkipPayload(stream: InputStream, h: Header) returns (ok: bool)
    modifies stream`pos
    ensures ok <==> SkipBody(h, old(stream.Rest())).Some?
    ensures ok ==> SkipBody(h, old(stream.Rest())) == Some(stream.Rest())
  {
    hide TakeWord, TakeBytes, Skip, OldCodeBytes, InputStream.Rest;
    ok := true;
    if IsOldLayout(h.x) {
      if h.x == 0 {
        var len;
        ok, len := stream.ReadWord();
        if ok { stream.Seek(len); }
      } else {
        stream.Seek(h.x * (4 + OldCodeBytes(h.outF, h.inF)));
      }
    } else {
      var high;
      ok, high := stream.ReadBytes(1);
      if ok { stream.Seek(h.x / 256 + LOW24 * (high[0] as int)); }
    }
  }

  method ReadFileHeader(stream: InputStream) returns (ok: bool, count: nat)
    modifies stream`pos
    ensures ok <==> TakeFileHeader(old(stream.Rest())).Some?
    ensures ok ==> TakeFileHeader(old(stream.Rest())) == Some((count, stream.Rest()))
  {
    hide TakeWord, InputStream.Rest;
    var magic;
    ok, magic := stream.ReadWord();
    if !ok || magic != FILE_MAGIC {
      return false, 0;
    }
    var n;
    ok, n := stream.ReadWord();
    count := n;
  }

  // ----- the loaders

  /** load_decomposed_layers_als; None where it throws. */
  method LoadDecomposedLayers(file: seq<Byte>) returns (layers: Option<seq<LayerData>>)
    ensures layers == Load(file)
  {
    hide TakeFileHeader, TakeHeader, TakeBody, InputStream.Rest;
    var stream := new InputStream(file);
    var ok, count := ReadFileHeader(stream);
    if !ok {
      return None;
    }
    ghost var whole := TakeRecords(stream.Rest(), count);
    var read: seq<LayerData> := [];
    PrependNone(whole);
    for i := 0 to count
      invariant whole == Prepended(read, TakeRecords(stream.Rest(), count - i))
    {
      var h;
      ok, h := ReadHeader(stream);
      if !ok {
        return None;
      }
      var body := ReadBody(stream, h);
      if body.None? {
        return None;
      }
      var layer := LayerData(h.name, h.outF, h.inF, body.value);
      PrependOne(read, layer, TakeRecords(stream.Rest(), count - i - 1));
      read := read + [layer];
    }
    assert read + [] == read;
    layers := Some(read);
  }

  /** load_decomposed_layers_als_range; None where it throws. */
  method LoadDecomposedLayersRange(file: seq<Byte>, start: int, end: int, withHead: bool) returns (kept: Option<seq<LayerData>>)
    ensures kept == LoadRange(file, start, end, withHead)
  {
    hide TakeFileHeader, TakeHeader, TakeBody, SkipBody, ParseLayerIndex, InShard, InputStream.Rest;
    if start < 0 || end < start {
      return None;
    }
    var stream := new InputStream(file);
    var ok, count := ReadFileHeader(stream);
    if !ok {
      return None;
    }
    ghost var whole := RangeRecords(stream.Rest(), count, start, end, withHead);
    var read: seq<LayerData> := [];
    PrependNone(whole);
    for i := 0 to count
      invariant whole == Prepended(read, RangeRecords(stream.Rest(), count - i, start, end, withHead))
    {
      var h;
      ok, h := ReadHeader(stream);
      if !ok || ParseLayerIndex(h.name).TooLarge? {
        return None;
      }
      if InShard(h.name, start, end, withHead) {
        var body := ReadBody(stream, h);
        if body.None? {
          return None;
        }
        var layer := LayerData(h.name, h.outF, h.inF, body.value);
        PrependOne(read, layer, RangeRecords(stream.Rest(), count - i - 1, start, end, withHead));
        read := read + [layer];
      } else {
        ok := SkipPayload(stream, h);
        if !ok {
          return None;
        }
      }
    }
    assert read + [] == read;
    kept := Some(read);
  }

  /** find_layer_index; None where it throws. */
  method FindLayerIndex(layers: seq<LayerData>, name: string) returns (index: Option<nat>)
    ensures index == Find(layers, name)
    ensures index.Some? ==> index.value < |layers| && layers[index.value].name == name
    ensures forall k :: 0 <= k < |layers| && (index.None? || k < index.value) ==> layers[k].name != name
  {
    assert layers[0..] == layers;
    for i := 0 to |layers|
      invariant forall k :: 0 <= k < i ==> layers[k].name != name
      invariant Find(layers, name) == Offset(i, Find(layers[i..], name))
    {
      if layers[i].name == name {
        return Some(i);
      }
      assert layers[i..][1..] == layers[i + 1..];
    }
    index := None;
  }

  ghost function Offset(i: nat, found: Option<nat>): Option<nat> {
    match found
    case None => None
    case Some(k) => Some(i + k)
  }

  // ----- the writer

  class OutputStream {
    var written: seq<Byte>

    constructor ()
      ensures written == []
    {
      written := [];
    }

    method Write(bs: seq<Byte>)
      modifies this
      ensures written == old(written) + bs
    {
      written := written + bs;
    }
  }

  method WriteRecord(out: OutputStream, l: OutLayer)
    requires Writable(l)
    modifies out
    ensures out.written == old(out.written) + RecordBytes(l)
  {
    hide EncodeWord, NameBytes;
    out.Write(EncodeWord(|l.name|));
    out.Write(NameBytes(l.name));
    out.Write(EncodeWord(l.outF));
    out.Write(EncodeWord(l.inF));
    out.Write([l.layerType]);
    out.Write(EncodeWord(|l.data|));
    out.Write(l.data);
  }

  /** write_decomposed */
  method WriteDecomposed(out: OutputStream, layers: seq<OutLayer>)
    requires AllWritable(layers) && |layers| < 0x1_0000_0000 && out.written == []
    modifies out
    ensures out.written == FileBytes(layers)
  {
    hide EncodeWord, RecordBytes;
    out.Write(EncodeWord(FILE_MAGIC));
    out.Write(EncodeWord(|layers|));
    ghost var head := out.written;
    assert layers[..0] == [];
    for i := 0 to |layers|
      invariant out.written == head + RecordsBytes(layers[..i])
    {
      WriteRecord(out, layers[i]);
      RecordsSnoc(layers[..i], layers[i]);
      assert layers[..i + 1] == layers[..i] + [layers[i]];
      assert out.written == head + (RecordsBytes(layers[..i]) + RecordBytes(layers[i]));
    }
    assert layers[..|layers|] == layers;
  }

  lemma {:induction false} RecordsSnoc(ls: seq<OutLayer>, l: OutLayer)
    requires AllWritable(ls) && Writable(l)
    ensures AllWritable(ls + [l]) && RecordsBytes(ls + [l]) == RecordsBytes(ls) + RecordBytes(l)
  {
    hide RecordBytes;
    if ls == [] {
      assert [l][1..] == [];
    } else {
      RecordsSnoc(ls[1..], l);
      assert (ls + [l])[1..] == ls[1..] + [l];
    }
  }
}
