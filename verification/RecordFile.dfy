/** model_decomposed.bin: the writer, the full loader and the shape of the records (export.cpp, loader.h). */
module RecordFile {
  import opened Bytes
  import opened Bitplane

  datatype BlockTerm = BlockTerm(packed: seq<Byte>, scale: Word)

  datatype BitTerm = BitTerm(alphaExp: int, combined: seq<Word>)

  /** Raw float weights, block-scaled terms (new layout) or bitplane terms with the number the kernels use. */
  datatype Body =
    | Raw(weights: seq<Word>)
    | Blocks(sets: seq<seq<BlockTerm>>)
    | Bitplanes(numTerms: nat, terms: seq<BitTerm>)

  datatype LayerData = LayerData(name: string, outF: nat, inF: nat, body: Body)

  const FILE_MAGIC: Word := 0xDEAD_BEEF
  const QK := 128
  const CODE_BYTES := 32
  const BLOCK_BYTES := 36
  const MAX_TERMS := 32
  const LOW24 := 0x100_0000

  // ----- reading from the front of a byte sequence

  function TakeWord(bs: seq<Byte>): Option<(Word, seq<Byte>)> {
    if |bs| < 4 then None else Some((WordAt(bs, 0), bs[4..]))
  }

  function TakeBytes(bs: seq<Byte>, n: nat): Option<(seq<Byte>, seq<Byte>)> {
    if |bs| < n then None else Some((bs[..n], bs[n..]))
  }

  /** Seeking forward; past the end there is nothing left to read. */
  function Skip(bs: seq<Byte>, n: nat): seq<Byte> {
    if |bs| < n then [] else bs[n..]
  }

  function NameOf(bs: seq<Byte>): string {
    seq(|bs|, k requires 0 <= k < |bs| => bs[k] as char)
  }

  // ----- payloads

  function BlockCount(inF: nat): nat {
    CeilDiv(inF, QK)
  }

  function BlockAt(data: seq<Byte>, k: nat): BlockTerm
    requires BLOCK_BYTES * (k + 1) <= |data|
  {
    BlockTerm(data[BLOCK_BYTES * k..BLOCK_BYTES * k + CODE_BYTES], WordAt(data, BLOCK_BYTES * k + CODE_BYTES))
  }

  /** A size as the cast to a 32-bit int leaves it. */
  function AsInt(size: nat): (i: int)
    ensures i <= size
    ensures size < 0x8000_0000 ==> i == size
    ensures 0x8000_0000 <= size < 0x1_0000_0000 ==> i < 0
  {
    WordToSigned(size % 0x1_0000_0000)
  }

  /**
   parse_block_terms: out_f rows of blocks, each 32 code bytes and a scale. The length is compared as an int,
   so blobs of 2^31 bytes or more are refused unless there is no block to read.
   */
  function ParseBlockTerms(data: seq<Byte>, outF: nat, inF: nat): Option<seq<BlockTerm>> {
    var n := outF * BlockCount(inF);
    if n > 0 && BLOCK_BYTES * n > AsInt(|data|) then None
    else Some(seq(n, k requires 0 <= k < n => BlockAt(data, k)))
  }

  /** The length-prefixed term blobs of a multi-term container. */
  function ParseTerms(data: seq<Byte>, count: nat, outF: nat, inF: nat): Option<seq<seq<BlockTerm>>> {
    if count == 0 then Some([])
    else
      match TakeWord(data)
      case None => None
      case Some((len, rest)) =>
        match TakeBytes(rest, len)
        case None => None
        case Some((blob, rest')) =>
          match ParseBlockTerms(blob, outF, inF)
          case None => None
          case Some(term) =>
            match ParseTerms(rest', count - 1, outF, inF)
            case None => None
            case Some(more) => Some([term] + more)
  }

  /** Raw floats; a length that is not a multiple of 4 makes the copy run past the weights, which counts as failing. */
  function ParseRaw(data: seq<Byte>): Option<Body> {
    if |data| % 4 != 0 then None else Some(Raw(WordsAt(data, 0, |data| / 4)))
  }

  /** parse_layer_type_data: 1 is raw floats, 2 a multi-term container, 0 a single term. */
  function ParsePayload(layerType: Byte, data: seq<Byte>, outF: nat, inF: nat): Option<Body>
    requires layerType <= 2
  {
    if layerType == 1 then ParseRaw(data)
    else if layerType == 2 then
      match TakeWord(data)
      case None => None
      case Some((count, rest)) =>
        if count == 0 || count > MAX_TERMS then None
        else
          match ParseTerms(rest, count, outF, inF)
          case None => None
          case Some(terms) => Some(Blocks(terms))
    else
      match ParseBlockTerms(data, outF, inF)
      case None => None
      case Some(term) => Some(Blocks([term]))
  }

  /** Bytes of one term's packed codes in the old layout. */
  function OldCodeBytes(outF: nat, inF: nat): nat {
    (outF * inF * 2 + 7) / 8
  }

  lemma OldPositionFits(outF: nat, inF: nat, r: nat, j: nat)
    requires r < outF && j < inF
    ensures (r * inF + j) / 4 < OldCodeBytes(outF, inF)
  {
    FlatIndex(outF, inF, r, j);
    PackedPosition(r * inF + j, outF * inF);
  }

  lemma PackedPosition(p: nat, n: nat)
    requires p < n
    ensures p / 4 < (n * 2 + 7) / 8
  {
  }

  function OldRow(packed: seq<Byte>, inF: nat, r: nat): (row: seq<int>)
    ensures |row| == inF
  {
    seq(inF, j requires 0 <= j < inF => OldDigit(packed, r * inF + j))
  }

  function OldRows(packed: seq<Byte>, outF: nat, inF: nat): (rows: seq<seq<int>>)
    ensures |rows| == outF
  {
    seq(outF, r requires 0 <= r < outF => OldRow(packed, inF, r))
  }

  /** The bitplane words of a term. */
  function OldCombined(packed: seq<Byte>, outF: nat, inF: nat): seq<Word> {
    RowsWords(OldRows(packed, outF, inF))
  }

  function ParseOldTerms(bs: seq<Byte>, count: nat, outF: nat, inF: nat): Option<(seq<BitTerm>, seq<Byte>)> {
    if count == 0 then Some(([], bs))
    else
      match TakeWord(bs)
      case None => None
      case Some((alpha, rest)) =>
        match TakeBytes(rest, OldCodeBytes(outF, inF))
        case None => None
        case Some((packed, rest')) =>
          match ParseOldTerms(rest', count - 1, outF, inF)
          case None => None
          case Some((more, end)) =>
            Some(([BitTerm(WordToSigned(alpha), OldCombined(packed, outF, inF))] + more, end))
  }

  // ----- records

  /** What precedes a record's payload; x is the word whose size tells the two layouts apart. */
  datatype Header = Header(name: string, outF: nat, inF: nat, x: Word)

  function TakeHeader(bs: seq<Byte>): Option<(Header, seq<Byte>)> {
    match TakeWord(bs)
    case None => None
    case Some((nameLen, r1)) =>
      match TakeBytes(r1, nameLen)
      case None => None
      case Some((name, r2)) =>
        match TakeWord(r2)
        case None => None
        case Some((outF, r3)) =>
          match TakeWord(r3)
          case None => None
          case Some((inF, r4)) =>
            match TakeWord(r4)
            case None => None
            case Some((x, r5)) => Some((Header(NameOf(name), outF, inF, x), r5))
  }

  /** sniff_als_layout */
  predicate IsOldLayout(x: Word) {
    x <= 32
  }

  /** The payload length of the new layout: three bytes in x and the fourth on the stream. */
  function TakeNewLength(x: Word, bs: seq<Byte>): Option<(nat, seq<Byte>)> {
    match TakeBytes(bs, 1)
    case None => None
    case Some((high, rest)) => Some((x / 256 + LOW24 * (high[0] as int), rest))
  }

  /** The payload of a record that is kept. The old layout fills in the terms but leaves num_terms at 0. */
  function TakeBody(h: Header, bs: seq<Byte>): Option<(Body, seq<Byte>)> {
    if IsOldLayout(h.x) then
      if h.x == 0 then
        match TakeWord(bs)
        case None => None
        case Some((len, rest)) =>
          match TakeBytes(rest, len)
          case None => None
          case Some((data, end)) =>
            match ParseRaw(data)
            case None => None
            case Some(body) => Some((body, end))
      else
        match ParseOldTerms(bs, h.x, h.outF, h.inF)
        case None => None
        case Some((terms, end)) => Some((Bitplanes(0, terms), end))
    else if h.x % 256 > 2 then None
    else
      match TakeNewLength(h.x, bs)
      case None => None
      case Some((len, rest)) =>
        match TakeBytes(rest, len)
        case None => None
        case Some((data, end)) =>
          match ParsePayload(h.x % 256, data, h.outF, h.inF)
          case None => None
          case Some(body) => Some((body, end))
  }

  function TakeRecord(bs: seq<Byte>): Option<(LayerData, seq<Byte>)> {
    match TakeHeader(bs)
    case None => None
    case Some((h, rest)) =>
      match TakeBody(h, rest)
      case None => None
      case Some((body, end)) => Some((LayerData(h.name, h.outF, h.inF, body), end))
  }

  function TakeRecords(bs: seq<Byte>, count: nat): Option<seq<LayerData>>
    decreases count
  {
    if count == 0 then Some([])
    else
      match TakeRecord(bs)
      case None => None
      case Some((l, rest)) =>
        match TakeRecords(rest, count - 1)
        case None => None
        case Some(more) => Some([l] + more)
  }

  /** The number of records and the bytes that hold them. */
  function TakeFileHeader(file: seq<Byte>): Option<(nat, seq<Byte>)> {
    match TakeWord(file)
    case None => None
    case Some((magic, rest)) =>
      if magic != FILE_MAGIC then None
      else
        match TakeWord(rest)
        case None => None
        case Some((count, records)) => Some((count as nat, records))
  }

  /** load_decomposed_layers_als */
  function Load(file: seq<Byte>): Option<seq<LayerData>> {
    match TakeFileHeader(file)
    case None => None
    case Some((count, records)) => TakeRecords(records, count)
  }

  // ----- writing

  datatype OutLayer = OutLayer(name: string, outF: nat, inF: nat, layerType: Byte, data: seq<Byte>)

  /** What the converter hands to the writer: byte strings and sizes that fit their fields. */
  predicate Writable(l: OutLayer) {
    && (forall k :: 0 <= k < |l.name| ==> l.name[k] as int < 256)
    && |l.name| < 0x1_0000_0000 && l.outF < 0x1_0000_0000 && l.inF < 0x1_0000_0000
    && |l.data| < 0x1_0000_0000 && l.layerType <= 2
  }

  function NameBytes(name: string): seq<Byte>
    requires forall k :: 0 <= k < |name| ==> name[k] as int < 256
  {
    seq(|name|, k requires 0 <= k < |name| => name[k] as int)
  }

  function RecordBytes(l: OutLayer): seq<Byte>
    requires Writable(l)
  {
    EncodeWord(|l.name|) + NameBytes(l.name) + EncodeWord(l.outF) + EncodeWord(l.inF)
      + [l.layerType] + EncodeWord(|l.data|) + l.data
  }

  predicate AllWritable(ls: seq<OutLayer>) {
    forall k :: 0 <= k < |ls| ==> Writable(ls[k])
  }

  function RecordsBytes(ls: seq<OutLayer>): seq<Byte>
    requires AllWritable(ls)
  {
    if ls == [] then [] else RecordBytes(ls[0]) + RecordsBytes(ls[1..])
  }

  /** write_decomposed */
  function FileBytes(ls: seq<OutLayer>): seq<Byte>
    requires AllWritable(ls) && |ls| < 0x1_0000_0000
  {
    EncodeWord(FILE_MAGIC) + EncodeWord(|ls|) + RecordsBytes(ls)
  }

  /** What a written record means; None when its payload is malformed. */
  function Meaning(l: OutLayer): Option<LayerData>
    requires Writable(l)
  {
    match ParsePayload(l.layerType, l.data, l.outF, l.inF)
    case None => None
    case Some(body) => Some(LayerData(l.name, l.outF, l.inF, body))
  }

  // ----- where the fields of a record lie

  /** Name length, name, out_f, in_f, layer type, data length, data. */
  lemma RecordLayout(l: OutLayer)
    requires Writable(l)
    ensures var bs, n := RecordBytes(l), |l.name|;
      && |bs| == 17 + n + |l.data|
      && WordAt(bs, 0) == n && (forall k :: 0 <= k < n ==> bs[4 + k] == l.name[k] as int)
      && WordAt(bs, 4 + n) == l.outF && WordAt(bs, 8 + n) == l.inF
      && bs[12 + n] == l.layerType && WordAt(bs, 13 + n) == |l.data| && bs[17 + n..] == l.data
  {
    hide EncodeWord, WordAt, NameBytes;
    var n, o, i := EncodeWord(|l.name|), EncodeWord(l.outF), EncodeWord(l.inF);
    var s, d := NameBytes(l.name), EncodeWord(|l.data|);
    NameBytesAt(l.name);
    EncodeWordLength(|l.name|);
    EncodeWordLength(l.outF);
    EncodeWordLength(l.inF);
    EncodeWordLength(|l.data|);
    var bs := RecordBytes(l);
    assert bs == [] + n + (s + o + i + [l.layerType] + d + l.data);
    WordBetween(bs, [], |l.name|, s + o + i + [l.layerType] + d + l.data);
    assert bs == (n + s) + o + (i + [l.layerType] + d + l.data);
    WordBetween(bs, n + s, l.outF, i + [l.layerType] + d + l.data);
    assert bs == (n + s + o) + i + ([l.layerType] + d + l.data);
    WordBetween(bs, n + s + o, l.inF, [l.layerType] + d + l.data);
    WordBetween(bs, n + s + o + i + [l.layerType], |l.data|, l.data);
  }

  lemma NameBytesAt(name: string)
    requires forall k :: 0 <= k < |name| ==> name[k] as int < 256
    ensures |NameBytes(name)| == |name| && forall k :: 0 <= k < |name| ==> NameBytes(name)[k] == name[k] as int
  {
  }

  // ----- raw weights

  lemma RawWordsRead(ws: seq<Word>)
    ensures |EncodeWords(ws)| == 4 * |ws| && ParseRaw(EncodeWords(ws)) == Some(Raw(ws))
  {
    hide EncodeWords, WordsAt;
    EncodeWordsLength(ws);
    WordsAtSlice(EncodeWords(ws), 0, ws);
    assert EncodeWords(ws)[0..4 * |ws|] == EncodeWords(ws);
  }

  /** Raw floats in memory order load as the same floats. */
  lemma RawReadsBack(ws: seq<Word>, outF: nat, inF: nat)
    ensures |EncodeWords(ws)| == 4 * |ws| && ParsePayload(1, EncodeWords(ws), outF, inF) == Some(Raw(ws))
  {
    hide EncodeWords, ParseRaw;
    RawWordsRead(ws);
  }

  /** Raw floats of the old layout too, behind their byte count. */
  lemma OldRawReadsBack(h: Header, ws: seq<Word>, rest: seq<Byte>)
    requires h.x == 0 && 4 * |ws| < 0x1_0000_0000
    ensures TakeBody(h, EncodeWord(4 * |ws|) + EncodeWords(ws) + rest) == Some((Raw(ws), rest))
  {
    hide EncodeWords, ParseRaw, EncodeWord, TakeWord, TakeBytes, ParsePayload, ParseOldTerms;
    RawWordsRead(ws);
    var data := EncodeWords(ws);
    assert EncodeWord(4 * |ws|) + data + rest == EncodeWord(4 * |ws|) + (data + rest);
    TakeEncodedWord(4 * |ws|, data + rest);
    TakePrefix(data, rest);
  }

  // ----- the round trip

  lemma TakeEncodedWord(w: Word, rest: seq<Byte>)
    ensures TakeWord(EncodeWord(w) + rest) == Some((w, rest))
  {
    var bs := EncodeWord(w) + rest;
    assert bs[0..4] == EncodeWord(w) && bs[4..] == rest;
    WordAtSlice(bs, 0, w);
  }

  lemma TakePrefix(u: seq<Byte>, rest: seq<Byte>)
    ensures TakeBytes(u + rest, |u|) == Some((u, rest))
  {
    assert (u + rest)[..|u|] == u && (u + rest)[|u|..] == rest;
  }

  lemma NameRoundTrip(name: string)
    requires forall k :: 0 <= k < |name| ==> name[k] as int < 256
    ensures NameOf(NameBytes(name)) == name
  {
  }

  /** The word that the reader sniffs: the layer type and the low three bytes of the length. */
  function SniffedWord(layerType: Byte, len: Word): Word {
    Join(layerType, len % LOW24)
  }

  lemma LengthSplits(layerType: Byte, len: Word, rest: seq<Byte>)
    ensures var bs := [layerType] + EncodeWord(len) + rest;
      TakeWord(bs) == Some((SniffedWord(layerType, len), [len / LOW24] + rest))
  {
    var bs := [layerType] + EncodeWord(len) + rest;
    var e := EncodeWord(len);
    WordAtJoins(bs, 0);
    assert bs[4..] == [e[3]] + rest;
    assert e[3] == len / LOW24;
    assert Join(e[0], Join(e[1], e[2] as int)) == len % LOW24;
  }

  lemma NewLength(layerType: Byte, len: Word, rest: seq<Byte>)
    ensures TakeNewLength(SniffedWord(layerType, len), [len / LOW24] + rest) == Some((len as nat, rest))
    ensures SniffedWord(layerType, len) % 256 == layerType
  {
    SplitJoins(layerType, len % LOW24);
    TakePrefix([len / LOW24], rest);
  }

  /** A new-layout record looks like an old one exactly when its length is a multiple of 2^24. */
  lemma SniffsOldExactly(layerType: Byte, len: Word)
    requires layerType <= 2
    ensures IsOldLayout(SniffedWord(layerType, len)) <==> len % LOW24 == 0
    ensures IsOldLayout(SniffedWord(layerType, len)) ==> SniffedWord(layerType, len) == layerType
  {
  }

  /** A raw 32768 x 4096 output head is such a record. */
  lemma LargeHeadLooksOld()
    ensures IsOldLayout(SniffedWord(1, 32768 * 4096 * 4))
  {
  }

  lemma TakeWrittenHeader(l: OutLayer, rest: seq<Byte>)
    requires Writable(l)
    ensures TakeHeader(RecordBytes(l) + rest) ==
      Some((Header(l.name, l.outF, l.inF, SniffedWord(l.layerType, |l.data|)), [|l.data| / LOW24] + (l.data + rest)))
  {
    hide TakeWord, TakeBytes, EncodeWord, NameBytes, NameOf;
    var n, o, i := EncodeWord(|l.name|), EncodeWord(l.outF), EncodeWord(l.inF);
    var s, d, tail := NameBytes(l.name), EncodeWord(|l.data|), l.data + rest;
    var r4 := [l.layerType] + d + tail;
    assert RecordBytes(l) + rest == n + (s + (o + (i + r4)));
    TakeEncodedWord(|l.name|, s + (o + (i + r4)));
    NameBytesLength(l.name);
    TakePrefix(s, o + (i + r4));
    TakeEncodedWord(l.outF, i + r4);
    TakeEncodedWord(l.inF, r4);
    LengthSplits(l.layerType, |l.data|, tail);
    NameRoundTrip(l.name);
  }

  lemma NameBytesLength(name: string)
    requires forall k :: 0 <= k < |name| ==> name[k] as int < 256
    ensures |NameBytes(name)| == |name|
  {
  }

  /** The kind of payload that a layer type announces. */
  predicate RightKind(layerType: Byte, body: Body) {
    if layerType == 1 then body.Raw? else body.Blocks?
  }

  /** The payload of a written record, when its length keeps the layouts apart. */
  lemma BodyReadsBack(l: OutLayer, rest: seq<Byte>)
    requires Writable(l) && |l.data| % LOW24 != 0
    ensures TakeBody(Header(l.name, l.outF, l.inF, SniffedWord(l.layerType, |l.data|)), [|l.data| / LOW24] + (l.data + rest))
      == match Meaning(l) { case None => None case Some(m) => Some((m.body, rest)) }
  {
    hide TakeBytes, TakeNewLength, ParsePayload, SniffedWord;
    SniffsOldExactly(l.layerType, |l.data|);
    NewLength(l.layerType, |l.data|, l.data + rest);
    TakePrefix(l.data, rest);
  }

  /** Otherwise the reader takes the other layout, which never gives the announced kind of payload. */
  lemma BodyMisread(l: OutLayer, rest: seq<Byte>)
    requires Writable(l) && |l.data| % LOW24 == 0
    ensures var got := TakeBody(Header(l.name, l.outF, l.inF, SniffedWord(l.layerType, |l.data|)), rest);
      got == None || !RightKind(l.layerType, got.value.0)
  {
    hide TakeWord, TakeBytes, TakeNewLength, SniffedWord, ParseOldTerms, ParseTerms, ParseBlockTerms, WordsAt;
    SniffsOldExactly(l.layerType, |l.data|);
  }

  /** Reading a written record gives its meaning exactly when its length is not a multiple of 2^24. */
  lemma RecordReadsBack(l: OutLayer, rest: seq<Byte>)
    requires Writable(l)
    ensures |l.data| % LOW24 != 0 ==>
      TakeRecord(RecordBytes(l) + rest) == match Meaning(l) { case None => None case Some(m) => Some((m, rest)) }
    ensures |l.data| % LOW24 == 0 ==>
      var got := TakeRecord(RecordBytes(l) + rest); got == None || !RightKind(l.layerType, got.value.0.body)
  {
    hide TakeHeader, TakeBody, RecordBytes, ParsePayload, SniffedWord, RightKind;
    TakeWrittenHeader(l, rest);
    if |l.data| % LOW24 != 0 {
      BodyReadsBack(l, rest);
    } else {
      BodyMisread(l, [|l.data| / LOW24] + (l.data + rest));
    }
  }

  /** Layers of the kinds that the records announce. */
  predicate AllRightKind(ls: seq<OutLayer>, want: seq<LayerData>) {
    |want| == |ls| && forall k :: 0 <= k < |ls| ==> RightKind(ls[k].layerType, want[k].body)
  }

  /** A record that is read as this layer: its payload means it, and its length keeps the layouts apart. */
  predicate ReadsAs(l: OutLayer, want: LayerData) {
    Writable(l) && |l.data| % LOW24 != 0 && Meaning(l) == Some(want)
  }

  predicate AllReadAs(ls: seq<OutLayer>, want: seq<LayerData>) {
    |want| == |ls| && forall k :: 0 <= k < |ls| ==> ReadsAs(ls[k], want[k])
  }

  /** The records read back as these layers exactly when every one means its layer and no length is a multiple of 2^24. */
  lemma {:induction false} RecordsReadBack(ls: seq<OutLayer>, want: seq<LayerData>)
    requires AllWritable(ls) && AllRightKind(ls, want)
    ensures TakeRecords(RecordsBytes(ls), |ls|) == Some(want) <==> AllReadAs(ls, want)
  {
    hide TakeRecord, Meaning, RecordBytes, RightKind;
    if ls != [] {
      var rest := RecordsBytes(ls[1..]);
      RecordReadsBack(ls[0], rest);
      RecordsReadBack(ls[1..], want[1..]);
      ReadAsStep(ls, want);
      ConsIs(TakeRecords(rest, |ls| - 1), want);
    }
  }

  lemma ReadAsStep(ls: seq<OutLayer>, want: seq<LayerData>)
    requires |want| == |ls| > 0
    ensures AllReadAs(ls, want) <==> ReadsAs(ls[0], want[0]) && AllReadAs(ls[1..], want[1..])
  {
    hide ReadsAs;
    assert ls == [ls[0]] + ls[1..] && want == [want[0]] + want[1..];
  }

  lemma ConsIs(more: Option<seq<LayerData>>, want: seq<LayerData>)
    requires |want| > 0
    ensures more.Some? ==> forall l: LayerData :: [l] + more.value == want <==> l == want[0] && more.value == want[1..]
  {
    if more.Some? {
      forall l: LayerData ensures [l] + more.value == want <==> l == want[0] && more.value == want[1..] {
        assert ([l] + more.value)[1..] == more.value && ([l] + more.value)[0] == l;
        assert want == [want[0]] + want[1..];
      }
    }
  }

  lemma FileReadsBack(ls: seq<OutLayer>, want: seq<LayerData>)
    requires AllWritable(ls) && |ls| < 0x1_0000_0000 && AllRightKind(ls, want)
    ensures Load(FileBytes(ls)) == Some(want) <==> AllReadAs(ls, want)
  {
    hide TakeRecords, TakeWord, EncodeWord, RecordsBytes, AllReadAs, AllRightKind;
    var records := RecordsBytes(ls);
    assert FileBytes(ls) == EncodeWord(FILE_MAGIC) + (EncodeWord(|ls|) + records);
    TakeEncodedWord(FILE_MAGIC, EncodeWord(|ls|) + records);
    TakeEncodedWord(|ls|, records);
    RecordsReadBack(ls, want);
  }
}
