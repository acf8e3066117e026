/** The binary messages between coordinator and workers (distributed/protocol.h). */
module Protocol {
  import opened Bytes

  const FORWARD_MAGIC: Word := 0x544C_4652
  const INPUT_TOKEN: Word := 0
  const INPUT_HIDDEN: Word := 1

  /** Floats are carried as their 32-bit patterns. */
  type Floats = seq<Word>

  predicate IsInt32(i: int) {
    -0x8000_0000 <= i < 0x8000_0000
  }

  datatype Request = Request(seqPos: int, kind: Word, data: Floats)

  /** A message whose element count fits its 32-bit field. */
  predicate Sendable(data: Floats) {
    |data| < 0x1_0000_0000
  }

  function RequestBytes(r: Request): seq<Byte>
    requires IsInt32(r.seqPos)
  {
    EncodeWord(FORWARD_MAGIC) + EncodeWord(SignedToWord(r.seqPos)) + EncodeWord(r.kind)
      + EncodeWord(|r.data| % 0x1_0000_0000) + EncodeWords(r.data)
  }

  /** Where the fields of a request lie: magic, position, input kind, count, and then the data. */
  lemma RequestLayout(r: Request)
    requires IsInt32(r.seqPos) && Sendable(r.data)
    ensures var bs := RequestBytes(r);
      && |bs| == 16 + 4 * |r.data| && WordAt(bs, 0) == FORWARD_MAGIC && WordToSigned(WordAt(bs, 4)) == r.seqPos
      && WordAt(bs, 8) == r.kind && WordAt(bs, 12) == |r.data| && WordsAt(bs, 16, |r.data|) == r.data
  {
    hide EncodeWord, WordAt, EncodeWords, WordsAt;
    var m, p, k, c := EncodeWord(FORWARD_MAGIC), EncodeWord(SignedToWord(r.seqPos)), EncodeWord(r.kind), EncodeWord(|r.data|);
    var d, bs := EncodeWords(r.data), RequestBytes(r);
    EncodeWordLength(FORWARD_MAGIC);
    EncodeWordLength(SignedToWord(r.seqPos));
    EncodeWordLength(r.kind);
    EncodeWordLength(|r.data|);
    EncodeWordsLength(r.data);
    assert bs == [] + m + (p + k + c + d);
    WordBetween(bs, [], FORWARD_MAGIC, p + k + c + d);
    assert bs == m + p + (k + c + d);
    WordBetween(bs, m, SignedToWord(r.seqPos), k + c + d);
    assert bs == (m + p) + k + (c + d);
    WordBetween(bs, m + p, r.kind, c + d);
    WordBetween(bs, m + p + k, |r.data|, d);
    assert bs[16..16 + 4 * |r.data|] == d;
    WordsAtSlice(bs, 16, r.data);
  }

  /** unpack_forward_request: bytes past the announced count are ignored. */
  function ParseRequest(body: seq<Byte>): Option<Request> {
    if |body| < 16 || WordAt(body, 0) != FORWARD_MAGIC then None
    else
      var count: int := WordAt(body, 12);
      if |body| < 16 + 4 * count then None
      else Some(Request(WordToSigned(WordAt(body, 4)), WordAt(body, 8), WordsAt(body, 16, count)))
  }

  function ResponseBytes(data: Floats): seq<Byte> {
    EncodeWord(FORWARD_MAGIC) + EncodeWord(|data| % 0x1_0000_0000) + EncodeWords(data)
  }

  /** Where the fields of a reply lie: magic, count, and then the data. */
  lemma ResponseLayout(data: Floats)
    requires Sendable(data)
    ensures var bs := ResponseBytes(data);
      && |bs| == 8 + 4 * |data| && WordAt(bs, 0) == FORWARD_MAGIC && WordAt(bs, 4) == |data|
      && WordsAt(bs, 8, |data|) == data
  {
    hide EncodeWord, WordAt, EncodeWords, WordsAt;
    var m, c, d, bs := EncodeWord(FORWARD_MAGIC), EncodeWord(|data|), EncodeWords(data), ResponseBytes(data);
    EncodeWordLength(FORWARD_MAGIC);
    EncodeWordLength(|data|);
    EncodeWordsLength(data);
    assert bs == [] + m + (c + d);
    WordBetween(bs, [], FORWARD_MAGIC, c + d);
    WordBetween(bs, m, |data|, d);
    assert bs[8..8 + 4 * |data|] == d;
    WordsAtSlice(bs, 8, data);
  }

  function ParseResponse(body: seq<Byte>): Option<Floats> {
    if |body| < 8 || WordAt(body, 0) != FORWARD_MAGIC then None
    else
      var count: int := WordAt(body, 4);
      if |body| < 8 + 4 * count then None else Some(WordsAt(body, 8, count))
  }

  lemma PrefixParts(body: seq<Byte>, u: seq<Byte>, v: seq<Byte>)
    ensures u + v <= body <==> u <= body && v <= body[|u|..]
  {
    if u + v <= body {
      assert u == body[..|u + v|][..|u|] == body[..|u|];
      assert v == body[..|u + v|][|u|..] == body[|u|..][..|v|];
    }
  }

  /** A body holds a word at its front exactly when it starts with the word's bytes. */
  lemma WordPrefix(body: seq<Byte>, pos: nat, w: Word)
    requires pos <= |body|
    ensures EncodeWord(w) <= body[pos..] <==> pos + 4 <= |body| && WordAt(body, pos) == w
  {
    hide WordAt, EncodeWord;
    if pos + 4 <= |body| {
      WordAtSlice(body, pos, w);
      assert body[pos..][..4] == body[pos..pos + 4];
    }
  }

  lemma WordsPrefix(body: seq<Byte>, pos: nat, ws: seq<Word>)
    requires pos <= |body|
    ensures EncodeWords(ws) <= body[pos..] <==> pos + 4 * |ws| <= |body| && WordsAt(body, pos, |ws|) == ws
  {
    hide WordsAt, EncodeWords;
    if pos + 4 * |ws| <= |body| {
      WordsAtSlice(body, pos, ws);
      assert body[pos..][..4 * |ws|] == body[pos..pos + 4 * |ws|];
    }
  }

  /** A response is read as `data` exactly when its body starts with the packing of `data`. */
  lemma ResponseParsesExactly(body: seq<Byte>, data: Floats)
    requires Sendable(data)
    ensures ParseResponse(body) == Some(data) <==> ResponseBytes(data) <= body
  {
    hide WordAt, EncodeWord, EncodeWords;
    var magic, count := EncodeWord(FORWARD_MAGIC), EncodeWord(|data|);
    assert ResponseBytes(data) == magic + (count + EncodeWords(data));
    PrefixParts(body, magic, count + EncodeWords(data));
    WordPrefix(body, 0, FORWARD_MAGIC);
    assert body[0..] == body;
    if |body| >= 4 {
      PrefixParts(body[4..], count, EncodeWords(data));
      WordPrefix(body, 4, |data|);
      if |body| >= 8 {
        assert body[4..][4..] == body[8..];
        WordsPrefix(body, 8, data);
      }
    }
  }

  /** A request is read as `r` exactly when its body starts with the packing of `r`. */
  lemma RequestParsesExactly(body: seq<Byte>, r: Request)
    requires IsInt32(r.seqPos) && Sendable(r.data)
    ensures ParseRequest(body) == Some(r) <==> RequestBytes(r) <= body
  {
    hide WordAt, EncodeWord, EncodeWords, WordToSigned, SignedToWord;
    var pos := SignedToWord(r.seqPos);
    var magic, position, kind, count :=
      EncodeWord(FORWARD_MAGIC), EncodeWord(pos), EncodeWord(r.kind), EncodeWord(|r.data|);
    assert RequestBytes(r) == magic + (position + (kind + (count + EncodeWords(r.data))));
    PrefixParts(body, magic, position + (kind + (count + EncodeWords(r.data))));
    WordPrefix(body, 0, FORWARD_MAGIC);
    assert body[0..] == body;
    if |body| >= 16 {
      assert body[4..][4..] == body[8..] && body[8..][4..] == body[12..] && body[12..][4..] == body[16..];
      PrefixParts(body[4..], position, kind + (count + EncodeWords(r.data)));
      WordPrefix(body, 4, pos);
      PrefixParts(body[8..], kind, count + EncodeWords(r.data));
      WordPrefix(body, 8, r.kind);
      PrefixParts(body[12..], count, EncodeWords(r.data));
      WordPrefix(body, 12, |r.data|);
      WordsPrefix(body, 16, r.data);
      SignedIsInjective(WordAt(body, 4), r.seqPos);
    }
  }

  lemma SignedIsInjective(w: Word, i: int)
    requires IsInt32(i)
    ensures WordToSigned(w) == i <==> w == SignedToWord(i)
  {
  }

  lemma RequestCarried(r: Request)
    requires IsInt32(r.seqPos) && Sendable(r.data)
    ensures ParseRequest(RequestBytes(r)) == Some(r)
  {
    RequestParsesExactly(RequestBytes(r), r);
  }

  lemma ResponseCarried(data: Floats)
    requires Sendable(data)
    ensures ParseResponse(ResponseBytes(data)) == Some(data)
  {
    ResponseParsesExactly(ResponseBytes(data), data);
  }

  /** What arrives of a request: what was packed, when its length fits the count field. */
  function Delivered(r: Request): (got: Option<Request>)
    requires IsInt32(r.seqPos)
    ensures Sendable(r.data) ==> got == Some(r)
  {
    if Sendable(r.data) then
      RequestCarried(r);
      ParseRequest(RequestBytes(r))
    else ParseRequest(RequestBytes(r))
  }

  /** What arrives of a response. */
  function Answered(data: Floats): (got: Option<Floats>)
    ensures Sendable(data) ==> got == Some(data)
  {
    if Sendable(data) then
      ResponseCarried(data);
      ParseResponse(ResponseBytes(data))
    else ParseResponse(ResponseBytes(data))
  }

  method PutWords(buf: array<Byte>, pos: nat, data: Floats)
    requires pos + 4 * |data| == buf.Length
    modifies buf
    ensures buf[..] == old(buf[..])[..pos] + EncodeWords(data)
  {
    for i := 0 to |data|
      invariant buf[..pos + 4 * i] == old(buf[..])[..pos] + EncodeWords(data[..i])
    {
      ghost var before := buf[..];
      PutWord(buf, pos + 4 * i, data[i]);
      assert data[..i + 1][..i] == data[..i];
      assert buf[..pos + 4 * (i + 1)] == before[..pos + 4 * i] + EncodeWord(data[i]);
    }
    assert data[..|data|] == data;
    assert buf[..] == buf[..pos + 4 * |data|];
  }

  /** One more field behind those already written. */
  method PutNext(buf: array<Byte>, pos: nat, w: Word, ghost done: seq<Byte>)
    requires pos + 4 <= buf.Length && buf[..pos] == done
    modifies buf
    ensures buf[..pos + 4] == done + EncodeWord(w)
  {
    hide EncodeWord;
    PutWord(buf, pos, w);
    EncodeWordLength(w);
    assert buf[..pos + 4] == buf[..][..pos + 4];
  }

  method PackForwardRequest(seqPos: int, kind: Word, data: Floats) returns (buf: array<Byte>)
    requires IsInt32(seqPos)
    ensures fresh(buf) && buf[..] == RequestBytes(Request(seqPos, kind, data))
  {
    hide EncodeWord, EncodeWords, SignedToWord;
    buf := new Byte[16 + 4 * |data|];
    PutNext(buf, 0, FORWARD_MAGIC, []);
    PutNext(buf, 4, SignedToWord(seqPos), EncodeWord(FORWARD_MAGIC));
    PutNext(buf, 8, kind, EncodeWord(FORWARD_MAGIC) + EncodeWord(SignedToWord(seqPos)));
    PutNext(buf, 12, |data| % 0x1_0000_0000, EncodeWord(FORWARD_MAGIC) + EncodeWord(SignedToWord(seqPos)) + EncodeWord(kind));
    PutWords(buf, 16, data);
  }

  method PackForwardResponse(data: Floats) returns (buf: array<Byte>)
    ensures fresh(buf) && buf[..] == ResponseBytes(data)
  {
    hide EncodeWord, EncodeWords;
    buf := new Byte[8 + 4 * |data|];
    PutNext(buf, 0, FORWARD_MAGIC, []);
    PutNext(buf, 4, |data| % 0x1_0000_0000, EncodeWord(FORWARD_MAGIC));
    PutWords(buf, 8, data);
  }

  method ReadWords(body: seq<Byte>, pos: nat, count: nat) returns (data: Floats)
    requires pos + 4 * count <= |body|
    ensures data == WordsAt(body, pos, count)
  {
    data := [];
    for i := 0 to count
      invariant data == WordsAt(body, pos, i)
    {
      data := data + [WordAt(body, pos + 4 * i)];
    }
  }

  method UnpackForwardRequest(body: seq<Byte>) returns (ok: bool, seqPos: int, kind: Word, data: Floats)
    ensures ok <==> ParseRequest(body).Some?
    ensures ok ==> ParseRequest(body) == Some(Request(seqPos, kind, data)) && IsInt32(seqPos)
  {
    hide WordAt;
    ok, seqPos, kind, data := false, 0, 0, [];
    if |body| < 16 || WordAt(body, 0) != FORWARD_MAGIC {
      return;
    }
    seqPos, kind := WordToSigned(WordAt(body, 4)), WordAt(body, 8);
    var count: int := WordAt(body, 12);
    if |body| < 16 + 4 * count {
      return;
    }
    data := ReadWords(body, 16, count);
    ok := true;
  }

  method UnpackForwardResponse(body: seq<Byte>) returns (ok: bool, data: Floats)
    ensures ok <==> ParseResponse(body).Some?
    ensures ok ==> ParseResponse(body) == Some(data)
  {
    hide WordAt;
    ok, data := false, [];
    if |body| < 8 || WordAt(body, 0) != FORWARD_MAGIC {
      return;
    }
    var count: int := WordAt(body, 4);
    if |body| < 8 + 4 * count {
      return;
    }
    data := ReadWords(body, 8, count);
    ok := true;
  }
}
