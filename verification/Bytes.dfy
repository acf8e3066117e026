/** Bytes and the little-endian 32-bit words that all files and messages are made of. */
module Bytes {

  type Byte = x: int | 0 <= x < 256
  type Word = x: int | 0 <= x < 0x1_0000_0000

  datatype Option<+T> = None | Some(value: T)

  function Pow2(n: nat): (p: nat)
    ensures p > 0
  {
    if n == 0 then 1 else 2 * Pow2(n - 1)
  }

  lemma {:induction false} Pow2Add(a: nat, b: nat)
    ensures Pow2(a + b) == Pow2(a) * Pow2(b)
  {
    if a > 0 {
      Pow2Add(a - 1, b);
      assert Pow2(a + b) == 2 * Pow2(a - 1 + b);
    }
  }

  lemma {:induction false} Pow2Monotone(a: nat, b: nat)
    requires a <= b
    ensures Pow2(a) <= Pow2(b)
  {
    if a < b {
      Pow2Monotone(a, b - 1);
    }
  }

  /** The number of blocks of a size that cover n elements, the last one possibly short. */
  function CeilDiv(n: nat, size: nat): nat
    requires size > 0
  {
    (n + size - 1) / size
  }

  function Least(a: nat, b: nat): nat {
    if a < b then a else b
  }

  lemma MulMonotone(a: int, b: int, u: int)
    requires u >= 0
    ensures a <= b ==> a * u <= b * u
  {
    assert b * u - a * u == (b - a) * u;
  }

  /** The next row of a row-major matrix. */
  lemma NextRow(rows: nat, width: nat, r: nat)
    requires r < rows
    ensures (r + 1) * width == r * width + width <= rows * width
  {
    MulMonotone(r + 1, rows, width);
  }

  /** A cell of a row-major matrix lies inside its buffer. */
  lemma FlatIndex(rows: nat, width: nat, r: nat, c: nat)
    requires r < rows && c < width
    ensures r * width + c < rows * width
  {
    MulMonotone(r + 1, rows, width);
    assert (r + 1) * width == r * width + width;
  }

  function EncodeWord(w: Word): (bs: seq<Byte>)
    ensures |bs| == 4
  {
    [w % 256, w / 256 % 256, w / 256 / 256 % 256, w / 256 / 256 / 256]
  }

  /** One more significant byte in front of the more significant rest. */
  function Join(low: Byte, high: nat): nat {
    low as int + 256 * high
  }

  /** The number that bytes stand for, lowest byte first. */
  function LittleEndian(bs: seq<Byte>): nat {
    if bs == [] then 0 else Join(bs[0], LittleEndian(bs[1..]))
  }

  /** The word at a position; four bytes always fit, see WordAtJoins. */
  function WordAt(bs: seq<Byte>, pos: nat): Word
    requires pos + 4 <= |bs|
  {
    var v := LittleEndian(bs[pos..pos + 4]);
    if v < 0x1_0000_0000 then v else 0
  }

  lemma WordAtJoins(bs: seq<Byte>, pos: nat)
    requires pos + 4 <= |bs|
    ensures WordAt(bs, pos) == Join(bs[pos], Join(bs[pos + 1], Join(bs[pos + 2], bs[pos + 3] as int)))
  {
    hide Join;
    var four := bs[pos..pos + 4];
    assert four[1..][0] == bs[pos + 1] && four[1..][1..][0] == bs[pos + 2];
    assert four[1..][1..][1..][0] == bs[pos + 3] && four[1..][1..][1..][1..] == [];
    LastByte(bs[pos + 3]);
    assert LittleEndian(four) == Join(bs[pos], LittleEndian(four[1..]));
    assert LittleEndian(four[1..]) == Join(bs[pos + 1], LittleEndian(four[1..][1..]));
    assert LittleEndian(four[1..][1..]) == Join(bs[pos + 2], LittleEndian(four[1..][1..][1..]));
    assert LittleEndian(four[1..][1..][1..]) == Join(bs[pos + 3], LittleEndian([]));
    FourBytesFit(bs[pos], bs[pos + 1], bs[pos + 2], bs[pos + 3]);
  }

  lemma FourBytesFit(a: Byte, b: Byte, c: Byte, d: Byte)
    ensures Join(a, Join(b, Join(c, d as int))) < 0x1_0000_0000
  {
  }

  lemma LastByte(b: Byte)
    ensures Join(b, LittleEndian([])) == b
  {
  }

  lemma JoinSplits(x: nat)
    ensures Join(x % 256, x / 256) == x
  {
  }

  lemma SplitJoins(low: Byte, high: nat)
    ensures Join(low, high) % 256 == low && Join(low, high) / 256 == high
  {
  }

  lemma EncodeDecodes(w: Word)
    ensures WordAt(EncodeWord(w), 0) == w
  {
    hide Join, WordAt;
    WordAtJoins(EncodeWord(w), 0);
    JoinSplits(w / 256 / 256);
    JoinSplits(w / 256);
    JoinSplits(w);
  }

  lemma DecodeEncodes(bs: seq<Byte>, pos: nat)
    requires pos + 4 <= |bs|
    ensures EncodeWord(WordAt(bs, pos)) == bs[pos..pos + 4]
  {
    hide Join, WordAt;
    WordAtJoins(bs, pos);
    var c := Join(bs[pos + 2], bs[pos + 3] as int);
    var b := Join(bs[pos + 1], c);
    SplitJoins(bs[pos + 2], bs[pos + 3] as int);
    SplitJoins(bs[pos + 1], c);
    SplitJoins(bs[pos], b);
  }

  /** A word sits at pos exactly when its four bytes do. */
  lemma WordAtSlice(bs: seq<Byte>, pos: nat, w: Word)
    requires pos + 4 <= |bs|
    ensures WordAt(bs, pos) == w <==> bs[pos..pos + 4] == EncodeWord(w)
  {
    DecodeEncodes(bs, pos);
    EncodeDecodes(w);
    if bs[pos..pos + 4] == EncodeWord(w) {
      assert forall k :: 0 <= k < 4 ==> bs[pos + k] == EncodeWord(w)[k];
    }
  }

  /** A word encoded in the middle of other bytes is found there. */
  lemma WordBetween(bs: seq<Byte>, pre: seq<Byte>, w: Word, post: seq<Byte>)
    requires bs == pre + EncodeWord(w) + post
    ensures |pre| + 4 <= |bs| && WordAt(bs, |pre|) == w
  {
    hide EncodeWord, WordAt;
    EncodeWordLength(w);
    assert bs[|pre|..|pre| + 4] == EncodeWord(w);
    WordAtSlice(bs, |pre|, w);
  }

  /** Words in memory order. */
  function EncodeWords(ws: seq<Word>): (bs: seq<Byte>)
    ensures |bs| == 4 * |ws|
  {
    if ws == [] then [] else EncodeWords(ws[..|ws| - 1]) + EncodeWord(ws[|ws| - 1])
  }

  function WordsAt(bs: seq<Byte>, pos: nat, count: nat): (ws: seq<Word>)
    requires pos + 4 * count <= |bs|
    ensures |ws| == count
  {
    if count == 0 then [] else WordsAt(bs, pos, count - 1) + [WordAt(bs, pos + 4 * (count - 1))]
  }

  lemma SliceJoins(bs: seq<Byte>, a: nat, b: nat, c: nat)
    requires a <= b <= c <= |bs|
    ensures bs[a..c] == bs[a..b] + bs[b..c]
  {
  }

  lemma ConcatsAgree(u: seq<Byte>, v: seq<Byte>, u': seq<Byte>, v': seq<Byte>)
    requires |u| == |u'|
    ensures u + v == u' + v' <==> u == u' && v == v'
  {
    if u + v == u' + v' {
      assert u == (u + v)[..|u|] && v == (u + v)[|u|..] && u' == (u' + v')[..|u|] && v' == (u' + v')[|u|..];
    }
  }

  lemma WordsAtLast(bs: seq<Byte>, pos: nat, ws: seq<Word>, w: Word)
    requires pos + 4 * |ws| + 4 <= |bs|
    requires WordsAt(bs, pos, |ws|) == ws <==> bs[pos..pos + 4 * |ws|] == EncodeWords(ws)
    ensures WordsAt(bs, pos, |ws| + 1) == ws + [w] <==> bs[pos..pos + 4 * |ws| + 4] == EncodeWords(ws) + EncodeWord(w)
  {
    hide WordAt, WordsAt, EncodeWords, EncodeWord;
    var at := pos + 4 * |ws|;
    EncodeWordsLength(ws);
    WordsAtNext(bs, pos, |ws|);
    EncodeWordLength(w);
    WordAtSlice(bs, at, w);
    SliceJoins(bs, pos, at, at + 4);
    ConcatsAgree(bs[pos..at], bs[at..at + 4], EncodeWords(ws), EncodeWord(w));
    SnocsAgree(WordsAt(bs, pos, |ws|), WordAt(bs, at), ws, w);
  }

  lemma WordsAtNext(bs: seq<Byte>, pos: nat, n: nat)
    requires pos + 4 * n + 4 <= |bs|
    ensures |WordsAt(bs, pos, n)| == n && WordsAt(bs, pos, n + 1) == WordsAt(bs, pos, n) + [WordAt(bs, pos + 4 * n)]
  {
    hide WordAt;
  }

  lemma EncodeWordLength(w: Word)
    ensures |EncodeWord(w)| == 4
  {
  }

  lemma EncodeWordsNext(ws: seq<Word>, w: Word)
    ensures EncodeWords(ws + [w]) == EncodeWords(ws) + EncodeWord(w)
  {
    hide EncodeWord;
    assert (ws + [w])[..|ws|] == ws;
  }

  lemma SnocsAgree(u: seq<Word>, x: Word, v: seq<Word>, y: Word)
    requires |u| == |v|
    ensures u + [x] == v + [y] <==> u == v && x == y
  {
    if u + [x] == v + [y] {
      assert u == (u + [x])[..|u|] && x == (u + [x])[|u|] && y == (v + [y])[|v|];
      assert v == (v + [y])[..|v|];
    }
  }

  lemma EncodeWordsLength(ws: seq<Word>)
    ensures |EncodeWords(ws)| == 4 * |ws|
  {
  }

  /** Words sit at pos exactly when their bytes do. */
  lemma {:induction false} WordsAtSlice(bs: seq<Byte>, pos: nat, ws: seq<Word>)
    requires pos + 4 * |ws| <= |bs|
    ensures WordsAt(bs, pos, |ws|) == ws <==> bs[pos..pos + 4 * |ws|] == EncodeWords(ws)
  {
    hide WordAt, EncodeWord;
    if ws == [] {
      assert bs[pos..pos] == [];
    } else {
      hide WordsAt, EncodeWords;
      var n := |ws| - 1;
      var front, w := ws[..n], ws[n];
      WordsAtSlice(bs, pos, front);
      WordsAtLast(bs, pos, front, w);
      EncodeWordsNext(front, w);
      assert ws == front + [w];
    }
  }

  /** A 32-bit signed integer as it lies in memory. */
  function SignedToWord(i: int): Word
    requires -0x8000_0000 <= i < 0x8000_0000
  {
    if i < 0 then i + 0x1_0000_0000 else i
  }

  function WordToSigned(w: Word): (i: int)
    ensures -0x8000_0000 <= i < 0x8000_0000
    ensures SignedToWord(i) == w
  {
    if w < 0x8000_0000 then w else w - 0x1_0000_0000
  }

  /** memcpy of one word. */
  method PutWord(buf: array<Byte>, pos: nat, w: Word)
    requires pos + 4 <= buf.Length
    modifies buf
    ensures buf[..] == old(buf[..])[..pos] + EncodeWord(w) + old(buf[..])[pos + 4..]
  {
    buf[pos], buf[pos + 1], buf[pos + 2], buf[pos + 3] := w % 256, w / 256 % 256, w / 256 / 256 % 256, w / 256 / 256 / 256;
  }
}
