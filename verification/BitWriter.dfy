/** The loops that turn rows of ternary digits into bitplane words (loader.h). */
module BitWriter {
  import opened Bytes
  import opened Bitplane

  predicate TernaryRow(row: seq<int>) {
    forall j :: 0 <= j < |row| ==> -1 <= row[j] <= 1
  }

  /** Word v of a row of which the first j digits are known. */
  function PartWord(row: seq<int>, j: nat, v: nat): Word
    requires j <= |row|
  {
    WordOf(row[Least(16 * v, j)..Least(16 * v + 16, j)])
  }

  lemma PartWordStep(row: seq<int>, j: nat, v: nat)
    requires j < |row| && -1 <= row[j] <= 1
    ensures PartWord(row, j + 1, v) == if v == j / 16 then Marked(PartWord(row, j, v), j % 16, row[j]) else PartWord(row, j, v)
  {
    hide Marked, WordOf;
    if v == j / 16 {
      var ts := row[16 * v..j];
      assert row[16 * v..j + 1] == ts + [row[j]];
      MarkedWord(ts, row[j]);
    } else {
      assert row[Least(16 * v, j)..Least(16 * v + 16, j)] == row[Least(16 * v, j + 1)..Least(16 * v + 16, j + 1)];
    }
  }

  /** All words of a row of which the first j digits are known. */
  function PartWords(row: seq<int>, j: nat): (ws: seq<Word>)
    requires j <= |row|
    ensures |ws| == WordCount(|row|)
  {
    seq(WordCount(|row|), v requires 0 <= v < WordCount(|row|) => PartWord(row, j, v))
  }

  lemma PartWordsStep(row: seq<int>, j: nat)
    requires j < |row| && -1 <= row[j] <= 1
    ensures j / 16 < WordCount(|row|)
    ensures PartWords(row, j + 1)[j / 16] == Marked(PartWords(row, j)[j / 16], j % 16, row[j])
    ensures PartWords(row, j + 1) == PartWords(row, j)[j / 16 := PartWords(row, j + 1)[j / 16]]
  {
    hide Marked, PartWord;
    forall v | 0 <= v < WordCount(|row|)
      ensures PartWord(row, j + 1, v) == if v == j / 16 then Marked(PartWord(row, j, v), j % 16, row[j]) else PartWord(row, j, v)
    {
      PartWordStep(row, j, v);
    }
  }

  lemma PartWordsEnds(row: seq<int>)
    ensures PartWords(row, 0) == seq(WordCount(|row|), _ => 0)
    ensures PartWords(row, |row|) == RowWords(row)
  {
    assert NonZeroFlags([]) == [] && NegativeFlags([]) == [];
    assert WordOf([]) == 0;
    hide WordOf;
  }

  lemma RowsWordsNext(rows: seq<seq<int>>, r: nat)
    requires r < |rows|
    ensures RowsWords(rows[..r + 1]) == RowsWords(rows[..r]) + RowWords(rows[r])
  {
    hide RowWords;
    assert rows[..r + 1][..r] == rows[..r];
  }

  lemma NoRowsWords()
    ensures RowsWords([]) == []
  {
  }

  /** Where the words of a row start. */
  function WordBase(width: nat, r: nat): nat {
    r * width
  }

  lemma FirstStart(width: nat)
    ensures WordBase(width, 0) == 0
  {
  }

  lemma NextStart(rows: nat, width: nat, r: nat)
    requires r < rows
    ensures WordBase(width, r + 1) == WordBase(width, r) + width <= WordBase(width, rows)
  {
    NextRow(rows, width, r);
  }

  /** No word from a position on is marked yet. */
  predicate ClearFrom(ws: seq<Word>, base: nat) {
    forall k :: base <= k < |ws| ==> ws[k] == 0
  }

  /** The two nested loops that set the bits of a term's words. */
  method MarkRows(rows: seq<seq<int>>, inF: nat) returns (combined: array<Word>)
    requires RowsOf(rows, inF) && forall r :: 0 <= r < |rows| ==> TernaryRow(rows[r])
    ensures fresh(combined) && combined[..] == RowsWords(rows)
  {
    hide RowWords, RowsWords, WordCount, TernaryRow, WordBase;
    var width := WordCount(inF);
    combined := new Word[WordBase(width, |rows|)](_ => 0);
    NoRowsWords();
    FirstStart(width);
    assert rows[..0] == [];
    for r := 0 to |rows|
      invariant WordBase(width, r) <= combined.Length && combined[..WordBase(width, r)] == RowsWords(rows[..r])
      invariant ClearFrom(combined[..], WordBase(width, r))
    {
      NextStart(|rows|, width, r);
      hide ClearFrom;
      MarkRow(rows[r], WordBase(width, r), combined);
      RowsWordsNext(rows, r);
    }
    assert combined[..] == combined[..WordBase(width, |rows|)] && rows[..|rows|] == rows;
  }

  method MarkRow(row: seq<int>, base: nat, combined: array<Word>)
    requires TernaryRow(row) && base + WordCount(|row|) <= combined.Length && ClearFrom(combined[..], base)
    modifies combined
    ensures combined[..base + WordCount(|row|)] == old(combined[..base]) + RowWords(row)
    ensures ClearFrom(combined[..], base + WordCount(|row|))
  {
    hide Marked, PartWords, RowWords, WordCount;
    var width := WordCount(|row|);
    PartWordsEnds(row);
    assert combined[base..base + width] == PartWords(row, 0);
    for j := 0 to |row|
      invariant combined[..base] == old(combined[..base])
      invariant forall k :: base + width <= k < combined.Length ==> combined[k] == 0
      invariant combined[base..base + width] == PartWords(row, j)
    {
      PartWordsStep(row, j);
      ghost var words := combined[base..base + width];
      assert words[j / 16] == combined[base + j / 16];
      combined[base + j / 16] := Marked(combined[base + j / 16], j % 16, row[j]);
      assert combined[base..base + width] == words[j / 16 := combined[base + j / 16]];
    }
    assert combined[..base + width] == combined[..base] + combined[base..base + width];
  }
}
