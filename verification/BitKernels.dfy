/** The bitplane kernels: scalar (kernel_scalar.cpp), AVX2 (kernel_avx2.cpp), NEON (kernel_neon.cpp), and their dispatch. */
module BitKernels {
  import opened Bytes
  import opened Bitplane
  import opened BitOps
  import opened RecordFile
  import opened Vectors
  import Ternary

  const DEAD := -128
  const MAX_ACTIVE := 32

  /** The digit in bit position k of a word. */
  function Digit(w: Word, k: nat): int {
    if Bit(w, k + 16) then (if Bit(w, k) then -1 else 1) else 0
  }

  predicate FitsMatrix(term: BitTerm, outF: nat, inF: nat) {
    |term.combined| == outF * WordCount(inF)
  }

  predicate AllFit(terms: seq<BitTerm>, outF: nat, inF: nat) {
    forall t :: 0 <= t < |terms| ==> FitsMatrix(terms[t], outF, inF)
  }

  function WordIndex(outF: nat, inF: nat, row: nat, j: nat): (k: nat)
    requires row < outF && j < inF
    ensures k < outF * WordCount(inF)
  {
    ColumnWord(inF, j);
    FlatIndex(outF, WordCount(inF), row, j / 16);
    row * WordCount(inF) + j / 16
  }

  lemma ColumnWord(inF: nat, j: nat)
    requires j < inF
    ensures j / 16 < WordCount(inF)
  {
  }

  /** Row of ternary digits of a term. */
  function DigitRow(term: BitTerm, outF: nat, inF: nat, row: nat): (w: Vec)
    requires FitsMatrix(term, outF, inF) && row < outF
    ensures |w| == inF
  {
    seq(inF, j requires 0 <= j < inF => Digit(term.combined[WordIndex(outF, inF, row, j)], j % 16) as real)
  }

  lemma DigitOfRow(term: BitTerm, outF: nat, inF: nat, row: nat, j: nat)
    requires FitsMatrix(term, outF, inF) && row < outF && j < inF
    ensures |DigitRow(term, outF, inF, row)| == inF
    ensures DigitRow(term, outF, inF, row)[j] == Digit(term.combined[WordIndex(outF, inF, row, j)], j % 16) as real
  {
    hide Digit, WordIndex;
  }

  /** The weight of a term: its power of two, nothing for a dead term. */
  function Weight(alphaExp: int): real {
    if alphaExp == DEAD then 0.0 else Ternary.Pow2(alphaExp)
  }

  /** Row of the product with sum_t 2^alpha_t * T_t, over the first m terms. */
  function ProductRow(terms: seq<BitTerm>, outF: nat, inF: nat, row: nat, x: Vec, m: nat): real
    requires AllFit(terms, outF, inF) && row < outF && |x| == inF && m <= |terms|
  {
    if m == 0 then 0.0
    else ProductRow(terms, outF, inF, row, x, m - 1) + Weight(terms[m - 1].alphaExp) * Dot(DigitRow(terms[m - 1], outF, inF, row), x)
  }

  function Product(terms: seq<BitTerm>, outF: nat, inF: nat, x: Vec, m: nat): (y: Vec)
    requires AllFit(terms, outF, inF) && |x| == inF && m <= |terms|
    ensures |y| == outF
  {
    seq(outF, row requires 0 <= row < outF => ProductRow(terms, outF, inF, row, x, m))
  }

  // ----- the scalar kernel: term by term

  method ScalarDot(term: BitTerm, outF: nat, inF: nat, row: nat, x: Vec) returns (sum: real)
    requires FitsMatrix(term, outF, inF) && row < outF && |x| == inF
    ensures sum == Dot(DigitRow(term, outF, inF, row), x)
  {
    hide Bit, DotRange, DigitRow;
    DigitRowLength(term, outF, inF, row);
    ghost var digits := DigitRow(term, outF, inF, row);
    sum := 0.0;
    NoProducts(digits, x, 0);
    for j := 0 to inF
      invariant sum == DotRange(digits, x, 0, j)
    {
      NextProduct(digits, x, 0, j);
      DigitOfRow(term, outF, inF, row, j);
      var c := term.combined[WordIndex(outF, inF, row, j)];
      var isNz, isNeg := Bit(c, j % 16 + 16), Bit(c, j % 16);
      if isNz {
        sum := sum + if isNeg then -x[j] else x[j];
      }
    }
  }

  /** ternary_mul_scalar */
  method ScalarKernel(terms: seq<BitTerm>, outF: nat, inF: nat, x: Vec) returns (output: array<real>)
    requires AllFit(terms, outF, inF) && |x| == inF
    ensures output[..] == Product(terms, outF, inF, x, |terms|)
  {
    hide ProductRow, DigitRow, Weight, FitsMatrix;
    output := new real[outF];
    NoTerms(terms, outF, inF, x);
    for i := 0 to outF
      invariant forall k :: 0 <= k < i ==> output[k] == 0.0
    {
      output[i] := 0.0;
    }
    assert output[..] == Product(terms, outF, inF, x, 0);
    for t := 0 to |terms|
      invariant output[..] == Product(terms, outF, inF, x, t)
    {
      NextTerm(terms, outF, inF, x, t);
      if terms[t].alphaExp != DEAD {
        AddTerm(output, terms, outF, inF, x, t);
      }
    }
  }

  /** The row loop for one live term. */
  method AddTerm(output: array<real>, terms: seq<BitTerm>, outF: nat, inF: nat, x: Vec, t: nat)
    requires AllFit(terms, outF, inF) && |x| == inF && t < |terms| && terms[t].alphaExp != DEAD
    requires output[..] == Product(terms, outF, inF, x, t)
    modifies output
    ensures output[..] == Product(terms, outF, inF, x, t + 1)
  {
    hide Product, ProductRow, DigitRow, Weight, FitsMatrix, AllFit, Dot;
    ghost var before, after := Product(terms, outF, inF, x, t), Product(terms, outF, inF, x, t + 1);
    ProductLength(terms, outF, inF, x, t);
    ProductLength(terms, outF, inF, x, t + 1);
    var weight := Ternary.Pow2(terms[t].alphaExp);
    for i := 0 to outF
      invariant forall k :: 0 <= k < i ==> output[k] == after[k]
      invariant forall k :: i <= k < outF ==> output[k] == before[k]
    {
      LiveTermRow(terms, outF, inF, x, t, i);
      var sum := ScalarDot(terms[t], outF, inF, i, x);
      output[i] := output[i] + weight * sum;
    }
    assert output[..] == after;
  }

  lemma LiveTermRow(terms: seq<BitTerm>, outF: nat, inF: nat, x: Vec, t: nat, i: nat)
    requires AllFit(terms, outF, inF) && |x| == inF && t < |terms| && terms[t].alphaExp != DEAD && i < outF
    ensures FitsMatrix(terms[t], outF, inF) && |DigitRow(terms[t], outF, inF, i)| == inF
    ensures Product(terms, outF, inF, x, t + 1)[i]
      == Product(terms, outF, inF, x, t)[i] + Ternary.Pow2(terms[t].alphaExp) * Dot(DigitRow(terms[t], outF, inF, i), x)
  {
    hide DigitRow, Weight, Dot;
    DigitRowLength(terms[t], outF, inF, i);
    LiveWeight(terms[t].alphaExp);
    ProductAt(terms, outF, inF, x, t, i);
    ProductAt(terms, outF, inF, x, t + 1, i);
    hide Product;
  }

  lemma ProductAt(terms: seq<BitTerm>, outF: nat, inF: nat, x: Vec, m: nat, i: nat)
    requires AllFit(terms, outF, inF) && |x| == inF && m <= |terms| && i < outF
    ensures |Product(terms, outF, inF, x, m)| == outF && Product(terms, outF, inF, x, m)[i] == ProductRow(terms, outF, inF, i, x, m)
  {
    hide ProductRow;
  }

  lemma ProductLength(terms: seq<BitTerm>, outF: nat, inF: nat, x: Vec, m: nat)
    requires AllFit(terms, outF, inF) && |x| == inF && m <= |terms|
    ensures |Product(terms, outF, inF, x, m)| == outF
  {
  }

  lemma LiveWeight(e: int)
    requires e != DEAD
    ensures Weight(e) == Ternary.Pow2(e)
  {
  }

  lemma NoTerms(terms: seq<BitTerm>, outF: nat, inF: nat, x: Vec)
    requires AllFit(terms, outF, inF) && |x| == inF
    ensures Product(terms, outF, inF, x, 0) == Zeros(outF)
  {
  }

  /** One more term; a dead one changes nothing. */
  lemma NextTerm(terms: seq<BitTerm>, outF: nat, inF: nat, x: Vec, t: nat)
    requires AllFit(terms, outF, inF) && |x| == inF && t < |terms|
    ensures forall i :: 0 <= i < outF ==> |DigitRow(terms[t], outF, inF, i)| == inF
    ensures forall i :: 0 <= i < outF ==>
      Product(terms, outF, inF, x, t + 1)[i]
      == Product(terms, outF, inF, x, t)[i] + Weight(terms[t].alphaExp) * Dot(DigitRow(terms[t], outF, inF, i), x)
    ensures terms[t].alphaExp == DEAD ==> Product(terms, outF, inF, x, t + 1) == Product(terms, outF, inF, x, t)
  {
    hide DigitRow;
    forall i | 0 <= i < outF ensures |DigitRow(terms[t], outF, inF, i)| == inF {
      DigitRowLength(terms[t], outF, inF, i);
    }
    if terms[t].alphaExp == DEAD {
      forall i | 0 <= i < outF ensures Product(terms, outF, inF, x, t + 1)[i] == Product(terms, outF, inF, x, t)[i] {
        assert 0.0 * Dot(DigitRow(terms[t], outF, inF, i), x) == 0.0;
      }
    }
  }

  lemma DigitRowLength(term: BitTerm, outF: nat, inF: nat, row: nat)
    requires FitsMatrix(term, outF, inF) && row < outF
    ensures |DigitRow(term, outF, inF, row)| == inF
  {
  }

  // ----- vector kernels: row by row, all terms at once

  /** What the loads of the last word find behind the input. */
  type Memory = nat -> real

  /** An unmasked vector load; past the end of the input it reads whatever lies there. */
  function Load(x: Vec, beyond: Memory, at: nat, lanes: nat): (v: Lanes)
    ensures |v| == lanes
  {
    seq(lanes, k requires 0 <= k < lanes => if at + k < |x| then x[at + k] else beyond(at + k))
  }

  /** The lanes that the mask selects, zero elsewhere (blend with zero, or a bitwise and). */
  function Select(mask: Bits, v: Lanes): (r: Lanes)
    requires |v| <= |mask|
    ensures |r| == |v|
  {
    seq(|v|, k requires 0 <= k < |v| => if mask[k] then v[k] else 0.0)
  }

  function SubLanes(a: Lanes, b: Lanes): (v: Lanes)
    requires |a| == |b|
    ensures |v| == |a|
  {
    seq(|a|, k requires 0 <= k < |a| => a[k] - b[k])
  }

  function BitDigit(nz: bool, neg: bool): int {
    if nz then (if neg then -1 else 1) else 0
  }

  /** Digits at positions sh up to sh + n of a word, given as bits, times the lanes. */
  function ChunkDot(c: Bits, sh: nat, v: Lanes, n: nat): real
    requires |c| == 32 && sh + n <= 16 && n <= |v|
  {
    if n == 0 then 0.0
    else ChunkDot(c, sh, v, n - 1) + (BitDigit(c[16 + sh + n - 1], c[sh + n - 1]) as real) * v[n - 1]
  }

  /** Adds one chunk of a word to an accumulator: n digits from position sh. */
  method AddChunk(acc: Lanes, c: Bits, sh: nat, n: nat, v: Lanes) returns (sum: Lanes)
    requires |c| == 32 && |acc| == |v| && n <= |v| && sh + |v| <= 16
    ensures |sum| == |acc| && LaneSum(sum) == LaneSum(acc) + ChunkDot(c, sh, v, n)
  {
    hide LaneSum, ChunkDot;
    var nzw, negw := ShiftRight(c, 16)[..16], c[..16];
    var abits := And(ShiftRight(And(nzw, Not(negw)), sh), Ones(0, n, 16));
    var sbits := And(ShiftRight(And(nzw, negw), sh), Ones(0, n, 16));
    AddLaneSum(acc, Select(abits, v));
    sum := AddLanes(acc, Select(abits, v));
    SubLaneSum(sum, Select(sbits, v));
    sum := SubLanes(sum, Select(sbits, v));
    forall k | 0 <= k < |v|
      ensures abits[k] <==> k < n && c[16 + sh + k] && !c[sh + k]
      ensures sbits[k] <==> k < n && c[16 + sh + k] && c[sh + k]
    {
    }
    SelectedSums(c, sh, n, v, abits, sbits, |v|);
    assert Select(abits, v)[..|v|] == Select(abits, v) && Select(sbits, v)[..|v|] == Select(sbits, v);
  }

  lemma {:induction false} SubLaneSum(a: Lanes, b: Lanes)
    requires |a| == |b|
    ensures LaneSum(SubLanes(a, b)) == LaneSum(a) - LaneSum(b)
  {
    if a != [] {
      var n := |a| - 1;
      SubLaneSum(a[..n], b[..n]);
      assert SubLanes(a, b)[..n] == SubLanes(a[..n], b[..n]);
    }
  }

  lemma {:induction false} SelectedSums(c: Bits, sh: nat, n: nat, v: Lanes, abits: Bits, sbits: Bits, m: nat)
    requires |c| == 32 && n <= |v| && sh + |v| <= 16 && |abits| == |sbits| == 16 && m <= |v|
    requires forall k :: 0 <= k < |v| ==>
      (abits[k] <==> k < n && c[16 + sh + k] && !c[sh + k]) && (sbits[k] <==> k < n && c[16 + sh + k] && c[sh + k])
    ensures LaneSum(Select(abits, v)[..m]) - LaneSum(Select(sbits, v)[..m]) == ChunkDot(c, sh, v, Least(m, n))
  {
    hide LaneSum, Select, ChunkDot, BitDigit;
    if m > 0 {
      SelectedSums(c, sh, n, v, abits, sbits, m - 1);
      SelectedLast(abits, v, m);
      SelectedLast(sbits, v, m);
      var nz, neg := c[16 + sh + m - 1], c[sh + m - 1];
      assert (abits[m - 1] <==> m - 1 < n && nz && !neg) && (sbits[m - 1] <==> m - 1 < n && nz && neg);
      if m <= n {
        NextOfChunk(c, sh, v, m);
        DigitTimes(nz, neg, v[m - 1]);
      }
    } else {
      NothingSelected(c, sh, v, abits, sbits);
    }
  }

  lemma NothingSelected(c: Bits, sh: nat, v: Lanes, abits: Bits, sbits: Bits)
    requires |c| == 32 && sh <= 16 && |v| <= |abits| && |v| <= |sbits|
    ensures |Select(abits, v)| == |Select(sbits, v)| == |v|
    ensures LaneSum(Select(abits, v)[..0]) == LaneSum(Select(sbits, v)[..0]) == ChunkDot(c, sh, v, 0) == 0.0
  {
  }

  lemma NextOfChunk(c: Bits, sh: nat, v: Lanes, m: nat)
    requires |c| == 32 && sh + m <= 16 && 0 < m <= |v|
    ensures ChunkDot(c, sh, v, m) == ChunkDot(c, sh, v, m - 1) + (BitDigit(c[16 + sh + m - 1], c[sh + m - 1]) as real) * v[m - 1]
  {
  }

  lemma DigitTimes(nz: bool, neg: bool, x: real)
    ensures (BitDigit(nz, neg) as real) * x == (if nz && !neg then x else 0.0) - (if nz && neg then x else 0.0)
  {
  }

  lemma SelectedLast(mask: Bits, v: Lanes, m: nat)
    requires |v| <= |mask| && 0 < m <= |v|
    ensures |Select(mask, v)| == |v|
    ensures LaneSum(Select(mask, v)[..m]) == LaneSum(Select(mask, v)[..m - 1]) + if mask[m - 1] then v[m - 1] else 0.0
  {
    assert Select(mask, v)[..m][..m - 1] == Select(mask, v)[..m - 1];
  }

  /** Bits that agree below position sh + n on both halves give the same chunk. */
  lemma {:induction false} ChunkIsRow(
      c: Bits, term: BitTerm, outF: nat, inF: nat, row: nat, x: Vec, beyond: Memory, w: nat, sh: nat, lanes: nat, n: nat)
    requires FitsMatrix(term, outF, inF) && row < outF && |x| == inF && |c| == 32
    requires n <= lanes && sh + n <= 16 && 16 * w + sh + n <= inF && row * WordCount(inF) + w < |term.combined|
    requires forall k :: sh <= k < sh + n ==> BitDigit(c[16 + k], c[k]) == Digit(term.combined[row * WordCount(inF) + w], k)
    ensures ChunkDot(c, sh, Load(x, beyond, 16 * w + sh, lanes), n)
         == DotRange(DigitRow(term, outF, inF, row), x, 16 * w + sh, 16 * w + sh + n)
  {
    hide Digit, BitDigit, WordCount, DigitRow, FitsMatrix;
    DigitRowLength(term, outF, inF, row);
    if n > 0 {
      ChunkIsRow(c, term, outF, inF, row, x, beyond, w, sh, lanes, n - 1);
      RowDigit(term, outF, inF, row, w, sh + n - 1);
    }
  }

  /** Digit k of word w of a row. */
  lemma RowDigit(term: BitTerm, outF: nat, inF: nat, row: nat, w: nat, k: nat)
    requires FitsMatrix(term, outF, inF) && row < outF && k < 16 && 16 * w + k < inF
    requires row * WordCount(inF) + w < |term.combined|
    ensures |DigitRow(term, outF, inF, row)| == inF
    ensures DigitRow(term, outF, inF, row)[16 * w + k] == Digit(term.combined[row * WordCount(inF) + w], k) as real
  {
    hide Digit, WordCount;
    var j := 16 * w + k;
    assert j / 16 == w && j % 16 == k;
    assert WordIndex(outF, inF, row, j) == row * WordCount(inF) + w;
  }

  /** The bits of a word, cut to `rem` digits by the tail mask when it is the last, partial word. */
  function WordBits(word: Word, rem: nat): (c: Bits)
    ensures |c| == 32
  {
    var c := BitsOf(word, 32);
    if rem < 16 then And(c, Or(Ones(0, rem, 32), Ones(16, 16 + rem, 32))) else c
  }

  lemma WordBitsDigit(word: Word, rem: nat, k: nat)
    requires k < rem && k < 16
    ensures BitDigit(WordBits(word, rem)[16 + k], WordBits(word, rem)[k]) == Digit(word, k)
  {
    hide Bit;
  }

  /**
   One word of one row of one term. With 8 lanes these are the two halves of the AVX2 kernel, with 4
   lanes the four chunks of the NEON kernel; rem is the number of digits the word holds.
   */
  method AddWord(acc: Lanes, term: BitTerm, outF: nat, inF: nat, row: nat, x: Vec, beyond: Memory, w: nat, rem: nat, lanes: nat)
    returns (sum: Lanes)
    requires FitsMatrix(term, outF, inF) && row < outF && |x| == inF && |acc| == lanes && (lanes == 4 || lanes == 8)
    requires 0 < rem <= 16 && 16 * w + rem <= inF
    ensures |sum| == lanes
    ensures LaneSum(sum) == LaneSum(acc) + DotRange(DigitRow(term, outF, inF, row), x, 16 * w, 16 * w + rem)
  {
    hide LaneSum, ChunkDot, DigitRow, Digit, Load, WordBits;
    DigitRowLength(term, outF, inF, row);
    ColumnWord(inF, 16 * w);
    FlatIndex(outF, WordCount(inF), row, w);
    var word := term.combined[row * WordCount(inF) + w];
    var c := WordBits(word, rem);
    WordBitsLength(word, rem);
    sum := acc;
    var ch := 0;
    while ch < 16 / lanes && ch * lanes < rem
      invariant 0 <= ch <= 16 / lanes && |sum| == lanes
      invariant LaneSum(sum)
             == LaneSum(acc) + DotRange(DigitRow(term, outF, inF, row), x, 16 * w, 16 * w + Least(ch * lanes, rem))
    {
      var sh := ch * lanes;
      var n := if rem - sh > lanes then lanes else rem - sh;
      var v := Load(x, beyond, 16 * w + sh, lanes);
      LoadLength(x, beyond, 16 * w + sh, lanes);
      forall k | sh <= k < sh + n ensures BitDigit(c[16 + k], c[k]) == Digit(word, k) {
        WordBitsDigit(word, rem, k);
      }
      ChunkIsRow(c, term, outF, inF, row, x, beyond, w, sh, lanes, n);
      DotRangeSplit(DigitRow(term, outF, inF, row), x, 16 * w, 16 * w + sh, 16 * w + sh + n);
      sum := AddChunk(sum, c, sh, n, v);
      ch := ch + 1;
    }
  }

  lemma WordBitsLength(word: Word, rem: nat)
    ensures |WordBits(word, rem)| == 32
  {
  }

  lemma LoadLength(x: Vec, beyond: Memory, at: nat, lanes: nat)
    ensures |Load(x, beyond, at, lanes)| == lanes
  {
  }

  /** All accumulators of a row have taken in the first `done` columns. */
  ghost predicate Reached(vacc: seq<Lanes>, terms: seq<BitTerm>, outF: nat, inF: nat, row: nat, x: Vec, done: nat, lanes: nat, m: nat)
    requires AllFit(terms, outF, inF) && row < outF && |x| == inF && done <= inF && m <= |terms| == |vacc|
  {
    forall t :: 0 <= t < m ==>
      |vacc[t]| == lanes && LaneSum(vacc[t]) == DotRange(DigitRow(terms[t], outF, inF, row), x, 0, done)
  }

  /** The inner loop over the terms, for one word. */
  method AddWords(vacc: seq<Lanes>, terms: seq<BitTerm>, outF: nat, inF: nat, row: nat, x: Vec, beyond: Memory, w: nat, rem: nat, lanes: nat)
    returns (next: seq<Lanes>)
    requires AllFit(terms, outF, inF) && row < outF && |x| == inF && |vacc| == |terms| && (lanes == 4 || lanes == 8)
    requires 0 < rem <= 16 && 16 * w + rem <= inF
    requires Reached(vacc, terms, outF, inF, row, x, 16 * w, lanes, |terms|)
    ensures |next| == |terms| && Reached(next, terms, outF, inF, row, x, 16 * w + rem, lanes, |terms|)
  {
    hide LaneSum, DigitRow, DotRange;
    next := vacc;
    for t := 0 to |terms|
      invariant |next| == |terms| && next[t..] == vacc[t..]
      invariant Reached(next, terms, outF, inF, row, x, 16 * w + rem, lanes, t)
    {
      assert next[t] == next[t..][0] == vacc[t..][0] == vacc[t];
      var sum := AddWord(next[t], terms[t], outF, inF, row, x, beyond, w, rem, lanes);
      DigitRowLength(terms[t], outF, inF, row);
      DotRangeSplit(DigitRow(terms[t], outF, inF, row), x, 0, 16 * w, 16 * w + rem);
      next := next[t := sum];
    }
  }

  /** One row of the vector kernels: full words, masked tail, then the weighted lane sums. */
  method VectorRow(terms: seq<BitTerm>, outF: nat, inF: nat, row: nat, x: Vec, beyond: Memory, lanes: nat) returns (result: real)
    requires AllFit(terms, outF, inF) && row < outF && |x| == inF && |terms| <= MAX_ACTIVE && (lanes == 4 || lanes == 8)
    requires forall t :: 0 <= t < |terms| ==> terms[t].alphaExp != DEAD
    ensures result == ProductRow(terms, outF, inF, row, x, |terms|)
  {
    hide LaneSum, DigitRow, Weight, Reached, ProductRow, FitsMatrix;
    var rem := inF % 16;
    var fullWords := if rem > 0 then WordCount(inF) - 1 else WordCount(inF);
    assert 16 * fullWords + rem == inF;
    var vacc := seq(|terms|, _ => ZeroLanes(lanes));
    NothingReached(vacc, terms, outF, inF, row, x, lanes);
    for w := 0 to fullWords
      invariant |vacc| == |terms| && Reached(vacc, terms, outF, inF, row, x, 16 * w, lanes, |terms|)
    {
      vacc := AddWords(vacc, terms, outF, inF, row, x, beyond, w, 16, lanes);
    }
    if rem > 0 {
      vacc := AddWords(vacc, terms, outF, inF, row, x, beyond, fullWords, rem, lanes);
    }
    result := WeighLanes(vacc, terms, outF, inF, row, x, lanes);
  }

  /** The lane sums times the powers of two of their terms. */
  method WeighLanes(vacc: seq<Lanes>, terms: seq<BitTerm>, outF: nat, inF: nat, row: nat, x: Vec, lanes: nat) returns (result: real)
    requires AllFit(terms, outF, inF) && row < outF && |x| == inF && |vacc| == |terms|
    requires forall t :: 0 <= t < |terms| ==> terms[t].alphaExp != DEAD
    requires Reached(vacc, terms, outF, inF, row, x, inF, lanes, |terms|)
    ensures result == ProductRow(terms, outF, inF, row, x, |terms|)
  {
    hide LaneSum, DigitRow, Weight;
    result := 0.0;
    for t := 0 to |terms|
      invariant result == ProductRow(terms, outF, inF, row, x, t)
    {
      LiveWeight(terms[t].alphaExp);
      DigitRowLength(terms[t], outF, inF, row);
      result := result + LaneSum(vacc[t]) * Ternary.Pow2(terms[t].alphaExp);
    }
  }

  lemma NothingReached(vacc: seq<Lanes>, terms: seq<BitTerm>, outF: nat, inF: nat, row: nat, x: Vec, lanes: nat)
    requires AllFit(terms, outF, inF) && row < outF && |x| == inF && |vacc| == |terms|
    requires forall t :: 0 <= t < |vacc| ==> vacc[t] == ZeroLanes(lanes)
    ensures Reached(vacc, terms, outF, inF, row, x, 0, lanes, |terms|)
  {
    hide DigitRow;
    ZeroLaneSum(lanes);
    forall t | 0 <= t < |terms| ensures |DigitRow(terms[t], outF, inF, row)| == inF {
      DigitRowLength(terms[t], outF, inF, row);
    }
  }

  method VectorKernel(terms: seq<BitTerm>, outF: nat, inF: nat, x: Vec, beyond: Memory, lanes: nat) returns (output: array<real>)
    requires AllFit(terms, outF, inF) && |x| == inF && |terms| <= MAX_ACTIVE && (lanes == 4 || lanes == 8)
    requires forall t :: 0 <= t < |terms| ==> terms[t].alphaExp != DEAD
    ensures output[..] == Product(terms, outF, inF, x, |terms|)
  {
    hide ProductRow;
    output := new real[outF];
    for row := 0 to outF
      invariant output[..row] == Product(terms, outF, inF, x, |terms|)[..row]
    {
      output[row] := VectorRow(terms, outF, inF, row, x, beyond, lanes);
    }
  }

  // ----- dispatch

  datatype Arch = Avx2 | Neon | Scalar

  /** The terms that are not dead, in order. */
  function Live(terms: seq<BitTerm>): (live: seq<BitTerm>)
    ensures |live| <= |terms| && forall t :: 0 <= t < |live| ==> live[t].alphaExp != DEAD
    ensures forall t :: 0 <= t < |live| ==> live[t] in terms
  {
    if terms == [] then []
    else
      var front, last := Live(terms[..|terms| - 1]), terms[|terms| - 1];
      if last.alphaExp == DEAD then front else front + [last]
  }

  /** extract_term_data: the live terms among the first num_terms, at most 32 of them looked at. */
  method ExtractTerms(terms: seq<BitTerm>, numTerms: nat) returns (active: seq<BitTerm>)
    requires numTerms <= |terms|
    ensures active == Live(terms[..Least(numTerms, MAX_ACTIVE)])
  {
    active := [];
    var t := 0;
    while t < numTerms && t < MAX_ACTIVE
      invariant t <= Least(numTerms, MAX_ACTIVE) && active == Live(terms[..t])
    {
      assert terms[..t + 1][..t] == terms[..t];
      if terms[t].alphaExp != DEAD {
        active := active + [terms[t]];
      }
      t := t + 1;
    }
  }

  /** The first m terms of a longer list give the same partial product. */
  lemma {:induction false} PrefixProduct(a: seq<BitTerm>, b: seq<BitTerm>, outF: nat, inF: nat, row: nat, x: Vec, m: nat)
    requires AllFit(a, outF, inF) && AllFit(b, outF, inF) && row < outF && |x| == inF && m <= |a| && a <= b
    ensures ProductRow(a, outF, inF, row, x, m) == ProductRow(b, outF, inF, row, x, m)
  {
    hide DigitRow, FitsMatrix, Weight, Dot;
    if m > 0 {
      PrefixProduct(a, b, outF, inF, row, x, m - 1);
    }
  }

  /** Appending a term adds its weighted row. */
  lemma AppendedTerm(front: seq<BitTerm>, term: BitTerm, outF: nat, inF: nat, row: nat, x: Vec)
    requires AllFit(front, outF, inF) && FitsMatrix(term, outF, inF) && row < outF && |x| == inF
    ensures |DigitRow(term, outF, inF, row)| == inF
    ensures ProductRow(front + [term], outF, inF, row, x, |front| + 1)
         == ProductRow(front, outF, inF, row, x, |front|) + Weight(term.alphaExp) * Dot(DigitRow(term, outF, inF, row), x)
  {
    hide DigitRow, FitsMatrix, Weight, Dot;
    DigitRowLength(term, outF, inF, row);
    PrefixProduct(front, front + [term], outF, inF, row, x, |front|);
  }

  /** Dropping dead terms does not change the product. */
  lemma {:induction false} LiveProduct(terms: seq<BitTerm>, outF: nat, inF: nat, row: nat, x: Vec)
    requires AllFit(terms, outF, inF) && row < outF && |x| == inF
    ensures AllFit(Live(terms), outF, inF)
    ensures ProductRow(Live(terms), outF, inF, row, x, |Live(terms)|) == ProductRow(terms, outF, inF, row, x, |terms|)
  {
    hide DigitRow, FitsMatrix, ProductRow, Weight, Dot;
    if terms == [] {
      EmptyProduct(outF, inF, row, x);
    } else {
      var front, last := terms[..|terms| - 1], terms[|terms| - 1];
      LiveProduct(front, outF, inF, row, x);
      assert terms == front + [last];
      AppendedTerm(front, last, outF, inF, row, x);
      if last.alphaExp == DEAD {
        DeadWeight(Dot(DigitRow(last, outF, inF, row), x));
      } else {
        AppendedTerm(Live(front), last, outF, inF, row, x);
      }
    }
  }

  lemma EmptyProduct(outF: nat, inF: nat, row: nat, x: Vec)
    requires row < outF && |x| == inF
    ensures ProductRow([], outF, inF, row, x, 0) == 0.0
  {
  }

  lemma DeadWeight(d: real)
    ensures Weight(DEAD) * d == 0.0
  {
  }

  /** A layer that ternary_linear may be called on: enough terms, all of the layer's shape. */
  predicate Usable(layer: Body, outF: nat, inF: nat) {
    layer.Bitplanes? && layer.numTerms <= |layer.terms| && AllFit(layer.terms, outF, inF)
  }

  /** ternary_linear: every architecture computes the product with the first 32 terms of the layer, dead ones left out. */
  method TernaryLinear(layer: Body, outF: nat, inF: nat, x: Vec, beyond: Memory, arch: Arch) returns (output: array<real>)
    requires Usable(layer, outF, inF) && |x| == inF
    ensures output[..] == Product(layer.terms, outF, inF, x, Least(layer.numTerms, MAX_ACTIVE))
  {
    hide ProductRow, Live, FitsMatrix;
    var active := ExtractTerms(layer.terms, layer.numTerms);
    LiveIsProduct(layer.terms, outF, inF, x, Least(layer.numTerms, MAX_ACTIVE));
    if |active| == 0 {
      NoTerms(active, outF, inF, x);
      output := new real[outF](_ => 0.0);
      return;
    }
    match arch {
      case Avx2 => output := VectorKernel(active, outF, inF, x, beyond, 8);
      case Neon => output := VectorKernel(active, outF, inF, x, beyond, 4);
      case Scalar => output := ScalarKernel(active, outF, inF, x);
    }
  }

  lemma LiveIsProduct(terms: seq<BitTerm>, outF: nat, inF: nat, x: Vec, m: nat)
    requires AllFit(terms, outF, inF) && |x| == inF && m <= |terms|
    ensures var live := Live(terms[..m]);
      AllFit(live, outF, inF) && |live| <= m && (forall t :: 0 <= t < |live| ==> live[t].alphaExp != DEAD)
      && Product(live, outF, inF, x, |live|) == Product(terms, outF, inF, x, m)
  {
    hide ProductRow, FitsMatrix;
    var live := Live(terms[..m]);
    forall t | 0 <= t < |live| ensures FitsMatrix(live[t], outF, inF) {
      assert live[t] in terms[..m];
    }
    forall row | 0 <= row < outF
      ensures ProductRow(live, outF, inF, row, x, |live|) == ProductRow(terms, outF, inF, row, x, m)
    {
      LiveProduct(terms[..m], outF, inF, row, x);
      PrefixProduct(terms[..m], terms, outF, inF, row, x, m);
    }
  }

  // ----- what the loader's words mean

  /** A word gives back the digits it was made from. */
  lemma WordGivesDigits(ts: seq<int>, k: nat)
    requires |ts| <= 16 && k < |ts| && -1 <= ts[k] <= 1
    ensures Digit(WordOf(ts), k) == ts[k]
  {
    hide Bit, BitField, Pow2;
    var nz, neg := NonZeroFlags(ts), NegativeFlags(ts);
    SixteenBits(|ts|);
    BitFieldBound(neg);
    HighBit(BitField(nz), BitField(neg), k);
    LowHalfBit(BitField(nz), BitField(neg), k);
    BitFieldBit(nz, k);
    BitFieldBit(neg, k);
  }

  lemma {:induction false} RowsWord(rows: seq<seq<int>>, inF: nat, row: nat, v: nat)
    requires RowsOf(rows, inF) && row < |rows| && v < WordCount(inF)
    ensures |RowsWords(rows)| == |rows| * WordCount(inF) && row * WordCount(inF) + v < |rows| * WordCount(inF)
    ensures RowsWords(rows)[row * WordCount(inF) + v] == WordOf(WordDigits(rows[row], v))
  {
    hide WordOf, WordDigits;
    RowsWordsLength(rows, inF);
    RowsWordsLength(rows[..|rows| - 1], inF);
    FlatIndex(|rows|, WordCount(inF), row, v);
    if row + 1 < |rows| {
      FlatIndex(|rows| - 1, WordCount(inF), row, v);
      RowsWord(rows[..|rows| - 1], inF, row, v);
    }
  }

  lemma {:induction false} RowsWordsLength(rows: seq<seq<int>>, inF: nat)
    requires RowsOf(rows, inF)
    ensures |RowsWords(rows)| == |rows| * WordCount(inF)
  {
    hide WordOf, WordDigits;
    if rows != [] {
      RowsWordsLength(rows[..|rows| - 1], inF);
      assert (|rows| - 1) * WordCount(inF) + WordCount(inF) == |rows| * WordCount(inF);
    }
  }

  lemma WordDigitAt(row: seq<int>, j: nat)
    requires j < |row|
    ensures j % 16 < |WordDigits(row, j / 16)| <= 16 && WordDigits(row, j / 16)[j % 16] == row[j]
  {
  }

  /** The kernels see exactly the digits that the words of a term were made from. */
  lemma WordsGiveDigits(term: BitTerm, rows: seq<seq<int>>, inF: nat, row: nat, j: nat)
    requires term.combined == RowsWords(rows) && RowsOf(rows, inF)
    requires row < |rows| && j < inF && -1 <= rows[row][j] <= 1
    ensures FitsMatrix(term, |rows|, inF)
    ensures DigitRow(term, |rows|, inF, row)[j] == rows[row][j] as real
  {
    hide WordOf, RowsWords, Digit, DigitRow, WordCount, WordDigits;
    ColumnWord(inF, j);
    RowsWord(rows, inF, row, j / 16);
    WordDigitAt(rows[row], j);
    WordGivesDigits(WordDigits(rows[row], j / 16), j % 16);
    assert 16 * (j / 16) + j % 16 == j;
    RowDigit(term, |rows|, inF, row, j / 16, j % 16);
  }

  /** In particular the kernels see the digits of an old-layout record. */
  lemma LoadedDigits(term: BitTerm, packed: seq<Byte>, outF: nat, inF: nat, row: nat, j: nat)
    requires term.combined == OldCombined(packed, outF, inF) && |packed| == OldCodeBytes(outF, inF)
    requires row < outF && j < inF
    ensures FitsMatrix(term, outF, inF) && (row * inF + j) / 4 < |packed|
    ensures DigitRow(term, outF, inF, row)[j] == OldDigit(packed, row * inF + j) as real
  {
    hide OldCodeBytes, Digit, RowsWords, DigitRow, FitsMatrix;
    OldPositionFits(outF, inF, row, j);
    var rows := OldRows(packed, outF, inF);
    assert rows[row][j] == OldDigit(packed, row * inF + j);
    WordsGiveDigits(term, rows, inF, row, j);
  }
}
