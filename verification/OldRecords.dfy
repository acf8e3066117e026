/** What becomes of an old-layout record: loader.h fills in its terms, the dispatcher goes by num_terms. */
module OldRecords {
  import opened Bytes
  import opened Bitplane
  import opened RecordFile
  import opened BitKernels
  import opened Vectors

  /** What ternary_linear returns, on every architecture. */
  function LinearOutput(layer: Body, outF: nat, inF: nat, x: Vec): (y: Vec)
    requires Usable(layer, outF, inF) && |x| == inF
    ensures |y| == outF
  {
    Product(layer.terms, outF, inF, x, Least(layer.numTerms, MAX_ACTIVE))
  }

  /** The product with the matrix that a record of bitplane terms stores. */
  function StoredMatrixTimes(layer: Body, outF: nat, inF: nat, x: Vec): (y: Vec)
    requires Usable(layer, outF, inF) && |x| == inF
    ensures |y| == outF
  {
    Product(layer.terms, outF, inF, x, |layer.terms|)
  }

  /** Row of the stored matrix: each term's digits times its power of two, over the first m terms. */
  function MatrixRow(terms: seq<BitTerm>, outF: nat, inF: nat, row: nat, m: nat): (w: Vec)
    requires AllFit(terms, outF, inF) && row < outF && m <= |terms|
    ensures |w| == inF
  {
    if m == 0 then Zeros(inF)
    else Add(MatrixRow(terms, outF, inF, row, m - 1), Scale(Weight(terms[m - 1].alphaExp), DigitRow(terms[m - 1], outF, inF, row)))
  }

  lemma {:induction false} ProductIsMatrixRow(terms: seq<BitTerm>, outF: nat, inF: nat, row: nat, x: Vec, m: nat)
    requires AllFit(terms, outF, inF) && row < outF && |x| == inF && m <= |terms|
    ensures ProductRow(terms, outF, inF, row, x, m) == Dot(MatrixRow(terms, outF, inF, row, m), x)
  {
    hide DigitRow, Weight, FitsMatrix;
    if m == 0 {
      DotRangeZero(Zeros(inF), x, 0, inF);
    } else {
      ProductIsMatrixRow(terms, outF, inF, row, x, m - 1);
      DigitRowLength(terms[m - 1], outF, inF, row);
      var digits := DigitRow(terms[m - 1], outF, inF, row);
      DotRangeAdd(MatrixRow(terms, outF, inF, row, m - 1), Scale(Weight(terms[m - 1].alphaExp), digits), x, inF);
      DotRangeScale(Weight(terms[m - 1].alphaExp), digits, x, inF);
    }
  }

  /** The terms cancel at every position: sum_t 2^alpha_t * digit_t is zero. */
  predicate ZeroMatrix(terms: seq<BitTerm>, outF: nat, inF: nat)
    requires AllFit(terms, outF, inF)
  {
    forall row :: 0 <= row < outF ==> MatrixRow(terms, outF, inF, row, |terms|) == Zeros(inF)
  }

  ghost predicate RightOn(layer: Body, outF: nat, inF: nat, x: Vec)
    requires Usable(layer, outF, inF)
  {
    |x| == inF ==> LinearOutput(layer, outF, inF, x) == StoredMatrixTimes(layer, outF, inF, x)
  }

  /** A layer whose num_terms is 0 yields zeros, which is right on every input exactly when its matrix is zero. */
  lemma NoTermsRightExactly(layer: Body, outF: nat, inF: nat)
    requires Usable(layer, outF, inF) && layer.numTerms == 0
    ensures forall x: Vec :: |x| == inF ==> LinearOutput(layer, outF, inF, x) == Zeros(outF)
    ensures (forall x: Vec :: RightOn(layer, outF, inF, x)) <==> ZeroMatrix(layer.terms, outF, inF)
  {
    hide MatrixRow, ProductRow, AllFit;
    forall x: Vec | |x| == inF ensures LinearOutput(layer, outF, inF, x) == Zeros(outF) {
      NoTerms(layer.terms, outF, inF, x);
    }
    if forall x: Vec :: RightOn(layer, outF, inF, x) {
      forall row | 0 <= row < outF ensures MatrixRow(layer.terms, outF, inF, row, |layer.terms|) == Zeros(inF) {
        RightRowIsZero(layer, outF, inF, row);
      }
    }
    if ZeroMatrix(layer.terms, outF, inF) {
      forall x: Vec ensures RightOn(layer, outF, inF, x) {
        if |x| == inF {
          ZeroMatrixProduct(layer, outF, inF, x);
        }
      }
    }
  }

  lemma RightRowIsZero(layer: Body, outF: nat, inF: nat, row: nat)
    requires Usable(layer, outF, inF) && layer.numTerms == 0 && row < outF
    requires forall x: Vec :: RightOn(layer, outF, inF, x)
    ensures MatrixRow(layer.terms, outF, inF, row, |layer.terms|) == Zeros(inF)
  {
    hide MatrixRow, ProductRow, AllFit, Dot;
    var w := MatrixRow(layer.terms, outF, inF, row, |layer.terms|);
    MatrixRowLength(layer.terms, outF, inF, row, |layer.terms|);
    forall col | 0 <= col < inF ensures w[col] == 0.0 {
      var e := Unit(inF, col);
      assert RightOn(layer, outF, inF, e);
      NoTerms(layer.terms, outF, inF, e);
      assert StoredMatrixTimes(layer, outF, inF, e)[row] == 0.0;
      ProductIsMatrixRow(layer.terms, outF, inF, row, e, |layer.terms|);
      DotUnit(w, col);
    }
  }

  lemma MatrixRowLength(terms: seq<BitTerm>, outF: nat, inF: nat, row: nat, m: nat)
    requires AllFit(terms, outF, inF) && row < outF && m <= |terms|
    ensures |MatrixRow(terms, outF, inF, row, m)| == inF
  {
  }

  lemma ZeroMatrixProduct(layer: Body, outF: nat, inF: nat, x: Vec)
    requires Usable(layer, outF, inF) && |x| == inF && ZeroMatrix(layer.terms, outF, inF)
    ensures StoredMatrixTimes(layer, outF, inF, x) == Zeros(outF)
  {
    hide MatrixRow, ProductRow, AllFit;
    forall row | 0 <= row < outF ensures StoredMatrixTimes(layer, outF, inF, x)[row] == 0.0 {
      ProductIsMatrixRow(layer.terms, outF, inF, row, x, |layer.terms|);
      DotRangeZero(Zeros(inF), x, 0, inF);
    }
  }

  // ----- records that come from a file

  lemma {:induction false} OldTermsFit(bs: seq<Byte>, count: nat, outF: nat, inF: nat)
    requires ParseOldTerms(bs, count, outF, inF).Some?
    ensures |ParseOldTerms(bs, count, outF, inF).value.0| == count
    ensures AllFit(ParseOldTerms(bs, count, outF, inF).value.0, outF, inF)
    decreases count
  {
    hide OldCombined, OldCodeBytes, TakeWord, TakeBytes, WordToSigned, FitsMatrix;
    if count > 0 {
      var packed, rest := TakeBytes(TakeWord(bs).value.1, OldCodeBytes(outF, inF)).value.0,
                          TakeBytes(TakeWord(bs).value.1, OldCodeBytes(outF, inF)).value.1;
      OldTermsFit(rest, count - 1, outF, inF);
      OldCombinedFits(WordToSigned(TakeWord(bs).value.0), packed, outF, inF);
    }
  }

  lemma OldCombinedFits(alpha: int, packed: seq<Byte>, outF: nat, inF: nat)
    ensures FitsMatrix(BitTerm(alpha, OldCombined(packed, outF, inF)), outF, inF)
  {
    hide OldRow;
    RowsWordsLength(OldRows(packed, outF, inF), inF);
  }

  /**
   An old-layout record with terms loads as a layer that multiplies to zero, whatever it stores; that
   is the stored product on every input exactly when the stored matrix is zero.
   */
  lemma OldRecordYieldsZeros(bs: seq<Byte>)
    ensures TakeRecord(bs).Some? && TakeRecord(bs).value.0.body.Bitplanes? ==>
      var l := TakeRecord(bs).value.0;
      && Usable(l.body, l.outF, l.inF) && 0 < |l.body.terms| <= MAX_TERMS
      && (forall x: Vec :: |x| == l.inF ==> LinearOutput(l.body, l.outF, l.inF, x) == Zeros(l.outF))
      && ((forall x: Vec :: RightOn(l.body, l.outF, l.inF, x)) <==> ZeroMatrix(l.body.terms, l.outF, l.inF))
  {
    hide ParseOldTerms, AllFit, TakeHeader, TakeNewLength, TakeBytes, ParsePayload, ParseRaw, LinearOutput, ZeroMatrix, RightOn;
    if TakeRecord(bs).Some? && TakeRecord(bs).value.0.body.Bitplanes? {
      var h, rest := TakeHeader(bs).value.0, TakeHeader(bs).value.1;
      PayloadIsNoBitplane(h, rest);
      OldTermsFit(rest, h.x, h.outF, h.inF);
      var l := TakeRecord(bs).value.0;
      NoTermsRightExactly(l.body, l.outF, l.inF);
    }
  }

  /** Bitplane terms come from the old layout alone, and without their number. */
  lemma PayloadIsNoBitplane(h: Header, bs: seq<Byte>)
    ensures TakeBody(h, bs).Some? && TakeBody(h, bs).value.0.Bitplanes? ==>
      && 0 < h.x <= MAX_TERMS && ParseOldTerms(bs, h.x, h.outF, h.inF).Some?
      && TakeBody(h, bs).value.0 == Bitplanes(0, ParseOldTerms(bs, h.x, h.outF, h.inF).value.0)
  {
    hide ParseOldTerms, TakeNewLength, TakeBytes, TakeWord, ParseTerms, ParseBlockTerms, WordsAt;
  }

  // ----- a record that loses its weights

  /** An old-layout record of the 1 x 1 matrix [1], without a name: one term, exponent 0, code 2. */
  function OneWeightRecord(): seq<Byte> {
    [0, 0, 0, 0] + [1, 0, 0, 0] + [1, 0, 0, 0] + [1, 0, 0, 0] + OneWeightPayload()
  }

  function OneWeightPayload(): seq<Byte> {
    [0, 0, 0, 0] + [128]
  }

  function OneWeight(): BitTerm {
    BitTerm(0, OldCombined([128], 1, 1))
  }

  /** A small number as a word in memory. */
  lemma TakeSmall(bs: seq<Byte>, b: Byte, rest: seq<Byte>)
    requires bs == [b, 0, 0, 0] + rest
    ensures TakeWord(bs) == Some((b as Word, rest))
  {
    WordAtJoins(bs, 0);
    assert bs[4..] == rest;
    hide WordAt;
  }

  lemma OneWeightHeader()
    ensures TakeHeader(OneWeightRecord()) == Some((Header("", 1, 1, 1), OneWeightPayload()))
  {
    hide TakeWord, TakeBytes, OneWeightPayload;
    var r4 := [1, 0, 0, 0] + OneWeightPayload();
    var r3 := [1, 0, 0, 0] + r4;
    var r2 := [1, 0, 0, 0] + r3;
    assert OneWeightRecord() == [0, 0, 0, 0] + r2;
    TakeSmall(OneWeightRecord(), 0, r2);
    TakePrefix([], r2);
    assert [] + r2 == r2 && NameOf([]) == "";
    TakeSmall(r2, 1, r3);
    TakeSmall(r3, 1, r4);
    TakeSmall(r4, 1, OneWeightPayload());
  }

  lemma OneWeightParses()
    ensures ParseOldTerms(OneWeightPayload(), 1, 1, 1) == Some(([OneWeight()], []))
  {
    hide TakeWord, TakeBytes, OldCombined, OldCodeBytes, WordToSigned;
    OneByte();
    ZeroExponent();
    TakeSmall(OneWeightPayload(), 0, [128]);
    TakePrefix([128], []);
    assert [128] + [] == [128];
    NoOldTerms([], 1, 1);
    assert [OneWeight()] + [] == [OneWeight()];
  }

  lemma NoOldTerms(bs: seq<Byte>, outF: nat, inF: nat)
    ensures ParseOldTerms(bs, 0, outF, inF) == Some(([], bs))
  {
  }

  lemma OneByte()
    ensures OldCodeBytes(1, 1) == 1
  {
  }

  lemma CodeTwoIsOne()
    ensures OldDigit([128], 0) == 1
  {
  }

  lemma ZeroExponent()
    ensures WordToSigned(0) == 0
  {
  }

  lemma OneWeightLoads()
    ensures TakeRecord(OneWeightRecord()) == Some((LayerData("", 1, 1, Bitplanes(0, [OneWeight()])), []))
  {
    hide TakeHeader, ParseOldTerms, OneWeight, OneWeightPayload, OneWeightRecord;
    OneWeightHeader();
    OneWeightParses();
  }

  lemma OneWeightDigit()
    ensures OneWeight().alphaExp == 0 && FitsMatrix(OneWeight(), 1, 1) && DigitRow(OneWeight(), 1, 1, 0) == [1.0]
  {
    hide OldCombined, DigitRow, OldCodeBytes, OldDigit, FitsMatrix;
    OneByte();
    CodeTwoIsOne();
    OldCombinedFits(0, [128], 1, 1);
    LoadedDigits(OneWeight(), [128], 1, 1, 0, 0);
    DigitRowLength(OneWeight(), 1, 1, 0);
  }

  lemma OneWeightProduct(terms: seq<BitTerm>, x: real)
    requires |terms| == 1 && AllFit(terms, 1, 1) && terms[0].alphaExp == 0 && DigitRow(terms[0], 1, 1, 0) == [1.0]
    ensures Product(terms, 1, 1, [x], 1) == [x]
  {
    hide DigitRow, FitsMatrix;
    assert Weight(0) == 1.0;
    DotRangeSingle([1.0], [x], 0);
    assert ProductRow(terms, 1, 1, 0, [x], 0) == 0.0;
    assert ProductRow(terms, 1, 1, 0, [x], 1) == x;
  }

  /** The stored product of [1] with x is x; the loaded layer gives 0. */
  lemma OneWeightIsLost(x: real)
    ensures TakeRecord(OneWeightRecord()).Some?
    ensures var layer := TakeRecord(OneWeightRecord()).value.0.body;
      Usable(layer, 1, 1) && LinearOutput(layer, 1, 1, [x]) == [0.0] && StoredMatrixTimes(layer, 1, 1, [x]) == [x]
  {
    hide OneWeight, OneWeightRecord, TakeRecord, FitsMatrix, DigitRow, Product;
    OneWeightLoads();
    OneWeightDigit();
    var terms := [OneWeight()];
    OneWeightProduct(terms, x);
    NoTerms(terms, 1, 1, [x]);
  }
}
