/** What the terms of an old-layout record decode to: exponents and digits survive from the file to the kernels. */
module OldLayout {
  import opened Bytes
  import opened Bitplane
  import opened RecordFile
  import opened BitKernels

  /** One term of a record: an exponent and two bits for every weight, in row order. */
  datatype OldTerm = OldTerm(alpha: int, rows: seq<seq<int>>, packed: seq<Byte>)

  /** 0, +1 and -1 as the codes 0, 2 and 3. */
  function OldCode(t: int): nat {
    if t == 1 then 2 else if t == -1 then 3 else 0
  }

  predicate CodeOfWeight(packed: seq<Byte>, p: nat, t: int) {
    -1 <= t <= 1 && p / 4 < |packed| && Field(packed[p / 4], p % 4) == OldCode(t)
  }

  /** The packed codes are those of the rows, and the exponent fits its field. */
  predicate Stores(term: OldTerm, outF: nat, inF: nat) {
    && -0x8000_0000 <= term.alpha < 0x8000_0000
    && |term.packed| == OldCodeBytes(outF, inF) && |term.rows| == outF && RowsOf(term.rows, inF)
    && forall r, j :: 0 <= r < outF && 0 <= j < inF ==> CodeOfWeight(term.packed, r * inF + j, term.rows[r][j])
  }

  predicate AllStore(ts: seq<OldTerm>, outF: nat, inF: nat) {
    forall t :: 0 <= t < |ts| ==> Stores(ts[t], outF, inF)
  }

  function OldTermBytes(term: OldTerm): seq<Byte>
    requires -0x8000_0000 <= term.alpha < 0x8000_0000
  {
    EncodeWord(SignedToWord(term.alpha)) + term.packed
  }

  /** The payload of a record with terms. */
  function OldTermsBytes(ts: seq<OldTerm>, outF: nat, inF: nat): seq<Byte>
    requires AllStore(ts, outF, inF)
  {
    if ts == [] then [] else OldTermBytes(ts[0]) + OldTermsBytes(ts[1..], outF, inF)
  }

  /** The digits of a term in bitplane words. */
  function Decoded(ts: seq<OldTerm>): (terms: seq<BitTerm>)
    ensures |terms| == |ts|
  {
    seq(|ts|, t requires 0 <= t < |ts| => BitTerm(ts[t].alpha, RowsWords(ts[t].rows)))
  }

  lemma CodeIsDigit(packed: seq<Byte>, p: nat, t: int)
    requires CodeOfWeight(packed, p, t)
    ensures OldDigit(packed, p) == t
  {
  }

  lemma StoredRowsDecode(term: OldTerm, outF: nat, inF: nat)
    requires Stores(term, outF, inF)
    ensures OldRows(term.packed, outF, inF) == term.rows
  {
    hide OldDigit, CodeOfWeight, OldCodeBytes;
    forall r | 0 <= r < outF ensures OldRow(term.packed, inF, r) == term.rows[r] {
      forall j | 0 <= j < inF ensures OldRow(term.packed, inF, r)[j] == term.rows[r][j] {
        assert CodeOfWeight(term.packed, r * inF + j, term.rows[r][j]);
        CodeIsDigit(term.packed, r * inF + j, term.rows[r][j]);
      }
    }
  }

  lemma SignedSurvives(i: int)
    requires -0x8000_0000 <= i < 0x8000_0000
    ensures WordToSigned(SignedToWord(i)) == i
  {
  }

  lemma {:induction false} OldTermsReadBack(ts: seq<OldTerm>, outF: nat, inF: nat, rest: seq<Byte>)
    requires AllStore(ts, outF, inF)
    ensures ParseOldTerms(OldTermsBytes(ts, outF, inF) + rest, |ts|, outF, inF) == Some((Decoded(ts), rest))
  {
    hide TakeWord, TakeBytes, EncodeWord, RowsWords, OldRows, OldCodeBytes, WordToSigned, SignedToWord;
    if ts == [] {
      assert [] + rest == rest;
    } else {
      var term, more := ts[0], OldTermsBytes(ts[1..], outF, inF) + rest;
      var w := SignedToWord(term.alpha);
      assert Stores(term, outF, inF);
      OldTermsReadBack(ts[1..], outF, inF, rest);
      StoredRowsDecode(term, outF, inF);
      SignedSurvives(term.alpha);
      assert OldTermsBytes(ts, outF, inF) + rest == EncodeWord(w) + (term.packed + more);
      TakeEncodedWord(w, term.packed + more);
      TakePrefix(term.packed, more);
      assert Decoded(ts) == [BitTerm(term.alpha, RowsWords(term.rows))] + Decoded(ts[1..]);
    }
  }

  /** A record with terms loads with its exponents, and the kernels find exactly its digits. */
  lemma OldRecordLoads(h: Header, ts: seq<OldTerm>, rest: seq<Byte>)
    requires 0 < |ts| <= MAX_TERMS && h.x == |ts| && AllStore(ts, h.outF, h.inF)
    ensures TakeBody(h, OldTermsBytes(ts, h.outF, h.inF) + rest) == Some((Bitplanes(0, Decoded(ts)), rest))
    ensures AllFit(Decoded(ts), h.outF, h.inF)
    ensures forall t, r, j :: 0 <= t < |ts| && 0 <= r < h.outF && 0 <= j < h.inF ==>
      Decoded(ts)[t].alphaExp == ts[t].alpha && DigitRow(Decoded(ts)[t], h.outF, h.inF, r)[j] == ts[t].rows[r][j] as real
  {
    hide ParseOldTerms, RowsWords, DigitRow, FitsMatrix;
    OldTermsReadBack(ts, h.outF, h.inF, rest);
    forall t | 0 <= t < |ts|
      ensures FitsMatrix(Decoded(ts)[t], h.outF, h.inF)
      ensures forall r, j :: 0 <= r < h.outF && 0 <= j < h.inF ==>
        DigitRow(Decoded(ts)[t], h.outF, h.inF, r)[j] == ts[t].rows[r][j] as real
    {
      DecodedDigits(ts[t], Decoded(ts)[t], h.outF, h.inF);
    }
  }

  lemma DecodedDigits(term: OldTerm, decoded: BitTerm, outF: nat, inF: nat)
    requires Stores(term, outF, inF) && decoded.combined == RowsWords(term.rows)
    ensures FitsMatrix(decoded, outF, inF)
    ensures forall r, j :: 0 <= r < outF && 0 <= j < inF ==> DigitRow(decoded, outF, inF, r)[j] == term.rows[r][j] as real
  {
    hide RowsWords, DigitRow;
    RowsWordsLength(term.rows, inF);
    forall r, j | 0 <= r < outF && 0 <= j < inF ensures DigitRow(decoded, outF, inF, r)[j] == term.rows[r][j] as real {
      assert CodeOfWeight(term.packed, r * inF + j, term.rows[r][j]);
      WordsGiveDigits(decoded, term.rows, inF, r, j);
    }
  }
}
