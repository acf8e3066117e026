/** Ternary digits as packed 2-bit codes and as bitplane words (nz in the high half, neg in the low half). */
module Bitplane {
  import opened Bytes

  /** One of the four 2-bit fields of a byte, field 0 in the most significant bits. */
  function Field(b: Byte, k: nat): (c: nat)
    requires k < 4
    ensures c < 4
  {
    if k == 0 then b / 64 else if k == 1 then b / 16 % 4 else if k == 2 then b / 4 % 4 else b % 4
  }

  /** decode_ternary of the old layout: codes 0, 2, 3 mean 0, 1, -1 and code 1 reads as 0, as do positions past the end. */
  function OldDigit(packed: seq<Byte>, pos: nat): (t: int)
    ensures -1 <= t <= 1
  {
    if pos / 4 >= |packed| then 0
    else
      var code := Field(packed[pos / 4], pos % 4);
      if code == 2 then 1 else if code == 3 then -1 else 0
  }

  /** Value of a bit field whose bit k is bits[k]. */
  function BitField(bits: seq<bool>): (v: nat)
    ensures v < Pow2(|bits|)
  {
    if |bits| == 0 then 0 else (if bits[0] then 1 else 0) + 2 * BitField(bits[1..])
  }

  /** Bit k of a word. */
  predicate Bit(v: nat, k: nat) {
    v / Pow2(k) % 2 == 1
  }

  /** Bit k of a field is the k-th flag it was built from, and bits past its end are clear. */
  lemma {:induction false} BitFieldBit(bits: seq<bool>, k: nat)
    ensures Bit(BitField(bits), k) <==> k < |bits| && bits[k]
  {
    var v := BitField(bits);
    if k >= |bits| {
      Pow2Monotone(|bits|, k);
      QuotientIs(v, Pow2(k), 0);
    } else if k == 0 {
      LowBit(bits[0], BitField(bits[1..]));
      assert Pow2(0) == 1;
    } else {
      BitFieldBit(bits[1..], k - 1);
      LowBit(bits[0], BitField(bits[1..]));
      HalvingShifts(v, k);
    }
  }

  lemma LowBit(b: bool, rest: nat)
    ensures var v := (if b then 1 else 0) + 2 * rest; v / 2 == rest && (v % 2 == 1 <==> b)
  {
  }

  lemma HalvingShifts(v: nat, k: nat)
    requires k > 0
    ensures v / Pow2(k) == v / 2 / Pow2(k - 1)
  {
    DivisionsCompose(v, Pow2(k - 1));
  }

  lemma DivisionsCompose(v: nat, p: nat)
    requires p > 0
    ensures v / (2 * p) == v / 2 / p
  {
    var q, h := v / (2 * p), v / 2;
    assert q * (2 * p) <= v < (q + 1) * (2 * p);
    assert q * (2 * p) == 2 * (q * p) && (q + 1) * (2 * p) == 2 * ((q + 1) * p);
    assert q * p <= h < (q + 1) * p;
    QuotientIs(h, p, q);
  }

  lemma QuotientIs(h: nat, p: nat, q: nat)
    requires p > 0 && q * p <= h < (q + 1) * p
    ensures h / p == q
  {
    var d := h / p;
    assert d * p <= h < (d + 1) * p;
    MulMonotone(d + 1, q, p);
    MulMonotone(q + 1, d, p);
  }

  /** The word of up to 16 digits: which are non-zero, which are negative. */
  function WordOf(ts: seq<int>): (w: Word)
    requires |ts| <= 16
  {
    SixteenBits(|ts|);
    65536 * BitField(NonZeroFlags(ts)) + BitField(NegativeFlags(ts))
  }

  lemma SixteenBits(n: nat)
    requires n <= 16
    ensures Pow2(n) <= 65536
  {
    SixteenIs();
    Pow2Monotone(n, 16);
  }

  /** The digits that one word of a row holds. */
  function WordDigits(row: seq<int>, word: nat): (ts: seq<int>)
    requires 16 * word <= |row|
    ensures |ts| <= 16
  {
    row[16 * word..if 16 * word + 16 < |row| then 16 * word + 16 else |row|]
  }

  function WordCount(n: nat): nat {
    CeilDiv(n, 16)
  }

  /** All words of a row. */
  function RowWords(row: seq<int>): seq<Word> {
    seq(WordCount(|row|), w requires 0 <= w < WordCount(|row|) => WordOf(WordDigits(row, w)))
  }

  /** The words of a matrix, row by row. */
  function RowsWords(rows: seq<seq<int>>): seq<Word> {
    if rows == [] then [] else RowsWords(rows[..|rows| - 1]) + RowWords(rows[|rows| - 1])
  }

  /** All rows have n digits. */
  predicate RowsOf(rows: seq<seq<int>>, n: nat) {
    forall r :: 0 <= r < |rows| ==> |rows[r]| == n
  }

  // ----- setting bits one at a time

  /** v | (1 << k) */
  function SetBit(v: nat, k: nat): nat {
    if Bit(v, k) then v else v + Pow2(k)
  }

  lemma {:induction false} BitFieldSnoc(bits: seq<bool>, x: bool)
    ensures BitField(bits + [x]) == BitField(bits) + (if x then Pow2(|bits|) else 0)
  {
    if |bits| == 0 {
      assert bits + [x] == [x] && [x][1..] == [];
      assert Pow2(0) == 1;
    } else {
      BitFieldSnoc(bits[1..], x);
      assert (bits + [x])[1..] == bits[1..] + [x];
    }
  }

  /** Setting the bit after the last one appends it to the field. */
  lemma SetNextBit(bits: seq<bool>)
    ensures SetBit(BitField(bits), |bits|) == BitField(bits + [true])
  {
    BitFieldBit(bits, |bits|);
    BitFieldSnoc(bits, true);
  }

  lemma SixteenIs()
    ensures Pow2(16) == 65536
  {
    assert Pow2(8) == 256;
    Pow2Add(8, 8);
  }

  /** Dividing away a low part together with its weight. */
  lemma ScaledQuotient(hi: nat, lo: nat, m: nat, p: nat)
    requires lo < m && p > 0 && m * p > 0
    ensures (m * hi + lo) / (m * p) == hi / p
  {
    var q, r := hi / p, hi % p;
    RestBelow(m, r, lo, p);
    Regroup(q, m, p);
    assert hi == q * p + r;
    DistributeOver(m, q * p, r);
    EvenQuotient(q, m * r + lo, m * p);
    SmallQuotient(m * r + lo, m * p);
  }

  /** A remainder scaled by m, with less than m added, stays below the scaled divisor. */
  lemma RestBelow(m: nat, r: nat, lo: nat, p: nat)
    requires lo < m && r < p
    ensures m * r + lo < m * p
  {
    MulMonotone(r + 1, p, m);
    assert (r + 1) * m == r * m + m;
  }

  lemma DistributeOver(m: int, a: int, b: int)
    ensures m * (a + b) == a * m + m * b
  {
  }

  lemma SmallQuotient(v: nat, d: nat)
    requires v < d
    ensures v / d == 0
  {
    QuotientIs(v, d, 0);
  }

  lemma Regroup(q: int, m: int, p: int)
    ensures q * (m * p) == q * p * m
  {
  }

  /** A quotient of a sum whose first part divides evenly. */
  lemma EvenQuotient(a: nat, lo: nat, p: nat)
    requires p > 0
    ensures (a * p + lo) / p == a + lo / p
  {
    var q := lo / p;
    assert q * p <= lo < (q + 1) * p;
    assert (a + q) * p == a * p + q * p && (a + q + 1) * p == a * p + (q + 1) * p;
    QuotientIs(a * p + lo, p, a + q);
  }

  /** A bit of the upper half-word. */
  lemma HighBit(hi: nat, lo: nat, k: nat)
    requires lo < 65536
    ensures Bit(65536 * hi + lo, k + 16) <==> Bit(hi, k)
    ensures Pow2(k + 16) == 65536 * Pow2(k)
  {
    hide Pow2;
    Pow2Add(k, 16);
    SixteenIs();
    var p := Pow2(k);
    PowerPositive(k);
    assert Pow2(k + 16) == 65536 * p;
    ScaledQuotient(hi, lo, 65536, p);
  }

  lemma HalfStep(k: nat)
    ensures Pow2(k + 1) == 2 * Pow2(k)
  {
  }

  lemma PowerPositive(k: nat)
    ensures Pow2(k) > 0
  {
  }

  lemma Reorder(hi: int, p: int, r: int)
    ensures p * (2 * r) * hi == 2 * (hi * r) * p
  {
  }

  lemma EvenPartDrops(v: nat, m: nat, p: nat, lo: nat)
    requires p > 0 && v == 2 * m * p + lo
    ensures v / p % 2 == lo / p % 2
  {
    EvenQuotient(2 * m, lo, p);
  }

  /** A bit of the lower half-word. */
  lemma LowHalfBit(hi: nat, lo: nat, k: nat)
    requires k < 16
    ensures Bit(65536 * hi + lo, k) <==> Bit(lo, k)
  {
    var p, r := Pow2(k), Pow2(15 - k);
    HalfStep(15 - k);
    PowerPositive(k);
    Pow2Add(k, 16 - k);
    SixteenIs();
    hide Pow2;
    Reorder(hi, p, r);
    EvenPartDrops(65536 * hi + lo, hi * r, p, lo);
  }

  /** What the loaders do to a word for digit t at the given bit. */
  function Marked(w: nat, bit: nat, t: int): nat {
    if t == 1 then SetBit(w, bit + 16) else if t == -1 then SetBit(SetBit(w, bit + 16), bit) else w
  }

  function NonZeroFlags(ts: seq<int>): seq<bool> {
    seq(|ts|, k requires 0 <= k < |ts| => ts[k] != 0)
  }

  function NegativeFlags(ts: seq<int>): seq<bool> {
    seq(|ts|, k requires 0 <= k < |ts| => ts[k] == -1)
  }

  /** Marking the next digit of a word appends it. */
  lemma MarkedWord(ts: seq<int>, t: int)
    requires |ts| < 16 && -1 <= t <= 1
    ensures Marked(WordOf(ts), |ts|, t) == WordOf(ts + [t])
  {
    hide Bit, BitField, Pow2;
    var nz, neg := NonZeroFlags(ts), NegativeFlags(ts);
    assert NonZeroFlags(ts + [t]) == nz + [t != 0] && NegativeFlags(ts + [t]) == neg + [t == -1];
    SixteenBits(|ts|);
    BitFieldBound(neg);
    BitFieldSnoc(nz, t != 0);
    BitFieldSnoc(neg, t == -1);
    SetNextBit(nz);
    SetNextBit(neg);
    HighBit(BitField(nz), BitField(neg), |ts|);
    LowHalfBit(BitField(nz + [true]), BitField(neg), |ts|);
  }

  lemma BitFieldBound(bits: seq<bool>)
    ensures BitField(bits) < Pow2(|bits|)
  {
  }
}
