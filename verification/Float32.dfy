/** Token ids travel between machines as IEEE 754 single-precision numbers; these are the two conversions. */
module Float32 {
  import opened Bytes

  /** Position of the highest set bit. */
  function HighBit(m: nat): (e: nat)
    requires m > 0
    ensures Pow2(e) <= m < 2 * Pow2(e)
  {
    if m == 1 then 0 else HighBit(m / 2) + 1
  }

  const FRACTION := 0x80_0000   // 2^23
  const SIGN := 0x8000_0000     // 2^31

  /** The 24-bit significand, rounded to nearest with ties to even; 2^24 when rounding carries out. */
  function Significand(m: nat): nat
    requires m > 0
  {
    var e := HighBit(m);
    if e <= 23 then m * Pow2(23 - e)
    else
      var unit := Pow2(e - 23);
      var q, rest := m / unit, m % unit;
      if 2 * rest > unit || (2 * rest == unit && q % 2 == 1) then q + 1 else q
  }

  lemma Pow2Of24()
    ensures Pow2(23) == FRACTION && Pow2(24) == 2 * FRACTION && Pow2(31) == SIGN
  {
    assert Pow2(8) == 256;
    Pow2Add(8, 8);
    Pow2Add(16, 7);
    Pow2Add(23, 1);
    Pow2Add(24, 7);
    assert Pow2(7) == 128;
  }

  lemma QuotientBounds(m: nat, unit: nat, f: nat)
    requires unit > 0 && f * unit <= m < 2 * f * unit
    ensures f <= m / unit < 2 * f
  {
    var q := m / unit;
    assert q * unit <= m < (q + 1) * unit;
    MulMonotone(q + 1, f, unit);
    MulMonotone(2 * f, q, unit);
  }

  lemma HighBitBelow(m: nat, k: nat)
    requires 0 < m < Pow2(k)
    ensures HighBit(m) < k
  {
    if HighBit(m) >= k {
      Pow2Monotone(k, HighBit(m));
    }
  }

  lemma ScaleIntoRange(m: nat, low: nat, p: nat, f: nat)
    requires low <= m < 2 * low && p > 0 && low * p == f
    ensures f <= m * p < 2 * f
  {
    MulMonotone(low, m, p);
    MulMonotone(m + 1, 2 * low, p);
    assert 2 * low * p == 2 * f && (m + 1) * p == m * p + p;
  }

  lemma ScaledUp(m: nat, e: nat)
    requires m > 0 && e == HighBit(m) <= 23
    ensures FRACTION <= m * Pow2(23 - e) < 2 * FRACTION
  {
    Pow2Of24();
    Pow2Add(e, 23 - e);
    ScaleIntoRange(m, Pow2(e), Pow2(23 - e), FRACTION);
  }

  lemma ScaledDown(m: nat, e: nat)
    requires m > 0 && e == HighBit(m) > 23
    ensures FRACTION <= m / Pow2(e - 23) < 2 * FRACTION && Pow2(e - 23) >= 2
  {
    Pow2Of24();
    Pow2Add(23, e - 23);
    var unit := Pow2(e - 23);
    assert Pow2(e) == FRACTION * unit;
    assert 2 * Pow2(e) == 2 * FRACTION * unit;
    QuotientBounds(m, unit, FRACTION);
    Pow2Monotone(1, e - 23);
  }

  lemma SignificandRange(m: nat)
    requires m > 0
    ensures FRACTION <= Significand(m) <= 2 * FRACTION
    ensures HighBit(m) <= 23 ==> Significand(m) < 2 * FRACTION
  {
    if HighBit(m) <= 23 {
      ScaledUp(m, HighBit(m));
    } else {
      ScaledDown(m, HighBit(m));
    }
  }

  lemma ExponentRange(m: nat)
    requires 0 < m <= 0x8000_0000
    ensures HighBit(m) <= 31
  {
    Pow2Of24();
    assert Pow2(32) == 2 * Pow2(31);
    HighBitBelow(m, 32);
  }

  /** float(i), as the bits of the result. */
  function FloatOfInt(i: int): Word
    requires -0x8000_0000 <= i < 0x8000_0000
  {
    if i == 0 then 0
    else
      var m := if i < 0 then -i else i;
      var sign := if i < 0 then SIGN else 0;
      SignificandRange(m);
      ExponentRange(m);
      // A significand of 2^24 carries into the exponent field.
      sign + (HighBit(m) + 127) * FRACTION + (Significand(m) - FRACTION)
  }

  /** The value of a 24-bit significand at exponent e, truncated. */
  function Magnitude(mantissa: nat, e: nat): int {
    if e <= 23 then mantissa / Pow2(23 - e) else mantissa * Pow2(e - 23)
  }

  /** (int)f: truncation toward zero. NaNs and values outside 32 bits give the x86 indefinite value. */
  function IntOfFloat(w: Word): int {
    var negative, field, fraction := w >= SIGN, w % SIGN / FRACTION, w % FRACTION;
    var mantissa := FRACTION + fraction;
    if field < 127 then 0
    else if field > 157 then -0x8000_0000
    else
      var magnitude := Magnitude(mantissa, field - 127);
      if negative then -magnitude else magnitude
  }

  /** Sign, exponent and fraction fields are recovered from the word. */
  lemma FieldsOf(sign: bool, field: nat, fraction: nat)
    requires field < 256 && fraction < FRACTION
    ensures var w := (if sign then SIGN else 0) + field * FRACTION + fraction;
      && w < 2 * SIGN && (w >= SIGN <==> sign)
      && w % SIGN / FRACTION == field && w % FRACTION == fraction
  {
    var body := field * FRACTION + fraction;
    assert body < SIGN;
    var w := (if sign then SIGN else 0) + body;
    assert w % SIGN == body;
    assert body / FRACTION == field;
    assert w == (if sign then 256 * FRACTION else 0) + field * FRACTION + fraction;
    assert w % FRACTION == fraction;
  }

  /** What the receiver makes of an integer that was sent as a float. */
  function Received(i: int): int
    requires -0x8000_0000 <= i < 0x8000_0000
  {
    IntOfFloat(FloatOfInt(i))
  }

  lemma ReceivedMagnitude(i: int)
    requires -0x8000_0000 <= i < 0x8000_0000 && i != 0
    ensures var m := if i < 0 then -i else i;
      var e, s := HighBit(m), Significand(m);
      var got := if s < 2 * FRACTION then Magnitude(s, e) else Magnitude(FRACTION, e + 1);
      var top := if s < 2 * FRACTION then e else e + 1;
      Received(i) == if top > 30 then -0x8000_0000 else if i < 0 then -got else got
  {
    hide HighBit, Significand, Magnitude, IntOfFloat;
    var m := if i < 0 then -i else i;
    var e, s := HighBit(m), Significand(m);
    SignificandRange(m);
    ExponentRange(m);
    if s < 2 * FRACTION {
      IntOfFields(i < 0, e + 127, s - FRACTION);
    } else {
      IntOfFields(i < 0, e + 128, 0);
    }
  }

  /** Conversion back, field by field. */
  lemma IntOfFields(sign: bool, field: nat, fraction: nat)
    requires 127 <= field < 256 && fraction < FRACTION
    ensures var w := (if sign then SIGN else 0) + field * FRACTION + fraction;
      var magnitude := Magnitude(FRACTION + fraction, field - 127);
      w < 2 * SIGN && IntOfFloat(w) == if field > 157 then -0x8000_0000 else if sign then -magnitude else magnitude
  {
    hide Magnitude;
    FieldsOf(sign, field, fraction);
  }

  lemma ExactQuotient(m: nat, p: nat)
    requires p > 0
    ensures m * p / p == m
  {
    var q := m * p / p;
    assert m * p == q * p + m * p % p;
    assert (m - q) * p == m * p % p;
    MulMonotone(1, m - q, p);
    MulMonotone(1, q - m, p);
    assert (q - m) * p == -(m - q) * p;
  }

  /** Ids below 2^24 arrive unchanged; negative ids stay negative; larger ones stay too large. */
  lemma TokensSurvive(i: int)
    requires -0x8000_0000 <= i < 0x8000_0000
    ensures 0 <= i < 0x100_0000 ==> Received(i) == i
    ensures i < 0 ==> Received(i) < 0
    ensures i >= 0x100_0000 ==> Received(i) >= 0x100_0000 || Received(i) < 0
  {
    Pow2Of24();
    if i != 0 {
      ReceivedMagnitude(i);
      var m := if i < 0 then -i else i;
      var e := HighBit(m);
      SignificandRange(m);
      if e <= 23 {
        ExactQuotient(m, Pow2(23 - e));
      } else {
        ScaledDown(m, e);
        LargeMagnitude(Significand(m), e);
        LargeMagnitude(FRACTION, e + 1);
        Pow2Monotone(24, e);
      }
    }
  }

  lemma LargeMagnitude(s: nat, e: nat)
    requires s >= FRACTION && e > 23
    ensures Magnitude(s, e) >= 0x100_0000
  {
    Pow2Monotone(1, e - 23);
    MulMonotone(2, Pow2(e - 23), s);
  }
}
