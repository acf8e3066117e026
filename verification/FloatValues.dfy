/** The numbers that single-precision bit patterns stand for, and what the two conversions do to them. */
module FloatValues {
  import opened Bytes
  import opened Float32
  import Ternary

  /** The value of a finite number by its sign, exponent and fraction fields (IEEE 754, section 3.4). */
  function ValueOf(w: Word): real {
    var field, fraction := w % SIGN / FRACTION, w % FRACTION;
    var magnitude := if field == 0 then Scaled(fraction, -149) else Scaled(FRACTION + fraction, field - 150);
    if w >= SIGN then -magnitude else magnitude
  }

  function Scaled(significand: nat, exponent: int): real {
    significand as real * Ternary.Pow2(exponent)
  }

  /** Rounded toward zero. */
  function Truncated(r: real): int {
    if r < 0.0 then -(-r).Floor else r.Floor
  }

  lemma {:induction false} RealPow2(n: nat)
    ensures Ternary.Pow2(n) == Pow2(n) as real
    ensures Ternary.Pow2(-(n as int)) * Pow2(n) as real == 1.0
  {
    if n > 0 {
      RealPow2(n - 1);
      var small, large := Ternary.Pow2(1 - n), Pow2(n - 1) as real;
      assert Ternary.Pow2(-(n as int)) == small / 2.0 && Pow2(n) as real == 2.0 * large;
      assert small / 2.0 * (2.0 * large) == small * large;
    }
  }

  lemma QuotientFloor(a: nat, b: nat, inverse: real)
    requires b > 0 && inverse * b as real == 1.0
    ensures (a as real * inverse).Floor == a / b && a as real * inverse >= 0.0
  {
    var q, r, x := a / b, a % b, a as real * inverse;
    assert a == q * b + r;
    assert x * b as real == a as real;
    FloorByProduct(x, b as real, q, a as real);
  }

  lemma FloorByProduct(x: real, b: real, q: nat, a: real)
    requires b > 0.0 && x * b == a && q as real * b <= a < (q + 1) as real * b
    ensures x.Floor == q && x >= 0.0
  {
    Between(x, b, q as real, (q + 1) as real, a);
    FloorBetween(x, q);
  }

  lemma Between(x: real, b: real, low: real, high: real, a: real)
    requires b > 0.0 && x * b == a && low * b <= a < high * b
    ensures low <= x < high
  {
    Unscaled(low, x, b);
    Unscaled(x, high, b);
  }

  lemma FloorBetween(x: real, q: nat)
    requires q as real <= x < (q + 1) as real
    ensures x.Floor == q
  {
  }

  lemma Unscaled(x: real, y: real, b: real)
    requires b > 0.0
    ensures x * b <= y * b ==> x <= y
    ensures x * b < y * b ==> x < y
  {
    if x > y {
      assert (x - y) * b > 0.0;
    }
  }

  lemma ScaledWhole(significand: nat, n: nat)
    ensures Scaled(significand, n) == (significand * Pow2(n)) as real
  {
    RealPow2(n);
  }

  lemma FloorOfScaled(significand: nat, n: nat)
    ensures Scaled(significand, -(n as int)).Floor == significand / Pow2(n) && Scaled(significand, -(n as int)) >= 0.0
  {
    hide Ternary.Pow2, Pow2;
    RealPow2(n);
    PositivePow2(n);
    QuotientFloor(significand, Pow2(n), Ternary.Pow2(-(n as int)));
  }

  lemma PositivePow2(n: nat)
    ensures Pow2(n) > 0
  {
  }

  /** What a significand stands for at an exponent, rounded down. */
  lemma MagnitudeIsFloor(significand: nat, e: nat)
    ensures Scaled(significand, e - 23).Floor == Magnitude(significand, e) && Scaled(significand, e - 23) >= 0.0
  {
    hide Scaled, Pow2;
    if e <= 23 {
      PositivePow2(23 - e);
      FloorOfScaled(significand, 23 - e);
    } else {
      ScaledWhole(significand, e - 23);
    }
  }

  lemma BelowOne(significand: nat, exponent: int)
    requires significand < 2 * FRACTION && exponent <= -24
    ensures 0.0 <= Scaled(significand, exponent) < 1.0
  {
    TopScaled();
    Ternary.Pow2Monotone(exponent, -24);
    hide Ternary.Pow2;
    ProductBelow(significand as real, Ternary.Pow2(exponent), (2 * FRACTION) as real, Ternary.Pow2(-24));
  }

  lemma TopScaled()
    ensures (2 * FRACTION) as real * Ternary.Pow2(-24) == 1.0
  {
    Pow2Of24();
    RealPow2(24);
  }

  lemma ProductBelow(a: real, x: real, b: real, y: real)
    requires 0.0 <= a < b && 0.0 < x <= y
    ensures 0.0 <= a * x < b * y
  {
    assert a * x <= a * y && a * y < b * y;
  }

  /** Converting a number of less than 2^31 to an integer drops its fraction. */
  lemma ConversionTruncates(w: Word)
    requires w % SIGN / FRACTION <= 157
    ensures IntOfFloat(w) == Truncated(ValueOf(w))
  {
    hide Scaled, Magnitude;
    var field, fraction := w % SIGN / FRACTION, w % FRACTION;
    if field == 0 {
      BelowOne(fraction, -149);
    } else if field < 127 {
      BelowOne(FRACTION + fraction, field - 150);
    } else {
      MagnitudeIsFloor(FRACTION + fraction, field - 127);
    }
  }

  /** An integer's float has its sign, its highest bit's exponent and its rounded significand. */
  lemma ValueOfConverted(i: int)
    requires -0x8000_0000 <= i < 0x8000_0000 && i != 0
    ensures var m := if i < 0 then -i else i;
      ValueOf(FloatOfInt(i)) == if i < 0 then -Scaled(Significand(m), HighBit(m) - 23) else Scaled(Significand(m), HighBit(m) - 23)
  {
    hide HighBit, Significand;
    var m := if i < 0 then -i else i;
    var e, s := HighBit(m), Significand(m);
    SignificandRange(m);
    ExponentRange(m);
    if s < 2 * FRACTION {
      hide Scaled;
      FieldsOf(i < 0, e + 127, s - FRACTION);
    } else {
      FieldsOf(i < 0, e + 128, 0);
      CarriedOut(e);
    }
  }

  /** A significand of 2^24 is 2^23 at the next exponent. */
  lemma CarriedOut(e: nat)
    ensures Scaled(2 * FRACTION, e - 23) == Scaled(FRACTION, e + 1 - 23)
  {
    Ternary.Pow2Step(e - 23);
  }

  function Apart(a: nat, b: nat): nat {
    if a < b then b - a else a - b
  }

  /** Rounding m to a multiple of a unit. */
  lemma RoundedToEven(m: nat, unit: nat, s: nat)
    requires unit > 0
    requires var q, rest := m / unit, m % unit;
      s == if 2 * rest > unit || (2 * rest == unit && q % 2 == 1) then q + 1 else q
    ensures NearestMultiple(m, unit, s)
  {
    var q := m / unit;
    assert m == q * unit + m % unit;
    assert (q + 1) * unit == q * unit + unit;
  }

  lemma ScaledBack(m: nat, n: nat)
    ensures Scaled(m * Pow2(n), -(n as int)) == m as real
  {
    RealPow2(n);
    var p, inverse := Pow2(n) as real, Ternary.Pow2(-(n as int));
    assert (m * Pow2(n)) as real == m as real * p;
    assert m as real * p * inverse == m as real * (inverse * p);
  }

  /** Integers of less than 2^24 become themselves. */
  lemma SmallIsExact(i: int)
    requires -0x100_0000 < i < 0x100_0000
    ensures ValueOf(FloatOfInt(i)) == i as real
  {
    hide ValueOf, FloatOfInt, Scaled, Significand, HighBit;
    if i == 0 {
      ZeroIsExact();
    } else {
      ValueOfConverted(i);
      SmallScaled(if i < 0 then -i else i);
    }
  }

  lemma ZeroIsExact()
    ensures ValueOf(FloatOfInt(0)) == 0.0
  {
    assert Scaled(0, -149) == 0.0;
  }

  lemma SmallScaled(m: nat)
    requires 0 < m < 0x100_0000
    ensures Scaled(Significand(m), HighBit(m) - 23) == m as real
  {
    hide HighBit, Scaled, Significand, Pow2;
    SmallSignificand(m);
    ScaledBack(m, 23 - HighBit(m));
  }

  lemma SmallSignificand(m: nat)
    requires 0 < m < 0x100_0000
    ensures HighBit(m) <= 23 && Significand(m) == m * Pow2(23 - HighBit(m))
  {
    Pow2Of24();
    HighBitBelow(m, 24);
    hide HighBit, Pow2;
  }

  /** A multiple of the unit at most half of one from m, the even one where two are equally near. */
  predicate NearestMultiple(m: nat, unit: nat, s: nat) {
    2 * Apart(s * unit, m) <= unit && (2 * Apart(s * unit, m) == unit ==> s % 2 == 0)
  }

  /** Larger ones become the nearest multiple of their last place. */
  lemma LargeIsRounded(i: int, m: nat, unit: nat)
    requires -0x8000_0000 <= i < 0x8000_0000 && m == (if i < 0 then -i else i) && m >= 0x100_0000
    requires HighBit(m) > 23 ==> unit == Pow2(HighBit(m) - 23)
    ensures HighBit(m) > 23 && NearestMultiple(m, unit, Significand(m))
    ensures var near := Significand(m) * unit; ValueOf(FloatOfInt(i)) == (if i < 0 then -near else near) as real
  {
    HighBitAbove(m);
    hide ValueOf, FloatOfInt, HighBit;
    ValueOfConverted(i);
    ScaledWhole(Significand(m), HighBit(m) - 23);
    RoundedToEven(m, unit, Significand(m));
  }

  lemma HighBitAbove(m: nat)
    requires m >= 0x100_0000
    ensures HighBit(m) > 23
  {
    Pow2Of24();
    if HighBit(m) <= 23 {
      Pow2Monotone(HighBit(m), 23);
    }
  }
}
