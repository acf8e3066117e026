/** Rounding to ternary digits and the power-of-two scales they are multiplied by. */
module Ternary {
  import opened Vectors

  /** torch_round: nearest integer, built from floor and fraction, ties to even. */
  function TorchRound(x: real): int {
    var xa := if x < 0.0 then -x else x;
    var fl := xa.Floor;
    var frac := xa - fl as real;
    var r := if frac < 0.5 then fl
             else if frac > 0.5 then fl + 1
             else if fl % 2 == 0 then fl else fl + 1;
    if x < 0.0 then -r else r
  }

  /** The result is the nearest integer and a tie goes to the even neighbour; nothing else is. */
  lemma TorchRoundIsHalfToEven(x: real, r: int)
    ensures r == TorchRound(x) <==>
            -0.5 <= x - r as real <= 0.5 && (x - r as real == 0.5 || x - r as real == -0.5 ==> r % 2 == 0)
  {
    var xa := if x < 0.0 then -x else x;
    var fl := xa.Floor;
    var s := if x < 0.0 then -r else r;
    assert s == fl || s == fl + 1 || s as real <= fl as real - 1.0 || s as real >= fl as real + 2.0;
  }

  /** clamp_round_ternary */
  function ClampRound(x: real): int {
    var r := TorchRound(x);
    if r > 1 then 1 else if r < -1 then -1 else r
  }

  /** The digit is decided by comparing with one half; both ties round to zero. */
  lemma ClampRoundThreshold(x: real)
    ensures ClampRound(x) == if x > 0.5 then 1 else if x < -0.5 then -1 else 0
  {
  }

  predicate IsDigit(t: int) {
    -1 <= t <= 1
  }

  lemma DigitError(r: real, a: real, t: int)
    requires IsDigit(t)
    ensures Sq(r - a * t as real) == if t == 1 then Sq(r - a) else if t == -1 then Sq(r + a) else Sq(r)
  {
    assert t == 1 || t == -1 || t == 0;
    assert a * 1.0 == a && a * -1.0 == -a && a * 0.0 == 0.0;
  }

  lemma NeighbourErrors(r: real, a: real)
    requires a > 0.0
    ensures Sq(r - a) < Sq(r) <==> 2.0 * r > a
    ensures Sq(r + a) < Sq(r) <==> 2.0 * r < -a
    ensures Sq(r - a) <= Sq(r + a) <==> r >= 0.0
  {
    var p, q, d := a * (2.0 * r - a), a * (2.0 * r + a), a * r;
    assert Sq(r - a) == Sq(r) - p && Sq(r + a) == Sq(r) + q && p + q == 4.0 * d;
    SignOfProduct(a, 2.0 * r - a);
    SignOfProduct(a, 2.0 * r + a);
    SignOfProduct(a, r);
    hide Sq;
  }

  /** No ternary digit leaves a smaller error at scale a than the rounded one. */
  lemma ClampRoundIsBest(r: real, a: real, t: int)
    requires a > 0.0 && IsDigit(t)
    ensures Sq(r - a * ClampRound(r / a) as real) <= Sq(r - a * t as real)
  {
    var q := r / a;
    assert q * a == r;
    var d := ClampRound(q);
    assert d == if 2.0 * r > a then 1 else if 2.0 * r < -a then -1 else 0 by {
      ClampRoundThreshold(q);
      ScaleOrder(q, a);
    }
    DigitError(r, a, t);
    DigitError(r, a, d);
    NeighbourErrors(r, a);
  }

  lemma ScaleOrder(q: real, a: real)
    requires a > 0.0
    ensures q > 0.5 <==> 2.0 * (q * a) > a
    ensures q < -0.5 <==> 2.0 * (q * a) < -a
  {
    assert 2.0 * (q * a) - a == (2.0 * q - 1.0) * a;
    assert 2.0 * (q * a) + a == (2.0 * q + 1.0) * a;
    SignOfProduct(a, 2.0 * q - 1.0);
    SignOfProduct(a, 2.0 * q + 1.0);
  }

  lemma SignOfProduct(a: real, d: real)
    requires a > 0.0
    ensures a * d > 0.0 <==> d > 0.0
    ensures a * d < 0.0 <==> d < 0.0
  {
  }

  function Pow2(k: int): real
    ensures Pow2(k) > 0.0
    decreases if k < 0 then -k else k
  {
    if k == 0 then 1.0 else if k > 0 then 2.0 * Pow2(k - 1) else Pow2(k + 1) / 2.0
  }

  lemma Pow2Step(k: int)
    ensures Pow2(k + 1) == 2.0 * Pow2(k)
  {
  }

  lemma {:induction false} Pow2Monotone(j: int, k: int)
    requires j <= k
    ensures Pow2(j) <= Pow2(k)
    ensures j < k ==> 2.0 * Pow2(j) <= Pow2(k)
    decreases k - j
  {
    if j < k {
      Pow2Step(k - 1);
      Pow2Monotone(j, k - 1);
    }
  }

  /** floor(log2 x) */
  function FloorLog2(x: real): (k: int)
    requires x > 0.0
    ensures Pow2(k) <= x < Pow2(k + 1)
    decreases x < 1.0, if x < 1.0 then (1.0 / x).Floor else x.Floor
  {
    if x >= 2.0 then
      var k := FloorLog2(x / 2.0);
      Pow2Step(k); Pow2Step(k + 1);
      k + 1
    else if x < 1.0 then
      assert 1.0 / (x * 2.0) == 1.0 / x / 2.0 && 1.0 / x > 1.0;
      var k := FloorLog2(x * 2.0);
      Pow2Step(k); Pow2Step(k - 1);
      k - 1
    else
      assert Pow2(0) == 1.0 && Pow2(1) == 2.0;
      0
  }

  /** ceil(log2 x) */
  function CeilLog2(x: real): (k: int)
    requires x > 0.0
    ensures Pow2(k - 1) < x <= Pow2(k)
  {
    var f := FloorLog2(x);
    Pow2Step(f - 1);
    if Pow2(f) == x then f else f + 1
  }

  const CUTOFF := 0.00000001
  const LOG_FLOOR := 0.0000000001

  /** First exponent tried for a residual of magnitude rmax. */
  function WindowLow(rmax: real): int {
    FloorLog2(MaxReal(rmax / 3.0, LOG_FLOOR))
  }

  /** One past the last exponent tried. */
  function WindowHigh(rmax: real): int {
    CeilLog2(MaxReal(rmax * 1.5, LOG_FLOOR)) + 2
  }

  lemma Pow2Order(j: int, k: int)
    ensures j < k <==> Pow2(j) < Pow2(k)
  {
    if j < k {
      Pow2Monotone(j, k);
    } else {
      Pow2Monotone(k, j);
    }
  }

  /** Above the cut-off the window holds floor(log2 rmax). */
  lemma WindowCovers(rmax: real)
    requires rmax >= CUTOFF
    ensures WindowLow(rmax) <= FloorLog2(rmax) < WindowHigh(rmax)
  {
    Pow2Order(WindowLow(rmax), FloorLog2(rmax) + 1);
    PastWindow(rmax, WindowHigh(rmax));
    Pow2Order(FloorLog2(rmax), WindowHigh(rmax));
  }

  /** Scales past the window exceed 2 * rmax. */
  lemma PastWindow(rmax: real, k: int)
    requires rmax >= CUTOFF && k >= WindowHigh(rmax)
    ensures Pow2(k) >= 2.0 * rmax
  {
    var hi := WindowHigh(rmax);
    Pow2Monotone(hi - 2, k);
  }
}
