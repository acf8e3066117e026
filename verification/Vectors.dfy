/** Finite vectors and matrices over the reals, with the sums the decomposition code accumulates. */
module Vectors {

  type Vec = seq<real>
  type Matrix = seq<Vec>

  function Sq(x: real): real {
    x * x
  }

  function Abs(x: real): real {
    if x < 0.0 then -x else x
  }

  function MaxReal(x: real, y: real): real {
    if x < y then y else x
  }

  function Zeros(n: nat): Vec {
    seq(n, _ => 0.0)
  }

  /** Every row of `m` has `n` entries. */
  predicate Wide(m: Matrix, n: nat) {
    forall i :: 0 <= i < |m| ==> |m[i]| == n
  }

  predicate Square(m: Matrix, n: nat) {
    |m| == n && Wide(m, n)
  }

  /** Sum of u[j] * v[j] for lo <= j < hi. */
  function DotRange(u: Vec, v: Vec, lo: nat, hi: nat): real
    requires hi <= |u| && hi <= |v|
  {
    if hi <= lo then 0.0 else DotRange(u, v, lo, hi - 1) + u[hi - 1] * v[hi - 1]
  }

  function Dot(u: Vec, v: Vec): real
    requires |u| == |v|
  {
    DotRange(u, v, 0, |u|)
  }

  function Add(u: Vec, v: Vec): Vec
    requires |u| == |v|
  {
    seq(|u|, j requires 0 <= j < |u| => u[j] + v[j])
  }

  function Scale(c: real, u: Vec): Vec {
    seq(|u|, j requires 0 <= j < |u| => c * u[j])
  }

  /** The combination of the first `c` rows of `m` with coefficients `coef`. */
  function Combine(coef: Vec, m: Matrix, c: nat, n: nat): Vec
    requires c <= |coef| && c <= |m| && Wide(m, n)
    ensures |Combine(coef, m, c, n)| == n
  {
    if c == 0 then Zeros(n) else Add(Combine(coef, m, c - 1, n), Scale(coef[c - 1], m[c - 1]))
  }

  /** Row i of the product is the combination of the rows of `y` that row i of `x` names. */
  function MatMul(x: Matrix, y: Matrix, n: nat): Matrix
    requires Square(x, n) && Square(y, n)
  {
    seq(n, i requires 0 <= i < n => Combine(x[i], y, n, n))
  }

  predicate SolvesRow(m: Matrix, x: Vec, b: Vec, i: nat) {
    i < |m| && i < |b| && |m[i]| == |x| && Dot(m[i], x) == b[i]
  }

  /** `x` is a solution of the linear system with matrix `m` and right-hand side `b`. */
  predicate Solves(m: Matrix, x: Vec, b: Vec) {
    |m| == |b| && forall i :: 0 <= i < |m| ==> SolvesRow(m, x, b, i)
  }

  /** The only vector that `m` maps to zero is zero. */
  ghost predicate NonSingular(m: Matrix, n: nat) {
    Square(m, n) && forall x: Vec :: |x| == n && Solves(m, x, Zeros(n)) ==> x == Zeros(n)
  }

  lemma {:induction false} DotRangeCongruent(u: Vec, v: Vec, u': Vec, v': Vec, lo: nat, hi: nat)
    requires hi <= |u| && hi <= |v| && hi <= |u'| && hi <= |v'|
    requires forall j :: lo <= j < hi ==> u[j] == u'[j] && (v[j] == v'[j] || u[j] == 0.0)
    ensures DotRange(u, v, lo, hi) == DotRange(u', v', lo, hi)
  {
    if hi > lo {
      DotRangeCongruent(u, v, u', v', lo, hi - 1);
    }
  }

  lemma {:induction false} DotRangeZero(u: Vec, v: Vec, lo: nat, hi: nat)
    requires hi <= |u| && hi <= |v|
    requires forall j :: lo <= j < hi ==> u[j] == 0.0 || v[j] == 0.0
    ensures DotRange(u, v, lo, hi) == 0.0
  {
    if hi > lo {
      DotRangeZero(u, v, lo, hi - 1);
    }
  }

  lemma NoProducts(u: Vec, v: Vec, lo: nat)
    requires lo <= |u| && lo <= |v|
    ensures DotRange(u, v, lo, lo) == 0.0
  {
  }

  lemma NextProduct(u: Vec, v: Vec, lo: nat, j: nat)
    requires lo <= j < |u| && j < |v|
    ensures DotRange(u, v, lo, j + 1) == DotRange(u, v, lo, j) + u[j] * v[j]
  {
  }

  lemma DotRangeSingle(u: Vec, v: Vec, j: nat)
    requires j < |u| && j < |v|
    ensures DotRange(u, v, j, j + 1) == u[j] * v[j]
  {
    assert DotRange(u, v, j, j) == 0.0;
  }

  lemma {:induction false} DotRangeSplit(u: Vec, v: Vec, lo: nat, mid: nat, hi: nat)
    requires lo <= mid <= hi <= |u| && hi <= |v|
    ensures DotRange(u, v, lo, hi) == DotRange(u, v, lo, mid) + DotRange(u, v, mid, hi)
  {
    if hi > mid {
      DotRangeSplit(u, v, lo, mid, hi - 1);
    }
  }

  /** The vector with a one in position k. */
  function Unit(n: nat, k: nat): (e: Vec)
    ensures |e| == n
  {
    seq(n, j => if j == k then 1.0 else 0.0)
  }

  lemma DotUnit(u: Vec, k: nat)
    requires k < |u|
    ensures Dot(u, Unit(|u|, k)) == u[k]
  {
    var e := Unit(|u|, k);
    DotRangeSingle(u, e, k);
    DotRangeZero(u, e, 0, k);
    DotRangeZero(u, e, k + 1, |u|);
    hide DotRange;
    DotRangeSplit(u, e, 0, k, |u|);
    DotRangeSplit(u, e, k, k + 1, |u|);
  }

  lemma {:induction false} DotRangeAdd(u: Vec, w: Vec, v: Vec, hi: nat)
    requires |u| == |w| && hi <= |u| && hi <= |v|
    ensures DotRange(Add(u, w), v, 0, hi) == DotRange(u, v, 0, hi) + DotRange(w, v, 0, hi)
  {
    if hi > 0 {
      DotRangeAdd(u, w, v, hi - 1);
    }
  }

  lemma {:induction false} DotRangeScale(c: real, u: Vec, v: Vec, hi: nat)
    requires hi <= |u| && hi <= |v|
    ensures DotRange(Scale(c, u), v, 0, hi) == c * DotRange(u, v, 0, hi)
  {
    if hi > 0 {
      DotRangeScale(c, u, v, hi - 1);
      assert Scale(c, u)[hi - 1] * v[hi - 1] == c * (u[hi - 1] * v[hi - 1]);
    }
  }

  /** A combination of rows meets `x` in the combination of what the rows meet. */
  lemma {:induction false} DotCombine(coef: Vec, m: Matrix, c: nat, x: Vec, image: Vec)
    requires c <= |coef| && c <= |m| && c <= |image| && Wide(m, |x|)
    requires forall t :: 0 <= t < c ==> image[t] == Dot(m[t], x)
    ensures Dot(Combine(coef, m, c, |x|), x) == DotRange(coef, image, 0, c)
  {
    hide Combine, DotRange, Add, Scale;
    var n := |x|;
    if c == 0 {
      NoRows(coef, m, n);
      NoProducts(coef, image, 0);
      DotRangeZero(Zeros(n), x, 0, n);
    } else {
      DotCombine(coef, m, c - 1, x, image);
      NextRowOf(coef, m, c, n);
      DotRangeAdd(Combine(coef, m, c - 1, n), Scale(coef[c - 1], m[c - 1]), x, n);
      DotRangeScale(coef[c - 1], m[c - 1], x, n);
      NextProduct(coef, image, 0, c - 1);
    }
  }

  lemma NoRows(coef: Vec, m: Matrix, n: nat)
    requires Wide(m, n)
    ensures Combine(coef, m, 0, n) == Zeros(n)
  {
  }

  lemma NextRowOf(coef: Vec, m: Matrix, c: nat, n: nat)
    requires 0 < c <= |coef| && c <= |m| && Wide(m, n)
    ensures |Combine(coef, m, c - 1, n)| == n && |Scale(coef[c - 1], m[c - 1])| == n
    ensures |Add(Combine(coef, m, c - 1, n), Scale(coef[c - 1], m[c - 1]))| == n
    ensures Combine(coef, m, c, n) == Add(Combine(coef, m, c - 1, n), Scale(coef[c - 1], m[c - 1]))
  {
  }

  lemma {:induction false} CombineCongruent(coef: Vec, m: Matrix, coef': Vec, m': Matrix, c: nat, n: nat)
    requires c <= |coef| && c <= |m| && c <= |coef'| && c <= |m'| && Wide(m, n) && Wide(m', n)
    requires forall t :: 0 <= t < c ==> coef[t] == coef'[t] && m[t] == m'[t]
    ensures Combine(coef, m, c, n) == Combine(coef', m', c, n)
  {
    if c > 0 {
      CombineCongruent(coef, m, coef', m', c - 1, n);
    }
  }

  /** Rows with coefficient zero add nothing. */
  lemma {:induction false} CombineTail(coef: Vec, m: Matrix, from: nat, c: nat, n: nat)
    requires from <= c <= |coef| && c <= |m| && Wide(m, n)
    requires forall t :: from <= t < c ==> coef[t] == 0.0
    ensures Combine(coef, m, c, n) == Combine(coef, m, from, n)
  {
    if c > from {
      CombineTail(coef, m, from, c - 1, n);
      var head := Combine(coef, m, c - 1, n);
      assert Add(head, Scale(coef[c - 1], m[c - 1])) == head;
    }
  }
}
