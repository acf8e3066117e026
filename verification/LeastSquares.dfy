/** The ridge-regularised normal equations that the per-block scales solve. */
module LeastSquares {
  import opened Vectors

  function Negate(u: Vec): Vec {
    Scale(-1.0, u)
  }

  function Sub(u: Vec, v: Vec): Vec
    requires |u| == |v|
  {
    Add(u, Negate(v))
  }

  /** `g` holds all products of the columns with each other. */
  predicate IsGram(g: Matrix, cols: Matrix, n: nat) {
    && Wide(cols, n) && Square(g, |cols|)
    && forall i, j :: 0 <= i < |cols| && 0 <= j < |cols| ==> g[i][j] == Dot(cols[i], cols[j])
  }

  /** `h` holds the products of the columns with the weights. */
  predicate IsMoment(h: Vec, cols: Matrix, w: Vec) {
    && Wide(cols, |w|) && |h| == |cols|
    && forall i :: 0 <= i < |cols| ==> h[i] == Dot(cols[i], w)
  }

  function WithRidge(g: Matrix, n: nat, ridge: real): Matrix
    requires Square(g, n)
    ensures Square(WithRidge(g, n, ridge), n)
  {
    seq(n, i requires 0 <= i < n => g[i][i := g[i][i] + ridge])
  }

  /** The sum of the columns scaled by s. */
  function Span(cols: Matrix, s: Vec, n: nat): (r: Vec)
    requires |s| == |cols| && Wide(cols, n)
    ensures |r| == n
  {
    Combine(s, cols, |cols|, n)
  }

  /** Squared error of the scales s plus the ridge penalty. */
  function Objective(w: Vec, cols: Matrix, ridge: real, s: Vec): real
    requires |s| == |cols| && Wide(cols, |w|)
  {
    var e := Sub(w, Span(cols, s, |w|));
    Dot(e, e) + ridge * Dot(s, s)
  }

  lemma {:induction false} DotRangeCommutes(u: Vec, v: Vec, lo: nat, hi: nat)
    requires hi <= |u| && hi <= |v|
    ensures DotRange(u, v, lo, hi) == DotRange(v, u, lo, hi)
  {
    if hi > lo {
      DotRangeCommutes(u, v, lo, hi - 1);
    }
  }

  lemma DotSub(u: Vec, v: Vec, x: Vec)
    requires |u| == |v| == |x|
    ensures Dot(Sub(u, v), x) == Dot(u, x) - Dot(v, x) == Dot(x, Sub(u, v))
  {
    DotRangeAdd(u, Negate(v), x, |u|);
    DotRangeScale(-1.0, v, x, |u|);
    DotRangeCommutes(Sub(u, v), x, 0, |u|);
  }

  lemma DotSubSquare(u: Vec, v: Vec)
    requires |u| == |v|
    ensures Dot(Sub(u, v), Sub(u, v)) == Dot(u, u) - 2.0 * Dot(u, v) + Dot(v, v)
  {
    DotSub(u, v, Sub(u, v));
    DotSub(u, v, u);
    DotSub(u, v, v);
    DotRangeCommutes(u, v, 0, |u|);
  }

  lemma {:induction false} SquaresAreNonNegative(u: Vec, hi: nat)
    requires hi <= |u|
    ensures DotRange(u, u, 0, hi) >= 0.0
    ensures DotRange(u, u, 0, hi) == 0.0 ==> forall j :: 0 <= j < hi ==> u[j] == 0.0
  {
    if hi > 0 {
      SquaresAreNonNegative(u, hi - 1);
      var rest, q := DotRange(u, u, 0, hi - 1), Sq(u[hi - 1]);
      SquareSign(u[hi - 1]);
      assert DotRange(u, u, 0, hi) == rest + q;
      hide Sq;
      if rest + q == 0.0 {
        assert q == 0.0 && u[hi - 1] == 0.0;
      }
    }
  }

  lemma ProductSign(x: real, y: real) returns (p: real)
    ensures p == x * y
    ensures (x > 0.0 && y > 0.0) || (x < 0.0 && y < 0.0) ==> p > 0.0
  {
    p := x * y;
  }

  lemma SquareSign(x: real)
    ensures Sq(x) >= 0.0 && (Sq(x) == 0.0 ==> x == 0.0)
  {
    var p := ProductSign(x, x);
    assert p == Sq(x);
    hide Sq;
  }

  /** The image of a vector under the columns. */
  function Against(cols: Matrix, x: Vec): (r: Vec)
    requires Wide(cols, |x|)
    ensures |r| == |cols|
  {
    seq(|cols|, i requires 0 <= i < |cols| => Dot(cols[i], x))
  }

  lemma DotSpan(cols: Matrix, s: Vec, x: Vec)
    requires |s| == |cols| && Wide(cols, |x|)
    ensures Dot(Span(cols, s, |x|), x) == Dot(s, Against(cols, x)) == Dot(x, Span(cols, s, |x|))
  {
    DotCombine(s, cols, |cols|, x, Against(cols, x));
    DotRangeCommutes(x, Span(cols, s, |x|), 0, |x|);
  }

  lemma GramRow(g: Matrix, cols: Matrix, n: nat, s: Vec, i: nat)
    requires IsGram(g, cols, n) && |s| == |cols| && i < |cols|
    ensures Dot(g[i], s) == Dot(cols[i], Span(cols, s, n))
  {
    hide DotRange, Span;
    DotSpan(cols, s, cols[i]);
    forall j | 0 <= j < |cols| ensures Against(cols, cols[i])[j] == g[i][j] {
      DotRangeCommutes(cols[i], cols[j], 0, n);
    }
    assert Against(cols, cols[i]) == g[i];
    DotRangeCommutes(s, g[i], 0, |cols|);
  }

  /** Raising one entry of a row. */
  lemma {:induction false} RaisedRow(row: Vec, s: Vec, i: nat, ridge: real, hi: nat)
    requires |row| == |s| && i < |row| && hi <= |row|
    ensures DotRange(row[i := row[i] + ridge], s, 0, hi) == DotRange(row, s, 0, hi) + if i < hi then ridge * s[i] else 0.0
  {
    if hi > 0 {
      RaisedRow(row, s, i, ridge, hi - 1);
      RaisedCell(row[i], ridge, s[i]);
    }
  }

  lemma RaisedCell(a: real, b: real, c: real)
    ensures (a + b) * c == a * c + b * c
  {
  }

  /** Row i of (Gram + ridge I) meets s in the product of column i with the span, plus ridge * s[i]. */
  lemma RidgeRow(g: Matrix, cols: Matrix, n: nat, ridge: real, s: Vec, i: nat)
    requires IsGram(g, cols, n) && |s| == |cols| && i < |cols|
    ensures Dot(WithRidge(g, |cols|, ridge)[i], s) == Dot(cols[i], Span(cols, s, n)) + ridge * s[i]
  {
    hide DotRange, Span;
    GramRow(g, cols, n, s, i);
    RaisedRow(g[i], s, i, ridge, |s|);
  }

  /** With a positive ridge the system has one solution, whatever the columns. */
  lemma RidgeIsNonSingular(g: Matrix, cols: Matrix, n: nat, ridge: real)
    requires IsGram(g, cols, n) && ridge > 0.0
    ensures NonSingular(WithRidge(g, |cols|, ridge), |cols|)
  {
    var k := |cols|;
    forall x: Vec | |x| == k && Solves(WithRidge(g, k, ridge), x, Zeros(k)) ensures x == Zeros(k) {
      RidgeKernel(g, cols, n, ridge, x);
    }
  }

  lemma RidgeKernel(g: Matrix, cols: Matrix, n: nat, ridge: real, x: Vec)
    requires IsGram(g, cols, n) && ridge > 0.0 && |x| == |cols|
    requires Solves(WithRidge(g, |cols|, ridge), x, Zeros(|cols|))
    ensures x == Zeros(|cols|)
  {
    var k := |cols|;
    var v := Span(cols, x, n);
    forall i | 0 <= i < k ensures Against(cols, v)[i] == Scale(-ridge, x)[i] {
      RidgeRow(g, cols, n, ridge, x, i);
      assert SolvesRow(WithRidge(g, k, ridge), x, Zeros(k), i);
    }
    assert Against(cols, v) == Scale(-ridge, x);
    DotSpan(cols, x, v);
    DotRangeCommutes(x, Scale(-ridge, x), 0, k);
    DotRangeScale(-ridge, x, x, k);
    SquaresAreNonNegative(v, n);
    SquaresAreNonNegative(x, k);
    NonNegativeSum(Dot(v, v), ridge, Dot(x, x));
  }

  lemma NonNegativeSum(p: real, ridge: real, q: real)
    requires p >= 0.0 && q >= 0.0 && ridge > 0.0 && p == -ridge * q
    ensures q == 0.0
  {
    assert ridge * q == -p;
  }

  /** Each column meets the residual in its moment, less row i of the system, plus ridge * s[i]. */
  lemma ColumnMeetsResidual(w: Vec, g: Matrix, h: Vec, cols: Matrix, ridge: real, s: Vec, i: nat)
    requires IsGram(g, cols, |w|) && IsMoment(h, cols, w) && |s| == |cols| && i < |cols|
    ensures Dot(cols[i], Sub(w, Span(cols, s, |w|))) == h[i] - Dot(WithRidge(g, |cols|, ridge)[i], s) + ridge * s[i]
  {
    hide Dot, Span, Sub, WithRidge;
    RidgeRow(g, cols, |w|, ridge, s, i);
    SpanLength(cols, s, |w|);
    DotSub(w, Span(cols, s, |w|), cols[i]);
    DotCommutes(cols[i], w);
    DotCommutes(cols[i], Span(cols, s, |w|));
  }

  lemma DotCommutes(u: Vec, v: Vec)
    requires |u| == |v|
    ensures Dot(u, v) == Dot(v, u)
  {
    DotRangeCommutes(u, v, 0, |u|);
  }

  lemma SpanLength(cols: Matrix, s: Vec, n: nat)
    requires |s| == |cols| && Wide(cols, n)
    ensures |Span(cols, s, n)| == n
  {
  }

  lemma {:induction false} SpanOfDifference(cols: Matrix, s: Vec, t: Vec, c: nat, n: nat)
    requires c <= |s| == |t| == |cols| && Wide(cols, n)
    ensures Combine(Sub(s, t), cols, c, n) == Sub(Combine(s, cols, c, n), Combine(t, cols, c, n))
  {
    if c > 0 {
      SpanOfDifference(cols, s, t, c - 1, n);
      ScaledDifference(Combine(s, cols, c - 1, n), Combine(t, cols, c - 1, n), s[c - 1], t[c - 1], cols[c - 1]);
    }
  }

  lemma ScaledDifference(u: Vec, v: Vec, p: real, q: real, x: Vec)
    requires |u| == |v| == |x|
    ensures Add(Sub(u, v), Scale(p + -1.0 * q, x)) == Sub(Add(u, Scale(p, x)), Add(v, Scale(q, x)))
  {
    var left, right := Add(Sub(u, v), Scale(p + -1.0 * q, x)), Sub(Add(u, Scale(p, x)), Add(v, Scale(q, x)));
    forall j | 0 <= j < |x| ensures left[j] == right[j] {
      assert (p + -1.0 * q) * x[j] == p * x[j] - q * x[j];
    }
  }

  lemma ResidualOfDifference(w: Vec, cols: Matrix, s: Vec, t: Vec)
    requires |s| == |t| == |cols| && Wide(cols, |w|)
    ensures Sub(w, Span(cols, t, |w|)) == Sub(Sub(w, Span(cols, s, |w|)), Span(cols, Sub(t, s), |w|))
  {
    SpanOfDifference(cols, t, s, |cols|, |w|);
  }

  /** The residual of a solution meets every span in ridge times the product of the scales. */
  lemma CrossTerm(w: Vec, g: Matrix, h: Vec, cols: Matrix, ridge: real, s: Vec, d: Vec)
    requires IsGram(g, cols, |w|) && IsMoment(h, cols, w) && |s| == |d| == |cols|
    requires Solves(WithRidge(g, |cols|, ridge), s, h)
    ensures Dot(Sub(w, Span(cols, s, |w|)), Span(cols, d, |w|)) == ridge * Dot(s, d)
  {
    hide Dot, Span, Sub, WithRidge;
    var k, e := |cols|, Sub(w, Span(cols, s, |w|));
    SpanLength(cols, s, |w|);
    SubLength(w, Span(cols, s, |w|));
    DotSpan(cols, d, e);
    forall i | 0 <= i < k ensures Against(cols, e)[i] == Scale(ridge, s)[i] {
      assert SolvesRow(WithRidge(g, k, ridge), s, h, i);
      ColumnMeetsResidual(w, g, h, cols, ridge, s, i);
    }
    assert Against(cols, e) == Scale(ridge, s);
    DotCommutes(d, Scale(ridge, s));
    DotScale(ridge, s, d);
  }

  lemma DotScale(c: real, u: Vec, v: Vec)
    requires |u| == |v|
    ensures Dot(Scale(c, u), v) == c * Dot(u, v)
  {
    DotRangeScale(c, u, v, |u|);
  }

  /** How the objective changes from s to t: by the residual against the span of t - s, and squares. */
  lemma ObjectiveMoves(w: Vec, cols: Matrix, ridge: real, s: Vec, t: Vec)
    requires |s| == |t| == |cols| && Wide(cols, |w|)
    ensures var d := Sub(t, s);
      var e, v := Sub(w, Span(cols, s, |w|)), Span(cols, d, |w|);
      Objective(w, cols, ridge, t)
      == Objective(w, cols, ridge, s) - 2.0 * Dot(e, v) + Dot(v, v) + 2.0 * (ridge * Dot(s, d)) + ridge * Dot(d, d)
  {
    var d := Sub(t, s);
    var e, v := Sub(w, Span(cols, s, |w|)), Span(cols, d, |w|);
    hide Dot, Span, Sub;
    ResidualOfDifference(w, cols, s, t);
    DotSubSquare(e, v);
    PenaltyOfDifference(s, t);
    PenaltyArithmetic(ridge, Dot(s, s), Dot(s, d), Dot(d, d), Dot(t, t));
  }

  /**
   Any exact solution of (Gram + ridge I) s = moment minimises the objective: another choice t
   costs exactly the squared span of t - s and its ridge penalty more.
   */
  lemma SolutionMinimises(w: Vec, g: Matrix, h: Vec, cols: Matrix, ridge: real, s: Vec, t: Vec)
    requires IsGram(g, cols, |w|) && IsMoment(h, cols, w) && |s| == |t| == |cols|
    requires Solves(WithRidge(g, |cols|, ridge), s, h)
    ensures var v := Span(cols, Sub(t, s), |w|);
      Objective(w, cols, ridge, t) == Objective(w, cols, ridge, s) + Dot(v, v) + ridge * Dot(Sub(t, s), Sub(t, s))
    ensures ridge >= 0.0 ==> Objective(w, cols, ridge, s) <= Objective(w, cols, ridge, t)
  {
    hide Dot, Span, Sub, Solves, IsMoment, Objective, WithRidge;
    SubLength(t, s);
    CrossTerm(w, g, h, cols, ridge, s, Sub(t, s));
    ObjectiveMoves(w, cols, ridge, s, t);
    DotSelf(Span(cols, Sub(t, s), |w|));
    DotSelf(Sub(t, s));
    ProductIsNonNegative(ridge, Dot(Sub(t, s), Sub(t, s)));
  }

  lemma SubLength(u: Vec, v: Vec)
    requires |u| == |v|
    ensures |Sub(u, v)| == |u|
  {
  }

  lemma ProductIsNonNegative(p: real, q: real)
    requires q >= 0.0
    ensures p >= 0.0 ==> p * q >= 0.0
  {
  }

  // ----- only solutions minimise

  ghost predicate Minimises(w: Vec, cols: Matrix, ridge: real, s: Vec)
    requires |s| == |cols| && Wide(cols, |w|)
  {
    forall t: Vec :: |t| == |cols| ==> Objective(w, cols, ridge, s) <= Objective(w, cols, ridge, t)
  }

  /** s with entry i moved by x. */
  function Moved(s: Vec, i: nat, x: real): (t: Vec)
    requires i < |s|
    ensures |t| == |s|
  {
    Add(s, Scale(x, Unit(|s|, i)))
  }

  lemma MovedDifference(s: Vec, i: nat, x: real)
    requires i < |s|
    ensures Sub(Moved(s, i, x), s) == Scale(x, Unit(|s|, i))
  {
    var d := Sub(Moved(s, i, x), s);
    forall k | 0 <= k < |s| ensures d[k] == Scale(x, Unit(|s|, i))[k] {
    }
  }

  lemma DotScaledUnit(x: real, k: nat, i: nat, u: Vec)
    requires |u| == k && i < k
    ensures Dot(Scale(x, Unit(k, i)), u) == x * u[i] == Dot(u, Scale(x, Unit(k, i)))
  {
    DotUnit(u, i);
    DotRangeScale(x, Unit(k, i), u, k);
    DotCommutes(u, Unit(k, i));
    DotCommutes(u, Scale(x, Unit(k, i)));
  }

  /** Moving one scale: the residual and the squares that ObjectiveMoves asks for. */
  lemma MovedProducts(cols: Matrix, n: nat, e: Vec, s: Vec, i: nat, x: real)
    requires Wide(cols, n) && |e| == n && |s| == |cols| && i < |cols|
    ensures var d := Scale(x, Unit(|s|, i));
      && |d| == |s| && |Span(cols, d, n)| == n
      && Dot(e, Span(cols, d, n)) == x * Dot(cols[i], e)
      && Dot(Span(cols, d, n), Span(cols, d, n)) == x * (x * Dot(cols[i], cols[i]))
      && Dot(s, d) == x * s[i] && Dot(d, d) == x * x
  {
    hide Dot, Span;
    var k, d := |s|, Scale(x, Unit(|s|, i));
    SpanLength(cols, d, n);
    var v := Span(cols, d, n);
    DotSpan(cols, d, e);
    DotScaledUnit(x, k, i, Against(cols, e));
    DotSpan(cols, d, v);
    DotScaledUnit(x, k, i, Against(cols, v));
    DotSpan(cols, d, cols[i]);
    DotScaledUnit(x, k, i, Against(cols, cols[i]));
    DotCommutes(cols[i], v);
    DotScaledUnit(x, k, i, s);
    DotScaledUnit(x, k, i, d);
    assert d[i] == x;
  }

  /** Moving scale i by x changes the objective by 2 x times the excess of row i, plus x^2 times a fixed curvature. */
  lemma MovedObjective(w: Vec, g: Matrix, h: Vec, cols: Matrix, ridge: real, s: Vec, i: nat, x: real)
    requires IsGram(g, cols, |w|) && IsMoment(h, cols, w) && |s| == |cols| && i < |cols|
    ensures Objective(w, cols, ridge, Moved(s, i, x))
         == Objective(w, cols, ridge, s) + 2.0 * (x * (Dot(WithRidge(g, |cols|, ridge)[i], s) - h[i]))
            + x * x * (Dot(cols[i], cols[i]) + ridge)
  {
    hide Dot, Span, Objective, WithRidge, Moved, Sub, Scale;
    var e := Sub(w, Span(cols, s, |w|));
    SpanLength(cols, s, |w|);
    SubLength(w, Span(cols, s, |w|));
    MovedLength(s, i, x);
    MovedDifference(s, i, x);
    ObjectiveMoves(w, cols, ridge, s, Moved(s, i, x));
    MovedProducts(cols, |w|, e, s, i, x);
    ColumnMeetsResidual(w, g, h, cols, ridge, s, i);
    MoveArithmetic(x, ridge, s[i], h[i], Dot(WithRidge(g, |cols|, ridge)[i], s), Dot(cols[i], cols[i]), Dot(cols[i], e));
  }

  lemma MovedLength(s: Vec, i: nat, x: real)
    requires i < |s|
    ensures |Moved(s, i, x)| == |s|
  {
  }

  lemma MoveArithmetic(x: real, ridge: real, si: real, hi: real, row: real, cc: real, ce: real)
    requires ce == hi - row + ridge * si
    ensures -2.0 * (x * ce) + x * (x * cc) + 2.0 * (ridge * (x * si)) + ridge * (x * x)
         == 2.0 * (x * (row - hi)) + x * x * (cc + ridge)
  {
    assert x * ce == x * (hi - row) + x * (ridge * si);
    assert x * (ridge * si) == ridge * (x * si);
    assert x * x * (cc + ridge) == x * (x * cc) + ridge * (x * x);
    assert x * (hi - row) == -(x * (row - hi));
  }

  /** A row with excess r can be improved by moving its scale by -r / (c + 1). */
  lemma BetterMove(r: real, c: real) returns (x: real)
    requires r != 0.0 && c >= 0.0
    ensures 2.0 * (x * r) + x * x * c < 0.0
  {
    var q := r / (c + 1.0);
    assert r == q * (c + 1.0);
    x := -q;
    var p := q * q;
    assert p > 0.0 by {
      assert q != 0.0;
      SquareSign(q);
    }
    assert x * r == -(p * (c + 1.0)) && x * x * c == p * c;
    assert p * c >= 0.0;
    assert p * (c + 1.0) == p * c + p;
  }

  /** Scales that leave a row unsolved can be improved. */
  lemma UnsolvedImproves(w: Vec, g: Matrix, h: Vec, cols: Matrix, ridge: real, s: Vec, i: nat) returns (t: Vec)
    requires IsGram(g, cols, |w|) && IsMoment(h, cols, w) && |s| == |cols| && ridge >= 0.0 && i < |cols|
    requires Dot(WithRidge(g, |cols|, ridge)[i], s) != h[i]
    ensures |t| == |cols| && Objective(w, cols, ridge, t) < Objective(w, cols, ridge, s)
  {
    hide Dot, Objective, WithRidge, Moved;
    DotSelf(cols[i]);
    var x := BetterMove(Dot(WithRidge(g, |cols|, ridge)[i], s) - h[i], Dot(cols[i], cols[i]) + ridge);
    MovedObjective(w, g, h, cols, ridge, s, i, x);
    MovedLength(s, i, x);
    t := Moved(s, i, x);
  }

  /** Scales minimise the ridge objective exactly when they solve the system. */
  lemma MinimisesExactly(w: Vec, g: Matrix, h: Vec, cols: Matrix, ridge: real, s: Vec)
    requires IsGram(g, cols, |w|) && IsMoment(h, cols, w) && |s| == |cols| && ridge >= 0.0
    ensures Minimises(w, cols, ridge, s) <==> Solves(WithRidge(g, |cols|, ridge), s, h)
  {
    hide Dot, Objective, WithRidge;
    var m := WithRidge(g, |cols|, ridge);
    WithRidgeShape(g, |cols|, ridge);
    if Solves(m, s, h) {
      forall t: Vec | |t| == |cols| ensures Objective(w, cols, ridge, s) <= Objective(w, cols, ridge, t) {
        SolutionMinimises(w, g, h, cols, ridge, s, t);
      }
    } else {
      var i :| 0 <= i < |cols| && !SolvesRow(m, s, h, i);
      var t := UnsolvedImproves(w, g, h, cols, ridge, s, i);
    }
  }

  lemma WithRidgeShape(g: Matrix, n: nat, ridge: real)
    requires Square(g, n)
    ensures Square(WithRidge(g, n, ridge), n)
  {
  }

  lemma DotSelf(u: Vec)
    ensures Dot(u, u) >= 0.0
  {
    SquaresAreNonNegative(u, |u|);
  }

  lemma PenaltyOfDifference(s: Vec, t: Vec)
    requires |s| == |t|
    ensures Dot(t, t) == Dot(s, s) + 2.0 * Dot(s, Sub(t, s)) + Dot(Sub(t, s), Sub(t, s))
  {
    DotSubSquare(t, s);
    DotSub(t, s, s);
    DotRangeCommutes(t, s, 0, |s|);
  }

  lemma PenaltyArithmetic(ridge: real, ss: real, sd: real, dd: real, tt: real)
    requires tt == ss + 2.0 * sd + dd
    ensures ridge * tt == ridge * ss + 2.0 * (ridge * sd) + ridge * dd
  {
  }
}
