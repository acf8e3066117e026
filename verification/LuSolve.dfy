/**
 The triangular sweeps that follow the factorisation (lu_solve). Both sweeps skip a whole row when
 its right-hand entry is zero on entry, so the result solves the system only if the products that
 were skipped happen to be zero.
 */
module LuSolve {
  import opened Vectors
  import opened LuFactor

  /** What the forward sweep leaves, row by row, for the permuted right-hand side p. */
  predicate ForwardSwept(f: Matrix, p: Vec, y: Vec, n: nat) {
    Square(f, n) && |p| == n && |y| == n && forall i :: 0 <= i < n ==> ForwardRow(f, p, y, n, i)
  }

  predicate ForwardRow(f: Matrix, p: Vec, y: Vec, n: nat, i: nat)
    requires Square(f, n) && |p| == n && |y| == n && i < n
  {
    y[i] == ForwardEntry(f, p, y, n, i)
  }

  function ForwardEntry(f: Matrix, p: Vec, y: Vec, n: nat, i: nat): real
    requires Square(f, n) && |p| == n && |y| == n && i < n
  {
    if p[i] == 0.0 then 0.0 else p[i] - DotRange(f[i], y, 0, i)
  }

  /** What the backward sweep leaves, row by row, for the intermediate vector y. */
  predicate BackwardSwept(f: Matrix, y: Vec, x: Vec, n: nat) {
    && Square(f, n) && |y| == n && |x| == n && PivotsNonZero(f, n, n)
    && forall i :: 0 <= i < n ==> BackwardRow(f, y, x, n, i)
  }

  predicate BackwardRow(f: Matrix, y: Vec, x: Vec, n: nat, i: nat)
    requires Square(f, n) && |y| == n && |x| == n && PivotsNonZero(f, n, n) && i < n
  {
    x[i] == BackwardEntry(f, y, x, n, i)
  }

  function BackwardEntry(f: Matrix, y: Vec, x: Vec, n: nat, i: nat): real
    requires Square(f, n) && |y| == n && |x| == n && PivotsNonZero(f, n, n) && i < n
  {
    if y[i] == 0.0 then 0.0 else (y[i] - DotRange(f[i], x, i + 1, n)) / f[i][i]
  }

  /** The products that the forward sweep skipped are zero. */
  predicate ForwardSkipsNothing(f: Matrix, p: Vec, y: Vec, n: nat)
    requires Square(f, n) && |p| == n && |y| == n
  {
    forall i :: 0 <= i < n ==> ForwardSkipIsIdle(f, p, y, n, i)
  }

  predicate ForwardSkipIsIdle(f: Matrix, p: Vec, y: Vec, n: nat, i: nat)
    requires Square(f, n) && |p| == n && |y| == n && i < n
  {
    p[i] == 0.0 ==> DotRange(f[i], y, 0, i) == 0.0
  }

  /** The products that the backward sweep skipped are zero. */
  predicate BackwardSkipsNothing(f: Matrix, y: Vec, x: Vec, n: nat)
    requires Square(f, n) && |y| == n && |x| == n
  {
    forall i :: 0 <= i < n ==> BackwardSkipIsIdle(f, y, x, n, i)
  }

  predicate BackwardSkipIsIdle(f: Matrix, y: Vec, x: Vec, n: nat, i: nat)
    requires Square(f, n) && |y| == n && |x| == n && i < n
  {
    y[i] == 0.0 ==> DotRange(f[i], x, i + 1, n) == 0.0
  }

  lemma UnitLowerDot(f: Matrix, y: Vec, n: nat, i: nat)
    requires Square(f, n) && |y| == n && i < n
    ensures Dot(UnitLower(f, n)[i], y) == DotRange(f[i], y, 0, i) + y[i]
  {
    var row := UnitLower(f, n)[i];
    DotRangeSplit(row, y, 0, i, n);
    DotRangeSplit(row, y, i, i + 1, n);
    DotRangeCongruent(row, y, f[i], y, 0, i);
    DotRangeZero(row, y, i + 1, n);
    DotRangeSingle(row, y, i);
  }

  lemma UpperDot(f: Matrix, x: Vec, n: nat, i: nat)
    requires Square(f, n) && |x| == n && i < n
    ensures Dot(Upper(f, n)[i], x) == f[i][i] * x[i] + DotRange(f[i], x, i + 1, n)
  {
    var row := Upper(f, n)[i];
    assert DotRange(row, x, 0, i) == 0.0 by {
      DotRangeZero(row, x, 0, i);
    }
    assert DotRange(row, x, i, i + 1) == f[i][i] * x[i] by {
      DotRangeSingle(row, x, i);
      assert row[i] == f[i][i];
    }
    assert DotRange(row, x, i + 1, n) == DotRange(f[i], x, i + 1, n) by {
      DotRangeCongruent(row, x, f[i], x, i + 1, n);
    }
    DotRangeSplit(row, x, 0, i, n);
    DotRangeSplit(row, x, i, i + 1, n);
  }

  /** The forward sweep solves L y = p exactly when every skipped product is zero. */
  lemma ForwardExact(f: Matrix, p: Vec, y: Vec, n: nat)
    requires ForwardSwept(f, p, y, n)
    ensures Solves(UnitLower(f, n), y, p) <==> ForwardSkipsNothing(f, p, y, n)
  {
    forall i | 0 <= i < n ensures SolvesRow(UnitLower(f, n), y, p, i) <==> ForwardSkipIsIdle(f, p, y, n, i) {
      UnitLowerDot(f, y, n, i);
      assert ForwardRow(f, p, y, n, i);
    }
  }

  /** The backward sweep solves U x = y exactly when every skipped product is zero. */
  lemma BackwardExact(f: Matrix, y: Vec, x: Vec, n: nat)
    requires BackwardSwept(f, y, x, n)
    ensures Solves(Upper(f, n), x, y) <==> BackwardSkipsNothing(f, y, x, n)
  {
    forall i | 0 <= i < n ensures SolvesRow(Upper(f, n), x, y, i) <==> BackwardSkipIsIdle(f, y, x, n, i) {
      UpperDot(f, x, n, i);
      assert BackwardRow(f, y, x, n, i);
      if y[i] != 0.0 {
        assert f[i][i] * x[i] == y[i] - DotRange(f[i], x, i + 1, n);
      }
    }
  }

  /** `f` and `piv` are a factorisation of `a`, as Factor leaves them. */
  ghost predicate Factors(a: Matrix, f: Matrix, piv: seq<int>, n: nat) {
    && Square(a, n) && Square(f, n) && ValidPivots(piv, n, n) && PivotsNonZero(f, n, n)
    && Interchanges(a, piv, n) == MatMul(UnitLower(f, n), Upper(f, n), n)
  }

  /** What the forward sweep left out of each row: the skipped products. */
  function ForwardSkipped(f: Matrix, p: Vec, y: Vec, n: nat): (v: Vec)
    requires Square(f, n) && |p| == n && |y| == n
    ensures |v| == n
  {
    seq(n, i requires 0 <= i < n => if p[i] == 0.0 then DotRange(f[i], y, 0, i) else 0.0)
  }

  function BackwardSkipped(f: Matrix, y: Vec, x: Vec, n: nat): (v: Vec)
    requires Square(f, n) && |y| == n && |x| == n
    ensures |v| == n
  {
    seq(n, i requires 0 <= i < n => if y[i] == 0.0 then DotRange(f[i], x, i + 1, n) else 0.0)
  }

  /** What both sweeps left out cancels row by row: forward skips plus L times the backward skips is zero. */
  predicate SkipsCancel(f: Matrix, p: Vec, y: Vec, x: Vec, n: nat)
    requires Square(f, n) && |p| == n && |y| == n && |x| == n
  {
    forall i :: 0 <= i < n ==> SkipsCancelAt(f, p, y, x, n, i)
  }

  predicate SkipsCancelAt(f: Matrix, p: Vec, y: Vec, x: Vec, n: nat, i: nat)
    requires Square(f, n) && |p| == n && |y| == n && |x| == n && i < n
  {
    ForwardSkipped(f, p, y, n)[i] + Dot(UnitLower(f, n)[i], BackwardSkipped(f, y, x, n)) == 0.0
  }

  lemma ForwardMeets(f: Matrix, p: Vec, y: Vec, n: nat, i: nat)
    requires ForwardSwept(f, p, y, n) && i < n
    ensures Dot(UnitLower(f, n)[i], y) == p[i] + ForwardSkipped(f, p, y, n)[i]
  {
    UnitLowerDot(f, y, n, i);
    assert ForwardRow(f, p, y, n, i);
  }

  lemma BackwardMeets(f: Matrix, y: Vec, x: Vec, n: nat, i: nat)
    requires BackwardSwept(f, y, x, n) && i < n
    ensures Dot(Upper(f, n)[i], x) == y[i] + BackwardSkipped(f, y, x, n)[i]
  {
    UpperDot(f, x, n, i);
    assert BackwardRow(f, y, x, n, i);
    hide DotRange;
    if y[i] != 0.0 {
      assert f[i][i] * x[i] == y[i] - DotRange(f[i], x, i + 1, n);
    }
  }

  lemma {:induction false} DotAddRight(u: Vec, v: Vec, w: Vec, hi: nat)
    requires |v| == |w| && hi <= |u| && hi <= |v|
    ensures DotRange(u, Add(v, w), 0, hi) == DotRange(u, v, 0, hi) + DotRange(u, w, 0, hi)
  {
    if hi > 0 {
      DotAddRight(u, v, w, hi - 1);
    }
  }

  /** Row i of L U x is what p asks for plus what the sweeps left out. */
  lemma SweptRow(f: Matrix, p: Vec, y: Vec, x: Vec, n: nat, i: nat)
    requires ForwardSwept(f, p, y, n) && BackwardSwept(f, y, x, n) && i < n
    ensures Dot(MatMul(UnitLower(f, n), Upper(f, n), n)[i], x)
         == p[i] + ForwardSkipped(f, p, y, n)[i] + Dot(UnitLower(f, n)[i], BackwardSkipped(f, y, x, n))
  {
    hide DotRange, ForwardSkipped, BackwardSkipped, Combine;
    var low, up, u := UnitLower(f, n), Upper(f, n), BackwardSkipped(f, y, x, n);
    SkippedLength(f, p, y, x, n);
    var image := Add(y, u);
    forall t | 0 <= t < n ensures image[t] == Dot(up[t], x) {
      BackwardMeets(f, y, x, n, t);
    }
    DotCombine(low[i], up, n, x, image);
    DotAddRight(low[i], y, u, n);
    ForwardMeets(f, p, y, n, i);
  }

  lemma SkippedLength(f: Matrix, p: Vec, y: Vec, x: Vec, n: nat)
    requires Square(f, n) && |p| == n && |y| == n && |x| == n
    ensures |ForwardSkipped(f, p, y, n)| == n && |BackwardSkipped(f, y, x, n)| == n
  {
  }

  /** The answer solves A x = b exactly when what the two sweeps skipped cancels. */
  lemma SolveExact(a: Matrix, f: Matrix, piv: seq<int>, b: Vec, y: Vec, x: Vec, n: nat)
    requires Factors(a, f, piv, n) && |b| == n
    requires ForwardSwept(f, Interchanges(b, piv, n), y, n) && BackwardSwept(f, y, x, n)
    ensures Solves(a, x, b) <==> SkipsCancel(f, Interchanges(b, piv, n), y, x, n)
  {
    hide Dot, ForwardSwept, BackwardSwept, ForwardSkipped, BackwardSkipped, MatMul, UnitLower, Upper, Interchanges, PivotsNonZero;
    var p, m := Interchanges(b, piv, n), MatMul(UnitLower(f, n), Upper(f, n), n);
    InterchangesKeepSolutions(a, b, piv, n, x);
    SweptLengths(f, p, y, x, n);
    forall i | 0 <= i < n ensures SolvesRow(m, x, p, i) <==> SkipsCancelAt(f, p, y, x, n, i) {
      SweptRow(f, p, y, x, n, i);
    }
  }

  lemma SweptLengths(f: Matrix, p: Vec, y: Vec, x: Vec, n: nat)
    requires ForwardSwept(f, p, y, n) && BackwardSwept(f, y, x, n)
    ensures |p| == |y| == |x| == n && Square(f, n) && Square(MatMul(UnitLower(f, n), Upper(f, n), n), n)
  {
  }

  /** When no intermediate entry is zero nothing is skipped, and the system is solved. */
  lemma SolveWithoutZeros(a: Matrix, f: Matrix, piv: seq<int>, b: Vec, y: Vec, x: Vec, n: nat)
    requires Factors(a, f, piv, n) && |b| == n
    requires ForwardSwept(f, Interchanges(b, piv, n), y, n) && BackwardSwept(f, y, x, n)
    requires forall i :: 0 <= i < n ==> y[i] != 0.0
    ensures Solves(a, x, b)
  {
    var p := Interchanges(b, piv, n);
    SolveExact(a, f, piv, b, y, x, n);
    forall i | 0 <= i < n ensures SkipsCancelAt(f, p, y, x, n, i) {
      assert ForwardRow(f, p, y, n, i);
      DotRangeZero(UnitLower(f, n)[i], BackwardSkipped(f, y, x, n), 0, n);
    }
  }

  /** The guards do change answers: [[2, 1], [1, 2]] x = [1, 0] comes out as [1/2, 0]. */
  lemma GuardBreaksSolution()
    ensures var a, f := [[2.0, 1.0], [1.0, 2.0]], [[2.0, 1.0], [0.5, 1.5]];
      && Factors(a, f, [0, 1], 2)
      && ForwardSwept(f, Interchanges([1.0, 0.0], [0, 1], 2), [1.0, 0.0], 2)
      && BackwardSwept(f, [1.0, 0.0], [0.5, 0.0], 2)
      && !Solves(a, [0.5, 0.0], [1.0, 0.0])
  {
    var a: Matrix, f: Matrix := [[2.0, 1.0], [1.0, 2.0]], [[2.0, 1.0], [0.5, 1.5]];
    var b: Vec := [1.0, 0.0];
    assert Interchanges(a, [0, 1], 1) == a && Interchanges(b, [0, 1], 1) == b;
    var low, up := UnitLower(f, 2), Upper(f, 2);
    forall i | 0 <= i < 2 ensures Combine(low[i], up, 2, 2) == a[i] {
      assert Combine(low[i], up, 1, 2) == Add(Zeros(2), Scale(low[i][0], up[0]));
    }
    assert MatMul(low, up, 2) == a;
    assert DotRange(f[1], [1.0, 0.0], 0, 1) == 0.5;
    assert DotRange(f[0], [0.5, 0.0], 1, 2) == 0.0;
    assert DotRange(a[1], [0.5, 0.0], 0, 1) == 0.5;
    assert Dot(a[1], [0.5, 0.0]) == 0.5;
    assert !SolvesRow(a, [0.5, 0.0], b, 1);
  }

  lemma {:induction false} IdentityInterchanges<T>(s: seq<T>, piv: seq<int>, k: nat)
    requires ValidPivots(piv, |s|, k) && forall t :: 0 <= t < k ==> piv[t] == t
    ensures Interchanges(s, piv, k) == s
  {
    if k > 0 {
      IdentityInterchanges(s, piv, k - 1);
    }
  }

  function CancellingMatrix(): Matrix {
    [[1.0, 0.0, 0.0], [1.0, 1.0, -1.0], [0.0, 0.0, 1.0]]
  }

  /** The matrix is its own factorisation. */
  lemma CancellingFactors()
    ensures Factors(CancellingMatrix(), CancellingMatrix(), [0, 1, 2], 3)
  {
    var a := CancellingMatrix();
    IdentityInterchanges(a, [0, 1, 2], 3);
    var low, up := UnitLower(a, 3), Upper(a, 3);
    forall i | 0 <= i < 3 ensures Combine(low[i], up, 3, 3) == a[i] {
      assert Combine(low[i], up, 1, 3) == Add(Zeros(3), Scale(low[i][0], up[0]));
      assert Combine(low[i], up, 2, 3) == Add(Combine(low[i], up, 1, 3), Scale(low[i][1], up[1]));
    }
    assert MatMul(low, up, 3) == a;
  }

  /** Two wrong skips can cancel: the forward sweep skips a product that matters, and the system is solved. */
  lemma SkipsMayCancel()
    ensures var a, b := CancellingMatrix(), [1.0, 0.0, 1.0];
      && Factors(a, a, [0, 1, 2], 3)
      && ForwardSwept(a, Interchanges(b, [0, 1, 2], 3), b, 3) && BackwardSwept(a, b, b, 3)
      && !ForwardSkipsNothing(a, b, b, 3) && Solves(a, b, b)
  {
    hide Factors;
    var a, b: Vec := CancellingMatrix(), [1.0, 0.0, 1.0];
    CancellingFactors();
    IdentityInterchanges(b, [0, 1, 2], 3);
    assert DotRange(a[1], b, 0, 1) == 1.0 && !ForwardSkipIsIdle(a, b, b, 3, 1);
    assert DotRange(a[2], b, 0, 1) == DotRange(a[2], b, 0, 2) == 0.0;
    assert DotRange(a[0], b, 1, 2) == DotRange(a[0], b, 1, 3) == 0.0;
    assert DotRange(a[0], b, 0, 1) == DotRange(a[0], b, 0, 2) == 1.0;
    assert DotRange(a[1], b, 0, 2) == 1.0;
    assert SolvesRow(a, b, b, 0) && SolvesRow(a, b, b, 1) && SolvesRow(a, b, b, 2);
  }

  /** lu_solve: replaces b by the result of the two guarded sweeps; y is what lies between them. */
  method Solve(a: array2<real>, n: nat, ipiv: array<int>, b: array<real>) returns (ghost y: Vec)
    requires a.Length0 == n && a.Length1 == n && b.Length == n && ipiv.Length == n
    requires ValidPivots(ipiv[..], n, n) && PivotsNonZero(Rows(a), n, n)
    modifies b
    ensures ForwardSwept(Rows(a), Interchanges(old(b[..]), ipiv[..], n), y, n)
    ensures BackwardSwept(Rows(a), y, b[..], n)
  {
    for j := 0 to n
      invariant b[..] == Interchanges(old(b[..]), ipiv[..], j)
    {
      if ipiv[j] != j {
        b[j], b[ipiv[j]] := b[ipiv[j]], b[j];
      }
    }
    y := SweepForward(a, n, b);
    SweepBackward(a, n, b);
  }

  /** The inner loop of both sweeps: subtracts the products of row i from b[i]. */
  method SubtractProducts(a: array2<real>, n: nat, b: array<real>, i: nat, lo: nat, hi: nat)
    requires a.Length0 == n && a.Length1 == n && b.Length == n
    requires i < n && lo <= hi <= n && (hi <= i || i < lo)
    modifies b
    ensures b[..] == old(b[..])[i := old(b[i]) - DotRange(Rows(a)[i], old(b[..]), lo, hi)]
  {
    hide DotRange;
    ghost var row, before := Rows(a)[i], b[..];
    NoProducts(row, before, lo);
    for j := lo to hi
      invariant b[..] == before[i := before[i] - DotRange(row, before, lo, j)]
    {
      assert row[j] == a[i, j] && b[j] == b[..][j] == before[j];
      NextProduct(row, before, lo, j);
      ghost var now := b[..];
      assert now[i] == b[i] == before[i] - DotRange(row, before, lo, j);
      b[i] := b[i] - a[i, j] * b[j];
      assert b[i] == before[i] - DotRange(row, before, lo, j + 1);
      assert b[..] == now[i := b[i]];
    }
  }

  method SweepForward(a: array2<real>, n: nat, b: array<real>) returns (ghost y: Vec)
    requires a.Length0 == n && a.Length1 == n && b.Length == n
    modifies b
    ensures y == b[..] && ForwardSwept(Rows(a), old(b[..]), y, n)
  {
    ghost var f, p := Rows(a), b[..];
    for i := 0 to n
      invariant forall r :: i <= r < n ==> b[r] == p[r]
      invariant forall r :: 0 <= r < i ==> b[r] == ForwardEntry(f, p, b[..], n, r)
    {
      ghost var before := b[..];
      if b[i] != 0.0 {
        SubtractProducts(a, n, b, i, 0, i);
      }
      assert forall r :: 0 <= r < n && r != i ==> b[..][r] == before[r];
      forall r | 0 <= r < i + 1 ensures b[r] == ForwardEntry(f, p, b[..], n, r) {
        DotRangeCongruent(f[r], before, f[r], b[..], 0, r);
      }
    }
    y := b[..];
  }

  /** Finishing row i leaves the rows below it as they were. */
  lemma BackwardStep(f: Matrix, y: Vec, before: Vec, after: Vec, n: nat, i: nat)
    requires Square(f, n) && |y| == n && |before| == n && PivotsNonZero(f, n, n) && i < n
    requires forall r :: i < r < n ==> before[r] == BackwardEntry(f, y, before, n, r)
    requires after == before[i := BackwardEntry(f, y, before, n, i)]
    ensures forall r :: i <= r < n ==> after[r] == BackwardEntry(f, y, after, n, r)
  {
    forall r | i <= r < n ensures after[r] == BackwardEntry(f, y, after, n, r) {
      DotRangeCongruent(f[r], before, f[r], after, r + 1, n);
      hide DotRange;
    }
  }

  method SweepBackward(a: array2<real>, n: nat, b: array<real>)
    requires a.Length0 == n && a.Length1 == n && b.Length == n && PivotsNonZero(Rows(a), n, n)
    modifies b
    ensures BackwardSwept(Rows(a), old(b[..]), b[..], n)
  {
    hide DotRange;
    ghost var f, y := Rows(a), b[..];
    for i := n downto 0
      invariant forall r :: 0 <= r < i ==> b[r] == y[r]
      invariant forall r :: i <= r < n ==> b[..][r] == BackwardEntry(f, y, b[..], n, r)
    {
      ghost var before := b[..];
      if b[i] != 0.0 {
        SubtractProducts(a, n, b, i, i + 1, n);
        assert f[i][i] == a[i, i];
        b[i] := b[i] / a[i, i];
      }
      assert b[..] == before[i := BackwardEntry(f, y, before, n, i)];
      BackwardStep(f, y, before, b[..], n, i);
    }
  }
}
