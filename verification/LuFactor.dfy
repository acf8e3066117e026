/** Factorisation with partial pivoting of the small normal-equation matrices (lu_factor). */
module LuFactor {
  import Bytes
  import opened Vectors

  /** Swaps positions a and b. */
  function Interchange<T>(s: seq<T>, a: nat, b: nat): seq<T>
    requires a < |s| && b < |s|
    ensures |Interchange(s, a, b)| == |s|
  {
    s[a := s[b]][b := s[a]]
  }

  predicate ValidPivots(piv: seq<int>, n: nat, k: nat) {
    k <= n && |piv| == n && forall t :: 0 <= t < k ==> t <= piv[t] < n
  }

  /** The first k recorded interchanges, in order: the permutation P of P A = L U. */
  function Interchanges<T>(s: seq<T>, piv: seq<int>, k: nat): seq<T>
    requires ValidPivots(piv, |s|, k)
    ensures |Interchanges(s, piv, k)| == |s|
  {
    if k == 0 then s else Interchange(Interchanges(s, piv, k - 1), k - 1, piv[k - 1])
  }

  /** `u` with its first c entries cleared. */
  function Tail(u: Vec, c: nat): Vec {
    seq(|u|, j requires 0 <= j < |u| => if j < c then 0.0 else u[j])
  }

  /** The upper triangular factor kept in `f`. */
  function Upper(f: Matrix, n: nat): Matrix
    requires Square(f, n)
    ensures Square(Upper(f, n), n)
  {
    seq(n, i requires 0 <= i < n => Tail(f[i], i))
  }

  /** The unit lower triangular factor kept in `f`. */
  function UnitLower(f: Matrix, n: nat): Matrix
    requires Square(f, n)
    ensures Square(UnitLower(f, n), n)
  {
    seq(n, i requires 0 <= i < n =>
      seq(n, j requires 0 <= j < n => if j < i then f[i][j] else if j == i then 1.0 else 0.0))
  }

  predicate UnitMultipliers(f: Matrix, n: nat, k: nat)
    requires Square(f, n)
  {
    forall i, j :: 0 <= j < i < n && j < k ==> Abs(f[i][j]) <= 1.0
  }

  predicate PivotsNonZero(f: Matrix, n: nat, k: nat)
    requires Square(f, n) && k <= n
  {
    forall t :: 0 <= t < k ==> f[t][t] != 0.0
  }

  /** What row i of the permuted matrix is, in terms of the half-eliminated matrix m after k columns. */
  function Rebuilt(m: Matrix, n: nat, k: nat, i: nat): Vec
    requires Square(m, n) && i < n
  {
    Add(Combine(m[i], Upper(m, n), Bytes.Least(i, k), n), Tail(m[i], Bytes.Least(i, k)))
  }

  ghost predicate Eliminated(pa: Matrix, m: Matrix, n: nat, k: nat) {
    Square(pa, n) && Square(m, n) && forall i :: 0 <= i < n ==> pa[i] == Rebuilt(m, n, k, i)
  }

  /** Entry (i, j) after column k is eliminated below the pivot; multipliers overwrite the column. */
  function EliminatedEntry(m: Matrix, n: nat, k: nat, i: nat, j: nat): real
    requires Square(m, n) && k < n && m[k][k] != 0.0 && i < n && j < n
  {
    if i <= k || j < k then m[i][j]
    else if j == k then m[i][k] / m[k][k]
    else m[i][j] - m[i][k] / m[k][k] * m[k][j]
  }

  predicate EliminatesColumn(m: Matrix, m': Matrix, n: nat, k: nat)
    requires Square(m, n) && Square(m', n) && k < n && m[k][k] != 0.0
  {
    forall i, j :: 0 <= i < n && 0 <= j < n ==> m'[i][j] == EliminatedEntry(m, n, k, i, j)
  }

  lemma EliminatedAtStart(a: Matrix, n: nat)
    requires Square(a, n)
    ensures Eliminated(a, a, n, 0)
  {
    forall i | 0 <= i < n ensures a[i] == Rebuilt(a, n, 0, i) {
      assert Tail(a[i], 0) == a[i];
    }
  }

  lemma EliminatedInterchange(pa: Matrix, m: Matrix, n: nat, k: nat, p: nat)
    requires Eliminated(pa, m, n, k) && k <= p < n
    ensures Eliminated(Interchange(pa, k, p), Interchange(m, k, p), n, k)
  {
    var pa', m' := Interchange(pa, k, p), Interchange(m, k, p);
    forall i | 0 <= i < n ensures pa'[i] == Rebuilt(m', n, k, i) {
      var o := if i == k then p else if i == p then k else i;
      assert pa'[i] == pa[o] && m'[i] == m[o];
      CombineCongruent(m'[i], Upper(m', n), m[o], Upper(m, n), Bytes.Least(i, k), n);
    }
  }

  /** A row below the pivot splits into a multiple of the pivot row and its eliminated remainder. */
  lemma EliminatedRow(m: Matrix, m': Matrix, n: nat, k: nat, i: nat)
    requires Square(m, n) && Square(m', n) && k < i < n && m[k][k] != 0.0
    requires EliminatesColumn(m, m', n, k)
    ensures Tail(m[i], k) == Add(Scale(m'[i][k], Tail(m[k], k)), Tail(m'[i], k + 1))
  {
    var q := m'[i][k];
    assert q == EliminatedEntry(m, n, k, i, k);
    var sum := Add(Scale(q, Tail(m[k], k)), Tail(m'[i], k + 1));
    forall j | 0 <= j < n ensures Tail(m[i], k)[j] == sum[j] {
      assert m'[i][j] == EliminatedEntry(m, n, k, i, j);
    }
  }

  /** Rows up to the pivot and finished columns are left alone. */
  lemma EliminationKeeps(m: Matrix, m': Matrix, n: nat, k: nat)
    requires Square(m, n) && Square(m', n) && k < n && m[k][k] != 0.0
    requires EliminatesColumn(m, m', n, k)
    ensures forall t :: 0 <= t <= k ==> m'[t] == m[t] && Upper(m', n)[t] == Upper(m, n)[t]
    ensures forall i, t :: 0 <= i < n && 0 <= t < k ==> m'[i][t] == m[i][t]
  {
    forall i, t | 0 <= i < n && 0 <= t < n && (t < k || i <= k) ensures m'[i][t] == m[i][t] {
      assert m'[i][t] == EliminatedEntry(m, n, k, i, t);
    }
    forall t | 0 <= t <= k ensures m'[t] == m[t] {
      assert forall j :: 0 <= j < n ==> m'[t][j] == m[t][j];
    }
  }

  lemma EliminatedStep(pa: Matrix, m: Matrix, m': Matrix, n: nat, k: nat)
    requires Eliminated(pa, m, n, k) && Square(m', n) && k < n && m[k][k] != 0.0
    requires EliminatesColumn(m, m', n, k)
    ensures Eliminated(pa, m', n, k + 1)
  {
    EliminationKeeps(m, m', n, k);
    hide EliminatesColumn;
    forall i | 0 <= i < n ensures pa[i] == Rebuilt(m', n, k + 1, i) {
      CombineCongruent(m'[i], Upper(m', n), m[i], Upper(m, n), Bytes.Least(i, k), n);
      if i > k {
        EliminatedRow(m, m', n, k, i);
      }
    }
  }

  /** P A = L U, as the textbook product of the two triangles. */
  lemma EliminatedAtEnd(pa: Matrix, f: Matrix, n: nat)
    requires Eliminated(pa, f, n, n)
    ensures pa == MatMul(UnitLower(f, n), Upper(f, n), n)
  {
    var low, up := UnitLower(f, n), Upper(f, n);
    forall i | 0 <= i < n ensures pa[i] == MatMul(low, up, n)[i] {
      CombineTail(low[i], up, i + 1, n, n);
      CombineCongruent(low[i], up, f[i], up, i, n);
      assert Scale(1.0, up[i]) == up[i];
    }
  }

  /** Rows of a system and right-hand sides interchanged together keep the same solutions. */
  lemma {:induction false} InterchangesKeepSolutions(a: Matrix, b: Vec, piv: seq<int>, k: nat, x: Vec)
    requires |a| == |b| && ValidPivots(piv, |a|, k)
    ensures Solves(a, x, b) <==> Solves(Interchanges(a, piv, k), x, Interchanges(b, piv, k))
  {
    if k > 0 {
      InterchangesKeepSolutions(a, b, piv, k - 1, x);
      InterchangeKeepsSolutions(Interchanges(a, piv, k - 1), Interchanges(b, piv, k - 1), k - 1, piv[k - 1], x);
    }
  }

  lemma InterchangeKeepsSolutions(a: Matrix, b: Vec, s: nat, t: nat, x: Vec)
    requires |a| == |b| && s < |a| && t < |a|
    ensures Solves(a, x, b) <==> Solves(Interchange(a, s, t), x, Interchange(b, s, t))
  {
    InterchangeForward(a, b, s, t, x);
    var a', b' := Interchange(a, s, t), Interchange(b, s, t);
    assert Interchange(a', s, t) == a && Interchange(b', s, t) == b;
    InterchangeForward(a', b', s, t, x);
  }

  lemma InterchangeForward(a: Matrix, b: Vec, s: nat, t: nat, x: Vec)
    requires |a| == |b| && s < |a| && t < |a|
    ensures Solves(a, x, b) ==> Solves(Interchange(a, s, t), x, Interchange(b, s, t))
  {
    if Solves(a, x, b) {
      forall i | 0 <= i < |a| ensures SolvesRow(Interchange(a, s, t), x, Interchange(b, s, t), i) {
        var o := if i == s then t else if i == t then s else i;
        assert SolvesRow(a, x, b, o);
      }
    }
  }

  /** Only the first k recorded interchanges matter. */
  lemma {:induction false} InterchangesCongruent<T>(s: seq<T>, piv: seq<int>, piv': seq<int>, k: nat)
    requires ValidPivots(piv, |s|, k) && ValidPivots(piv', |s|, k)
    requires piv[..k] == piv'[..k]
    ensures Interchanges(s, piv, k) == Interchanges(s, piv', k)
  {
    if k > 0 {
      assert piv[..k - 1] == piv[..k][..k - 1] == piv'[..k][..k - 1] == piv'[..k - 1];
      assert piv[k - 1] == piv[..k][k - 1] == piv'[k - 1];
      InterchangesCongruent(s, piv, piv', k - 1);
    }
  }

  /** The unit lower factor maps nothing but zero to zero (forward substitution). */
  lemma {:induction false} UnitLowerInjective(f: Matrix, n: nat, y: Vec, m: nat)
    requires Square(f, n) && |y| == n && m <= n && Solves(UnitLower(f, n), y, Zeros(n))
    ensures forall i :: 0 <= i < m ==> y[i] == 0.0
  {
    if m > 0 {
      UnitLowerInjective(f, n, y, m - 1);
      var row := UnitLower(f, n)[m - 1];
      DotRangeZero(row, y, 0, m - 1);
      DotRangeZero(row, y, m, n);
      DotRangeSplit(row, y, 0, m - 1, n);
      DotRangeSplit(row, y, m - 1, m, n);
      assert DotRange(row, y, m - 1, m) == row[m - 1] * y[m - 1];
      assert SolvesRow(UnitLower(f, n), y, Zeros(n), m - 1);
    }
  }

  /** With a non-zero diagonal the upper factor maps nothing but zero to zero (back substitution). */
  lemma {:induction false} UpperInjective(f: Matrix, n: nat, x: Vec, m: nat)
    requires Square(f, n) && |x| == n && m <= n && Solves(Upper(f, n), x, Zeros(n)) && PivotsNonZero(f, n, n)
    ensures forall i :: m <= i < n ==> x[i] == 0.0
    decreases n - m
  {
    if m < n {
      UpperInjective(f, n, x, m + 1);
      var row := Upper(f, n)[m];
      DotRangeZero(row, x, 0, m);
      DotRangeZero(row, x, m + 1, n);
      DotRangeSplit(row, x, 0, m, n);
      DotRangeSplit(row, x, m, m + 1, n);
      assert DotRange(row, x, m, m + 1) == f[m][m] * x[m];
      assert SolvesRow(Upper(f, n), x, Zeros(n), m);
    }
  }

  /** What a product matrix does to x is what its left factor does to the image of the right factor. */
  lemma MatMulSolves(low: Matrix, up: Matrix, n: nat, x: Vec, y: Vec, b: Vec)
    requires Square(low, n) && Square(up, n) && |x| == n && |y| == n && |b| == n
    requires Solves(up, x, y)
    ensures Solves(MatMul(low, up, n), x, b) <==> Solves(low, y, b)
  {
    forall t | 0 <= t < n ensures y[t] == Dot(up[t], x) {
      assert SolvesRow(up, x, y, t);
    }
    forall i | 0 <= i < n ensures SolvesRow(MatMul(low, up, n), x, b, i) <==> SolvesRow(low, y, b, i) {
      DotCombine(low[i], up, n, x, y);
    }
  }

  function Image(m: Matrix, x: Vec): Vec
    requires Wide(m, |x|)
  {
    seq(|m|, i requires 0 <= i < |m| => Dot(m[i], x))
  }

  /** A matrix whose pivots are all non-zero is non-singular. */
  lemma FactoredIsNonSingular(a: Matrix, f: Matrix, piv: seq<int>, n: nat)
    requires Square(a, n) && Square(f, n) && ValidPivots(piv, n, n) && PivotsNonZero(f, n, n)
    requires Interchanges(a, piv, n) == MatMul(UnitLower(f, n), Upper(f, n), n)
    ensures NonSingular(a, n)
  {
    forall x: Vec | |x| == n && Solves(a, x, Zeros(n)) ensures x == Zeros(n) {
      InterchangesKeepSolutions(a, Zeros(n), piv, n, x);
      InterchangesOfZeros(n, piv, n);
      var y := Image(Upper(f, n), x);
      MatMulSolves(UnitLower(f, n), Upper(f, n), n, x, y, Zeros(n));
      UnitLowerInjective(f, n, y, n);
      assert y == Zeros(n);
      UpperInjective(f, n, x, 0);
    }
  }

  lemma {:induction false} InterchangesOfZeros(n: nat, piv: seq<int>, k: nat)
    requires ValidPivots(piv, n, k)
    ensures Interchanges(Zeros(n), piv, k) == Zeros(n)
  {
    if k > 0 {
      InterchangesOfZeros(n, piv, k - 1);
    }
  }

  /** The entries that a stuck elimination leaves below the diagonal of column k are all zero. */
  predicate ColumnDead(m: Matrix, n: nat, k: nat)
    requires Square(m, n) && k < n
  {
    forall i :: k <= i < n ==> m[i][k] == 0.0
  }

  /** A row with nothing before entry t meets a vector in that entry and in what lies behind it. */
  lemma PivotSplits(r: Vec, z: Vec, x: Vec, t: nat)
    requires t < |r| == |z| == |x| && forall j :: 0 <= j < t ==> r[j] == 0.0
    requires forall j :: t < j < |r| ==> x[j] == z[j]
    ensures Dot(r, x) == r[t] * x[t] + DotRange(r, z, t + 1, |r|)
  {
    var n := |r|;
    DotRangeSingle(r, x, t);
    hide DotRange;
    DotRangeZero(r, x, 0, t);
    DotRangeSplit(r, x, 0, t, n);
    DotRangeSplit(r, x, t, t + 1, n);
    DotRangeCongruent(r, x, r, z, t + 1, n);
  }

  lemma Quotient(p: real, s: real) returns (q: real)
    requires p != 0.0
    ensures p * q == s
  {
    q := s / p;
  }

  /** Back substitution through the first t rows of the upper factor, from x[k] = 1. */
  lemma {:induction false} NullVector(m: Matrix, n: nat, k: nat, t: nat) returns (x: Vec)
    requires Square(m, n) && t <= k < n && PivotsNonZero(m, n, k)
    ensures |x| == n && x[k] == 1.0 && forall j :: k < j < n ==> x[j] == 0.0
    ensures forall i :: t <= i < k ==> Dot(Upper(m, n)[i], x) == 0.0
    decreases k - t
  {
    if t == k {
      x := Zeros(n)[k := 1.0];
    } else {
      var z := NullVector(m, n, k, t + 1);
      var row := Upper(m, n)[t];
      var q := Quotient(row[t], -DotRange(row, z, t + 1, n));
      x := z[t := q];
      forall i | t <= i < k ensures Dot(Upper(m, n)[i], x) == 0.0 {
        var r := Upper(m, n)[i];
        if i == t {
          PivotSplits(r, z, x, t);
        } else {
          DotRangeCongruent(r, x, r, z, 0, n);
        }
      }
    }
  }

  lemma NullVectorRow(m: Matrix, n: nat, k: nat, i: nat, x: Vec)
    requires Square(m, n) && k < n && i < n && ColumnDead(m, n, k) && |x| == n
    requires forall j :: k < j < n ==> x[j] == 0.0
    requires forall t :: 0 <= t < k ==> Dot(Upper(m, n)[t], x) == 0.0
    ensures Dot(Rebuilt(m, n, k, i), x) == 0.0
  {
    var c := Bytes.Least(i, k);
    var head, tail := Combine(m[i], Upper(m, n), c, n), Tail(m[i], c);
    var image := Image(Upper(m, n), x);
    DotCombine(m[i], Upper(m, n), c, x, image);
    DotRangeZero(m[i], image, 0, c);
    DotRangeAdd(head, tail, x, n);
    if i < k {
      assert tail == Upper(m, n)[i];
    } else {
      DotRangeZero(tail, x, 0, n);
    }
  }

  /** A column that is dead from the diagonal down makes the matrix singular. */
  lemma DeadColumnIsSingular(a: Matrix, pa: Matrix, m: Matrix, piv: seq<int>, n: nat, k: nat)
    requires Square(a, n) && k < n && ValidPivots(piv, n, k + 1) && pa == Interchanges(a, piv, k + 1)
    requires Eliminated(pa, m, n, k) && PivotsNonZero(m, n, k) && ColumnDead(m, n, k)
    ensures !NonSingular(a, n)
  {
    var x := NullVector(m, n, k, 0);
    forall i | 0 <= i < n ensures SolvesRow(pa, x, Zeros(n), i) {
      NullVectorRow(m, n, k, i, x);
    }
    InterchangesKeepSolutions(a, Zeros(n), piv, k + 1, x);
    InterchangesOfZeros(n, piv, k + 1);
    assert Solves(a, x, Zeros(n)) && x != Zeros(n) by {
      assert x[k] != Zeros(n)[k];
    }
  }

  ghost function Rows(a: array2<real>): Matrix
    reads a
    ensures |Rows(a)| == a.Length0 && Wide(Rows(a), a.Length1)
  {
    seq(a.Length0, i requires 0 <= i < a.Length0 reads a =>
      seq(a.Length1, j requires 0 <= j < a.Length1 reads a => a[i, j]))
  }

  /** First row at or below k with the largest magnitude in column k. */
  method PivotRow(a: array2<real>, n: nat, k: nat) returns (imax: nat)
    requires a.Length0 == n && a.Length1 == n && k < n
    ensures k <= imax < n
    ensures forall i :: k <= i < n ==> Abs(a[i, k]) <= Abs(a[imax, k])
    ensures forall i :: k <= i < imax ==> Abs(a[i, k]) < Abs(a[imax, k])
  {
    imax := k;
    var amax := Abs(a[k, k]);
    for i := k + 1 to n
      invariant k <= imax < i
      invariant amax == Abs(a[imax, k])
      invariant forall r :: k <= r < i ==> Abs(a[r, k]) <= amax
      invariant forall r :: k <= r < imax ==> Abs(a[r, k]) < amax
    {
      var v := Abs(a[i, k]);
      if v > amax {
        amax, imax := v, i;
      }
    }
  }

  method SwapRows(a: array2<real>, n: nat, k: nat, p: nat)
    requires a.Length0 == n && a.Length1 == n && k < n && p < n
    modifies a
    ensures Rows(a) == Interchange(old(Rows(a)), k, p)
  {
    for j := 0 to n
      invariant forall c :: 0 <= c < j ==> a[k, c] == old(a[p, c]) && a[p, c] == old(a[k, c])
      invariant forall r, c :: 0 <= r < n && 0 <= c < n && ((r != k && r != p) || j <= c) ==> a[r, c] == old(a[r, c])
    {
      a[k, j], a[p, j] := a[p, j], a[k, j];
    }
    forall r, c | 0 <= r < n && 0 <= c < n ensures Rows(a)[r][c] == Interchange(old(Rows(a)), k, p)[r][c] {
      assert old(Rows(a))[r][c] == old(a[r, c]);
    }
    assert Wide(Rows(a), n) && forall r :: 0 <= r < n ==> Rows(a)[r] == Interchange(old(Rows(a)), k, p)[r];
  }

  /** Divides the column below the pivot and subtracts the multiples of the pivot row. */
  method EliminateBelow(a: array2<real>, n: nat, k: nat)
    requires a.Length0 == n && a.Length1 == n && k < n && a[k, k] != 0.0
    modifies a
    ensures EliminatesColumn(old(Rows(a)), Rows(a), n, k)
  {
    ghost var m := Rows(a);
    var pivot := a[k, k];
    for i := k + 1 to n
      invariant a[k, k] == pivot
      invariant forall r, c :: 0 <= r < n && 0 <= c < n ==>
        a[r, c] == if k < r < i && c == k then EliminatedEntry(m, n, k, r, c) else m[r][c]
    {
      a[i, k] := a[i, k] / pivot;
    }
    for i := k + 1 to n
      invariant forall r, c :: 0 <= r < n && 0 <= c < n ==>
        a[r, c] == if r < i || c <= k then EliminatedEntry(m, n, k, r, c) else m[r][c]
    {
      var aik := a[i, k];
      for j := k + 1 to n
        invariant a[i, k] == aik
        invariant forall r, c :: 0 <= r < n && 0 <= c < n ==>
          a[r, c] == if r < i || c <= k || (r == i && c < j) then EliminatedEntry(m, n, k, r, c) else m[r][c]
      {
        assert aik == EliminatedEntry(m, n, k, i, k) && a[k, j] == EliminatedEntry(m, n, k, k, j);
        a[i, j] := a[i, j] - aik * a[k, j];
      }
    }
    forall r, c | 0 <= r < n && 0 <= c < n ensures Rows(a)[r][c] == EliminatedEntry(m, n, k, r, c) {
      assert Rows(a)[r][c] == a[r, c];
    }
  }

  /** The permuted input after the first k stages. */
  ghost predicate StageInvariant(a0: Matrix, m: Matrix, piv: seq<int>, n: nat, k: nat) {
    && Square(a0, n) && ValidPivots(piv, n, k)
    && Eliminated(Interchanges(a0, piv, k), m, n, k)
    && UnitMultipliers(m, n, k) && PivotsNonZero(m, n, k)
  }

  lemma StageSwap(a0: Matrix, m: Matrix, piv: seq<int>, piv': seq<int>, n: nat, k: nat)
    requires StageInvariant(a0, m, piv, n, k) && k < n
    requires ValidPivots(piv', n, k + 1) && piv'[..k] == piv[..k]
    ensures var m' := Interchange(m, k, piv'[k]);
      && Eliminated(Interchanges(a0, piv', k + 1), m', n, k)
      && UnitMultipliers(m', n, k) && PivotsNonZero(m', n, k)
  {
    InterchangesCongruent(a0, piv, piv', k);
    EliminatedInterchange(Interchanges(a0, piv, k), m, n, k, piv'[k]);
    var m' := Interchange(m, k, piv'[k]);
    forall i, j | 0 <= j < i < n && j < k ensures Abs(m'[i][j]) <= 1.0 {
      var o := if i == k then piv'[k] else if i == piv'[k] then k else i;
      assert m'[i] == m[o] && j < o;
    }
  }

  lemma StageEliminate(a0: Matrix, m: Matrix, m': Matrix, piv: seq<int>, n: nat, k: nat)
    requires Square(a0, n) && k < n && ValidPivots(piv, n, k + 1)
    requires Eliminated(Interchanges(a0, piv, k + 1), m, n, k) && UnitMultipliers(m, n, k) && PivotsNonZero(m, n, k)
    requires m[k][k] != 0.0 && forall i :: k <= i < n ==> Abs(m[i][k]) <= Abs(m[k][k])
    requires Square(m', n) && EliminatesColumn(m, m', n, k)
    ensures StageInvariant(a0, m', piv, n, k + 1)
  {
    EliminatedStep(Interchanges(a0, piv, k + 1), m, m', n, k);
    forall i, j | 0 <= j < i < n && j < k + 1 ensures Abs(m'[i][j]) <= 1.0 {
      assert m'[i][j] == EliminatedEntry(m, n, k, i, j);
      if j == k {
        QuotientAtMostOne(m[i][k], m[k][k]);
      }
    }
    forall t | 0 <= t < k + 1 ensures m'[t][t] != 0.0 {
      assert m'[t][t] == EliminatedEntry(m, n, k, t, t);
    }
  }

  lemma ProductGrows(q: real, p: real)
    ensures q > 1.0 && p > 0.0 ==> q * p > p
  {
    assert q * p - p == (q - 1.0) * p;
  }

  lemma QuotientAtMostOne(x: real, p: real)
    requires p != 0.0 && Abs(x) <= Abs(p)
    ensures Abs(x / p) <= 1.0
  {
    var q := x / p;
    assert q * p == x && q * -p == -x && -q * p == -x && -q * -p == x;
    ProductGrows(q, p);
    ProductGrows(-q, p);
    ProductGrows(q, -p);
    ProductGrows(-q, -p);
  }

  /** Stage k of the factorisation; it stops when the best pivot of column k is zero. */
  method Stage(a: array2<real>, n: nat, k: nat, ipiv: array<int>, ghost a0: Matrix) returns (ok: bool)
    requires a.Length0 == n && a.Length1 == n && ipiv.Length == n && k < n
    requires StageInvariant(a0, Rows(a), ipiv[..], n, k)
    modifies a, ipiv
    ensures ok ==> StageInvariant(a0, Rows(a), ipiv[..], n, k + 1)
    ensures !ok ==> !NonSingular(a0, n)
  {
    hide Eliminated, UnitMultipliers, PivotsNonZero, EliminatesColumn, Interchanges, NonSingular;
    var imax := PivotRow(a, n, k);
    ghost var m, piv := Rows(a), ipiv[..];
    assert forall i :: k <= i < n ==> Abs(m[i][k]) <= Abs(m[imax][k]);
    ipiv[k] := imax;
    StageSwap(a0, m, piv, ipiv[..], n, k);
    if imax != k {
      SwapRows(a, n, k, imax);
    }
    ghost var m' := Rows(a);
    assert m' == Interchange(m, k, imax);
    assert m'[k][k] == a[k, k];
    if a[k, k] == 0.0 {
      DeadColumnIsSingular(a0, Interchanges(a0, ipiv[..], k + 1), m', ipiv[..], n, k);
      return false;
    }
    EliminateBelow(a, n, k);
    StageEliminate(a0, m', Rows(a), ipiv[..], n, k);
    ok := true;
  }

  /** lu_factor: overwrites A with L\U and records the interchanges. */
  method Factor(a: array2<real>, n: nat, ipiv: array<int>) returns (ok: bool)
    requires a.Length0 == n && a.Length1 == n && ipiv.Length == n
    modifies a, ipiv
    ensures ok <==> NonSingular(old(Rows(a)), n)
    ensures ok ==> ValidPivots(ipiv[..], n, n) && PivotsNonZero(Rows(a), n, n) && UnitMultipliers(Rows(a), n, n)
    ensures ok ==>
      Interchanges(old(Rows(a)), ipiv[..], n) == MatMul(UnitLower(Rows(a), n), Upper(Rows(a), n), n)
  {
    ghost var a0 := Rows(a);
    EliminatedAtStart(a0, n);
    for k := 0 to n
      invariant StageInvariant(a0, Rows(a), ipiv[..], n, k)
    {
      ok := Stage(a, n, k, ipiv, a0);
      if !ok {
        return;
      }
    }
    ok := true;
    EliminatedAtEnd(Interchanges(a0, ipiv[..], n), Rows(a), n);
    FactoredIsNonSingular(a0, Rows(a), ipiv[..], n);
  }
}
