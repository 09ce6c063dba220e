/** Linear algebra over exact reals, column by column: what a system of equations
    means, and how one elimination step or one substitution step changes it.
    Nothing here knows how a matrix is laid out in memory. */
module LinearSystem {
  type Vec = seq<real>

  /** A list of columns, column j holding the entries (0, j), (1, j), ... */
  type Matrix = seq<Vec>

  ghost predicate Square(m: Matrix, n: nat) {
    |m| == n && forall j :: 0 <= j < n ==> |m[j]| == n
  }

  // ---------------------------------------------------------------- meaning

  /** The first c terms of row i of the product m * x. */
  ghost function RowSum(m: Matrix, x: Vec, i: nat, c: nat): real
    requires c <= |m| && c <= |x|
    requires forall j :: 0 <= j < c ==> i < |m[j]|
  {
    if c == 0 then 0.0 else RowSum(m, x, i, c - 1) + m[c - 1][i] * x[c - 1]
  }

  /** m * x == b, equation by equation. */
  ghost predicate Solves(m: Matrix, x: Vec, b: Vec) {
    && Square(m, |b|)
    && |x| == |b|
    && forall i :: 0 <= i < |b| ==> RowSum(m, x, i, |b|) == b[i]
  }

  /** Only the zero vector is mapped to zero. */
  ghost predicate NonSingular(m: Matrix, n: nat) {
    forall x: Vec :: Solves(m, x, Zeros(n)) ==> x == Zeros(n)
  }

  ghost function Zeros(n: nat): (z: Vec)
    ensures |z| == n && forall i :: 0 <= i < n ==> z[i] == 0.0
  {
    seq(n, i => 0.0)
  }

  ghost function AddScaled(u: Vec, t: real, v: Vec): (r: Vec)
    requires |u| == |v|
    ensures |r| == |u| && forall i :: 0 <= i < |u| ==> r[i] == u[i] + v[i] * t
  {
    seq(|u|, i requires 0 <= i < |u| => u[i] + v[i] * t)
  }

  /** x[0] * column 0 + ... + x[c-1] * column c-1. */
  ghost function Combine(m: Matrix, x: Vec, c: nat, n: nat): (r: Vec)
    requires Square(m, n) && c <= n == |x|
    ensures |r| == n
  {
    if c == 0 then Zeros(n) else AddScaled(Combine(m, x, c - 1, n), x[c - 1], m[c - 1])
  }

  lemma {:induction false} CombineIsRowSum(m: Matrix, x: Vec, c: nat, n: nat, i: nat)
    requires Square(m, n) && c <= n == |x| && i < n
    ensures Combine(m, x, c, n)[i] == RowSum(m, x, i, c)
  {
    if c > 0 {
      CombineIsRowSum(m, x, c - 1, n, i);
    }
  }

  /** The row-by-row and the column-by-column reading of m * x == b agree. */
  lemma SolvesByColumns(m: Matrix, x: Vec, b: Vec)
    requires Square(m, |b|) && |x| == |b|
    ensures Solves(m, x, b) <==> Combine(m, x, |b|, |b|) == b
  {
    forall i | 0 <= i < |b| ensures Combine(m, x, |b|, |b|)[i] == RowSum(m, x, i, |b|) {
      CombineIsRowSum(m, x, |b|, |b|, i);
    }
  }

  // ------------------------------------------------------- elimination step

  function Swap(v: Vec, k: nat, l: nat): (r: Vec)
    requires k < |v| && l < |v|
    ensures |r| == |v| && r[k] == v[l] && r[l] == v[k]
    ensures forall i :: 0 <= i < |v| && i != k && i != l ==> r[i] == v[i]
  {
    v[k := v[l]][l := v[k]]
  }

  /** Interchange rows k and l of v, then add mult[i] times row k to every row i
      below k. This is the one row operation that factorisation applies to each
      later column and that solving replays on the right hand side. */
  function Eliminate(v: Vec, k: nat, l: nat, mult: Vec): (r: Vec)
    requires k < |v| && l < |v| && |mult| == |v|
    ensures |r| == |v|
  {
    seq(|v|, i requires 0 <= i < |v| => EliminateEntry(Swap(v, k, l), k, mult, i))
  }

  function EliminateEntry(w: Vec, k: nat, mult: Vec, i: nat): real
    requires k < |w| == |mult| && i < |w|
  {
    if i <= k then w[i] else w[i] + w[k] * mult[i]
  }

  lemma EliminateIsLinear(u: Vec, t: real, v: Vec, k: nat, l: nat, mult: Vec)
    requires |u| == |v| == |mult| && k < |v| && l < |v|
    ensures Eliminate(AddScaled(u, t, v), k, l, mult)
         == AddScaled(Eliminate(u, k, l, mult), t, Eliminate(v, k, l, mult))
  {
    hide EliminateEntry;
    var s := AddScaled(u, t, v);
    var wu, wv, ws := Swap(u, k, l), Swap(v, k, l), Swap(s, k, l);
    forall i | 0 <= i < |u|
      ensures Eliminate(s, k, l, mult)[i]
           == AddScaled(Eliminate(u, k, l, mult), t, Eliminate(v, k, l, mult))[i]
    {
      EntryIsLinear(wu, t, wv, ws, k, mult, i);
    }
  }

  lemma EntryIsLinear(u: Vec, t: real, v: Vec, w: Vec, k: nat, mult: Vec, i: nat)
    requires |u| == |v| == |w| == |mult| && k < |u| && i < |u|
    requires w[i] == u[i] + v[i] * t && w[k] == u[k] + v[k] * t
    ensures EliminateEntry(w, k, mult, i) == EliminateEntry(u, k, mult, i) + EliminateEntry(v, k, mult, i) * t
  {
    if i > k {
      Distribute(u[i], v[i], u[k], v[k], t, mult[i]);
    }
  }

  lemma Distribute(ui: real, vi: real, uk: real, vk: real, t: real, m: real)
    ensures (ui + vi * t) + (uk + vk * t) * m == (ui + uk * m) + (vi + vk * m) * t
  {
    assert (uk + vk * t) * m == uk * m + vk * m * t;
    assert (vi + vk * m) * t == vi * t + vk * m * t;
  }

  /** The operation loses nothing: equal images come from equal vectors. */
  lemma EliminateIsInjective(u: Vec, v: Vec, k: nat, l: nat, mult: Vec)
    requires |u| == |v| == |mult| && k < |v| && l < |v|
    requires Eliminate(u, k, l, mult) == Eliminate(v, k, l, mult)
    ensures u == v
  {
    var wu, wv := Swap(u, k, l), Swap(v, k, l);
    var eu, ev := Eliminate(u, k, l, mult), Eliminate(v, k, l, mult);
    assert wu[k] == eu[k] == ev[k] == wv[k];
    forall i | 0 <= i < |u| ensures wu[i] == wv[i] {
      assert eu[i] == ev[i];
    }
    forall i | 0 <= i < |u| ensures u[i] == v[i] {
      assert wu[i] == wv[i] && wu[l] == wv[l];
    }
  }

  lemma EliminateFixes(v: Vec, k: nat, l: nat, mult: Vec)
    requires |v| == |mult| && k < |v| && l < |v|
    requires v[k] == v[l] == 0.0
    ensures Eliminate(v, k, l, mult) == v
  {
    var w := Swap(v, k, l);
    assert w == v;
    forall i | 0 <= i < |v| ensures Eliminate(v, k, l, mult)[i] == v[i] {
      assert w[k] * mult[i] == 0.0;
    }
  }

  ghost function EliminateAll(m: Matrix, k: nat, l: nat, mult: Vec): (r: Matrix)
    requires Square(m, |mult|) && k < |mult| && l < |mult|
    ensures Square(r, |mult|)
  {
    seq(|m|, j requires 0 <= j < |m| => Eliminate(m[j], k, l, mult))
  }

  lemma {:induction false} EliminateCombine(m: Matrix, x: Vec, c: nat, k: nat, l: nat, mult: Vec)
    requires Square(m, |mult|) && c <= |x| == |mult| && k < |mult| && l < |mult|
    ensures Combine(EliminateAll(m, k, l, mult), x, c, |mult|)
         == Eliminate(Combine(m, x, c, |mult|), k, l, mult)
  {
    if c == 0 {
      EliminateFixes(Zeros(|mult|), k, l, mult);
    } else {
      EliminateCombine(m, x, c - 1, k, l, mult);
      EliminateIsLinear(Combine(m, x, c - 1, |mult|), x[c - 1], m[c - 1], k, l, mult);
    }
  }

  /** Applying the row operation to every column and to the right hand side keeps
      the solution set exactly. */
  lemma EliminateKeepsSolutions(m: Matrix, x: Vec, b: Vec, k: nat, l: nat, mult: Vec)
    requires Square(m, |b|) && |x| == |b| == |mult| && k < |b| && l < |b|
    ensures Solves(m, x, b) <==> Solves(EliminateAll(m, k, l, mult), x, Eliminate(b, k, l, mult))
  {
    var n := |b|;
    SolvesByColumns(m, x, b);
    SolvesByColumns(EliminateAll(m, k, l, mult), x, Eliminate(b, k, l, mult));
    EliminateCombine(m, x, n, k, l, mult);
    if Combine(EliminateAll(m, k, l, mult), x, n, n) == Eliminate(b, k, l, mult) {
      EliminateIsInjective(Combine(m, x, n, n), b, k, l, mult);
    }
  }

  // ------------------------------------------------------- back substitution

  /** Column j with everything below the diagonal read as zero. */
  ghost function UpperPart(v: Vec, j: nat): (r: Vec)
    ensures |r| == |v|
    ensures forall i :: 0 <= i < |v| ==> r[i] == if i <= j then v[i] else 0.0
  {
    seq(|v|, i requires 0 <= i < |v| => if i <= j then v[i] else 0.0)
  }

  ghost function Upper(m: Matrix): (r: Matrix)
    ensures |r| == |m| && forall j :: 0 <= j < |m| ==> r[j] == UpperPart(m[j], j)
  {
    seq(|m|, j requires 0 <= j < |m| => UpperPart(m[j], j))
  }

  ghost predicate DiagonalNonzero(m: Matrix, c: nat)
    requires c <= |m| && forall j :: 0 <= j < c ==> j < |m[j]|
  {
    forall j :: 0 <= j < c ==> m[j][j] != 0.0
  }

  /** Divide entry k by the diagonal and take that multiple of column u away from
      the entries above. */
  function Substitute(u: Vec, y: Vec, k: nat): (r: Vec)
    requires |u| == |y| && k < |u| && u[k] != 0.0
    ensures |r| == |y|
  {
    var q := y[k] / u[k];
    seq(|y|, i requires 0 <= i < |y| => if i < k then y[i] - u[i] * q else if i == k then q else y[i])
  }

  function BackSolve(m: Matrix, y: Vec, c: nat): (r: Vec)
    requires c <= |m| == |y| && forall j :: 0 <= j < c ==> |m[j]| == |y|
    requires forall j :: 0 <= j < c ==> m[j][j] != 0.0
    ensures |r| == |y|
    ensures forall i :: c <= i < |y| ==> r[i] == y[i]
    decreases c
  {
    if c == 0 then y else BackSolve(m, Substitute(m[c - 1], y, c - 1), c - 1)
  }

  /** Row i of the first c columns of the upper triangle, times x, equals y[i] for
      the rows above c. */
  ghost predicate SolvesTop(m: Matrix, x: Vec, y: Vec, c: nat)
    requires Square(m, |y|) && |x| == |y| && c <= |y|
  {
    forall i :: 0 <= i < c ==> RowSum(Upper(m), x, i, c) == y[i]
  }

  lemma {:induction false} RowBelowIsZero(m: Matrix, x: Vec, i: nat, c: nat)
    requires Square(m, |x|) && c <= i < |x|
    ensures RowSum(Upper(m), x, i, c) == 0.0
  {
    if c > 0 {
      RowBelowIsZero(m, x, i, c - 1);
      assert Upper(m)[c - 1][i] == 0.0;
    }
  }

  lemma LastRow(m: Matrix, x: Vec, y: Vec, c: nat)
    requires Square(m, |y|) && |x| == |y| && 0 < c <= |y| && m[c - 1][c - 1] != 0.0
    ensures RowSum(Upper(m), x, c - 1, c) == y[c - 1] <==> x[c - 1] == y[c - 1] / m[c - 1][c - 1]
  {
    RowBelowIsZero(m, x, c - 1, c - 1);
    Quotient(m[c - 1][c - 1], x[c - 1], y[c - 1]);
  }

  /** One substitution step: the last of c unknowns is the quotient, and the other
      c - 1 unknowns solve the reduced system. */
  lemma SubstituteStep(m: Matrix, x: Vec, y: Vec, c: nat)
    requires Square(m, |y|) && |x| == |y| && 0 < c <= |y| && m[c - 1][c - 1] != 0.0
    ensures SolvesTop(m, x, y, c)
       <==> x[c - 1] == y[c - 1] / m[c - 1][c - 1]
            && SolvesTop(m, x, Substitute(m[c - 1], y, c - 1), c - 1)
  {
    LastRow(m, x, y, c);
    var k, u := c - 1, m[c - 1];
    if x[k] == y[k] / u[k] {
      var r := Substitute(u, y, k);
      forall i | 0 <= i < k
        ensures RowSum(Upper(m), x, i, c) == y[i] <==> RowSum(Upper(m), x, i, k) == r[i]
      {
        assert Upper(m)[k][i] == u[i];
        assert r[i] == y[i] - u[i] * x[k];
      }
      assert SolvesTop(m, x, y, c) <==> SolvesTop(m, x, r, k);
    } else {
      assert !SolvesTop(m, x, y, c);
    }
  }

  lemma Quotient(d: real, x: real, y: real)
    requires d != 0.0
    ensures d * x == y <==> x == y / d
  {
    assert d * (y / d) == y;
    if d * x == y {
      assert d * (x - y / d) == 0.0;
    }
  }

  /** BackSolve finds the one vector that solves the triangular system. */
  lemma {:induction false} BackSolveCorrect(m: Matrix, y: Vec, c: nat, z: Vec)
    requires Square(m, |y|) && |z| == |y| && c <= |y| && DiagonalNonzero(m, c)
    ensures SolvesTop(m, BackSolve(m, y, c), y, c)
    ensures SolvesTop(m, z, y, c) ==> forall i :: 0 <= i < c ==> z[i] == BackSolve(m, y, c)[i]
    decreases c
  {
    if c > 0 {
      var r := Substitute(m[c - 1], y, c - 1);
      BackSolveCorrect(m, r, c - 1, z);
      var x := BackSolve(m, y, c);
      assert x[c - 1] == r[c - 1];
      SubstituteStep(m, x, y, c);
      SubstituteStep(m, z, y, c);
    }
  }

  /** With a nonzero diagonal, the triangular system has exactly the solution that
      BackSolve computes. */
  lemma TriangularUniqueSolution(m: Matrix, y: Vec, x: Vec)
    requires Square(m, |y|) && |x| == |y| && DiagonalNonzero(m, |y|)
    ensures Solves(Upper(m), x, y) <==> x == BackSolve(m, y, |y|)
  {
    BackSolveCorrect(m, y, |y|, x);
  }

  // ------------------------------------------------ zero on the diagonal

  lemma {:induction false} RowSumPadded(m: Matrix, x: Vec, i: nat, c: nat, d: nat)
    requires Square(m, |x|) && i < |x| && c <= d <= |x|
    requires forall j :: c <= j < d ==> x[j] == 0.0
    ensures RowSum(m, x, i, d) == RowSum(m, x, i, c)
    decreases d
  {
    if c < d {
      RowSumPadded(m, x, i, c, d - 1);
      assert m[d - 1][i] * x[d - 1] == 0.0;
    }
  }

  lemma {:induction false} RowSumAgrees(m: Matrix, x: Vec, z: Vec, i: nat, c: nat)
    requires c <= |m| && c <= |x| && c <= |z| && forall j :: 0 <= j < c ==> i < |m[j]|
    requires forall j :: 0 <= j < c ==> x[j] == z[j]
    ensures RowSum(m, x, i, c) == RowSum(m, z, i, c)
  {
    if c > 0 {
      RowSumAgrees(m, x, z, i, c - 1);
    }
  }

  /** A nonzero vector that an upper triangle with a zero diagonal entry maps to
      zero. */
  lemma KernelVector(m: Matrix, n: nat, k: nat) returns (x: Vec)
    requires Square(m, n) && k < n && m[k][k] == 0.0 && DiagonalNonzero(m, k)
    ensures Solves(Upper(m), x, Zeros(n)) && x != Zeros(n)
  {
    var y: Vec := seq(n, i requires 0 <= i < n => if i < k then -m[k][i] else 0.0);
    var top := BackSolve(m, y, k);
    BackSolveCorrect(m, y, k, top);
    x := seq(n, i requires 0 <= i < n => if i < k then top[i] else if i == k then 1.0 else 0.0);
    assert x[k] == 1.0;
    forall i | 0 <= i < n ensures RowSum(Upper(m), x, i, n) == 0.0 {
      RowSumPadded(Upper(m), x, i, k + 1, n);
      RowSumAgrees(Upper(m), x, top, i, k);
      if i >= k {
        RowBelowIsZero(m, x, i, k);
      }
    }
  }

  lemma ZeroSolves(m: Matrix, n: nat)
    requires Square(m, n)
    ensures Solves(m, Zeros(n), Zeros(n))
  {
    forall i | 0 <= i < n ensures RowSum(m, Zeros(n), i, n) == 0.0 {
      RowSumPadded(m, Zeros(n), i, 0, n);
    }
  }

  ghost function FirstZero(m: Matrix, n: nat, k: nat): (r: nat)
    requires Square(m, n) && k < n && m[k][k] == 0.0
    ensures r <= k && m[r][r] == 0.0 && DiagonalNonzero(m, r)
    decreases k
  {
    if DiagonalNonzero(m, k) then k
    else
      var j :| 0 <= j < k && m[j][j] == 0.0;
      FirstZero(m, n, j)
  }

  /** An upper triangle is nonsingular exactly when no diagonal entry is zero. */
  lemma TriangularNonSingular(m: Matrix, n: nat)
    requires Square(m, n)
    ensures NonSingular(Upper(m), n) <==> DiagonalNonzero(m, n)
  {
    if DiagonalNonzero(m, n) {
      ZeroSolves(Upper(m), n);
      forall x: Vec | Solves(Upper(m), x, Zeros(n)) ensures x == Zeros(n) {
        TriangularUniqueSolution(m, Zeros(n), x);
        TriangularUniqueSolution(m, Zeros(n), Zeros(n));
      }
    } else {
      var k :| 0 <= k < n && m[k][k] == 0.0;
      var x := KernelVector(m, n, FirstZero(m, n, k));
    }
  }

  /** 1 at c and -1 at d. */
  ghost function Difference(n: nat, c: nat, d: nat): (x: Vec)
    requires c < d < n
    ensures |x| == n && x[c] == 1.0 && x[d] == -1.0
    ensures forall i :: 0 <= i < n && i != c && i != d ==> x[i] == 0.0
  {
    seq(n, i requires 0 <= i < n => if i == c then 1.0 else if i == d then -1.0 else 0.0)
  }

  lemma {:induction false} RowSumOfDifference(m: Matrix, n: nat, c: nat, d: nat, i: nat, k: nat)
    requires Square(m, n) && c < d < n && i < n && k <= n
    ensures RowSum(m, Difference(n, c, d), i, k)
         == (if c < k then m[c][i] else 0.0) - (if d < k then m[d][i] else 0.0)
  {
    if k > 0 {
      RowSumOfDifference(m, n, c, d, i, k - 1);
    }
  }

  /** A matrix with two equal columns is singular. */
  lemma EqualColumnsSingular(m: Matrix, n: nat, c: nat, d: nat)
    requires Square(m, n) && c < d < n && m[c] == m[d]
    ensures !NonSingular(m, n)
  {
    var x := Difference(n, c, d);
    forall i | 0 <= i < n ensures RowSum(m, x, i, n) == 0.0 {
      RowSumOfDifference(m, n, c, d, i, n);
    }
    assert x != Zeros(n) by {
      assert x[c] != Zeros(n)[c];
    }
    assert Solves(m, x, Zeros(n));
  }
}
