/** Gaussian elimination with partial pivoting as a function on columns, and what it
    guarantees: the solution set, the bound on growth, and what `info` says. */
module Factorisation {
  import opened Basics
  import opened LinearSystem

  /** The first position at or after k where |v[.]| is largest. */
  ghost predicate IsPivot(v: Vec, k: nat, l: nat) {
    && k <= l < |v|
    && (forall i :: k <= i < |v| ==> Abs(v[i]) <= Abs(v[l]))
    && (forall i :: k <= i < l ==> Abs(v[i]) < Abs(v[l]))
  }

  function PivotRow(v: Vec, k: nat): (l: nat)
    requires k < |v|
    ensures k <= l < |v|
    decreases |v| - k
  {
    if k + 1 == |v| then k
    else
      var l := PivotRow(v, k + 1);
      if Abs(v[l]) > Abs(v[k]) then l else k
  }

  lemma {:induction false} PivotRowIsPivot(v: Vec, k: nat)
    requires k < |v|
    ensures IsPivot(v, k, PivotRow(v, k))
    decreases |v| - k
  {
    if k + 1 < |v| {
      PivotRowIsPivot(v, k + 1);
    }
  }

  lemma PivotIsUnique(v: Vec, k: nat, l: nat)
    requires IsPivot(v, k, l)
    ensures l == PivotRow(v, k)
  {
    PivotRowIsPivot(v, k);
  }

  /** What the row with entry x is to be combined with to remove it, below pivot d. */
  function Multiplier(d: real, x: real): real
    requires d != 0.0
  {
    (-1.0 / d) * x
  }

  /** Column k after its pivot step: pivot on the diagonal, multipliers below. */
  function Multipliers(v: Vec, k: nat, l: nat): (r: Vec)
    requires k < |v| && l < |v|
    ensures |r| == |v|
  {
    if v[l] == 0.0 then v
    else
      var w := Swap(v, k, l);
      seq(|v|, i requires 0 <= i < |v| => if i <= k then w[i] else Multiplier(w[k], w[i]))
  }

  /** Step k: pivot column k, then apply the row operation to every later column.
      A zero pivot leaves everything as it is. */
  function Step(m: Matrix, k: nat): (r: Matrix)
    requires k < |m| && forall j :: 0 <= j < |m| ==> |m[j]| == |m|
    ensures Square(r, |m|)
  {
    seq(|m|, j requires 0 <= j < |m| => StepColumn(m[k], m[j], k, j))
  }

  /** What step k with pivot column p makes of column v at index j. */
  function StepColumn(p: Vec, v: Vec, k: nat, j: nat): (r: Vec)
    requires k < |p| == |v| && (j == k ==> v == p)
    ensures |r| == |v| && (j < k ==> r == v)
  {
    var l := PivotRow(p, k);
    if j < k || p[l] == 0.0 then v
    else if j == k then Multipliers(p, k, l)
    else Eliminate(v, k, l, Multipliers(p, k, l))
  }

  /** The matrix after steps 0 .. k-1. */
  function Stage(m: Matrix, k: nat): (r: Matrix)
    requires k <= |m| && forall j :: 0 <= j < |m| ==> |m[j]| == |m|
    ensures Square(r, |m|)
  {
    if k == 0 then m else Step(Stage(m, k - 1), k - 1)
  }

  /** The row interchanged with row k in step k. */
  function Pivot(m: Matrix, k: nat): (l: nat)
    requires k < |m| && forall j :: 0 <= j < |m| ==> |m[j]| == |m|
    ensures k <= l < |m|
  {
    PivotRow(Stage(m, k)[k], k)
  }

  /** What dgefa leaves in the array: all but the last column have been pivoted. */
  function Factored(m: Matrix): (r: Matrix)
    requires |m| > 0 && forall j :: 0 <= j < |m| ==> |m[j]| == |m|
    ensures Square(r, |m|)
  {
    Stage(m, |m| - 1)
  }

  /** Replay steps 0 .. k-1 on a right hand side, reading the multipliers from f. */
  function Forward(f: Matrix, p: seq<nat>, b: Vec, k: nat): (r: Vec)
    requires k <= |f| && k <= |p| && |b| == |f|
    requires forall j :: 0 <= j < |f| ==> |f[j]| == |f|
    requires forall j :: 0 <= j < k ==> p[j] < |f|
    ensures |r| == |b|
  {
    if k == 0 then b else Eliminate(Forward(f, p, b, k - 1), k - 1, p[k - 1], f[k - 1])
  }

  function Pivots(m: Matrix, k: nat): (p: seq<nat>)
    requires k <= |m| && forall j :: 0 <= j < |m| ==> |m[j]| == |m|
    ensures |p| == k && forall j {:trigger p[j]} :: 0 <= j < k ==> p[j] == Pivot(m, j) && p[j] < |m|
  {
    seq(k, j requires 0 <= j < k => Pivot(m, j))
  }

  // ------------------------------------------------------- solution set

  /** Columns before c as the triangle they stand for, the others in full. */
  ghost function Logical(m: Matrix, c: nat): (r: Matrix)
    ensures |r| == |m|
    ensures forall j :: 0 <= j < |m| ==> r[j] == if j < c then UpperPart(m[j], j) else m[j]
  {
    seq(|m|, j requires 0 <= j < |m| => if j < c then UpperPart(m[j], j) else m[j])
  }

  /** The pivot column itself: its row operation leaves zeros below the diagonal. */
  lemma PivotColumn(v: Vec, k: nat)
    requires k < |v|
    ensures var l := PivotRow(v, k);
            var mult := Multipliers(v, k, l);
            Eliminate(v, k, l, mult) == UpperPart(mult, k)
  {
    hide PivotRow, Eliminate;
    var l := PivotRow(v, k);
    if v[l] == 0.0 {
      ZeroPivotFixes(v, v, k);
      ZeroPivotIsUpper(v, k);
    } else {
      CancelColumn(v, k, l, Multipliers(v, k, l));
    }
  }

  lemma ZeroPivotIsUpper(v: Vec, k: nat)
    requires k < |v| && v[PivotRow(v, k)] == 0.0
    ensures UpperPart(v, k) == v
  {
    PivotRowIsPivot(v, k);
    hide PivotRow;
    forall i | k < i < |v| ensures v[i] == 0.0 {
      assert Abs(v[i]) <= Abs(v[PivotRow(v, k)]);
    }
  }

  lemma CancelColumn(v: Vec, k: nat, l: nat, mult: Vec)
    requires k < |v| == |mult| && l < |v| && v[l] != 0.0
    requires forall i :: 0 <= i <= k ==> mult[i] == Swap(v, k, l)[i]
    requires forall i :: k < i < |v| ==> mult[i] == Multiplier(v[l], Swap(v, k, l)[i])
    ensures Eliminate(v, k, l, mult) == UpperPart(mult, k)
  {
    hide Multiplier;
    var w := Swap(v, k, l);
    forall i | 0 <= i < |v| ensures Eliminate(v, k, l, mult)[i] == UpperPart(mult, k)[i] {
      if i > k {
        Cancel(v[l], w[i]);
      }
    }
  }

  lemma Cancel(d: real, x: real)
    requires d != 0.0
    ensures x + d * Multiplier(d, x) == 0.0
  {
    var r := -1.0 / d;
    assert d * r == -1.0;
    assert d * (r * x) == (d * r) * x;
  }

  /** With a zero pivot nothing below row k is left to remove, so the row operation
      that the unchanged column spells out does nothing. */
  lemma ZeroPivotFixes(v: Vec, u: Vec, k: nat)
    requires k < |v| == |u| && v[PivotRow(v, k)] == 0.0
    ensures PivotRow(v, k) == k && Eliminate(u, k, k, v) == u
  {
    PivotRowIsPivot(v, k);
    assert forall i :: k <= i < |v| ==> Abs(v[i]) <= 0.0;
    assert Swap(u, k, k) == u;
    forall i | k < i < |v| ensures u[i] + u[k] * v[i] == u[i] {
      assert v[i] == 0.0;
    }
  }

  /** Step k is one row operation applied to all columns at once, the finished ones
      included. */
  lemma StepIsEliminateAll(m: Matrix, k: nat)
    requires Square(m, |m|) && k < |m|
    ensures Logical(Step(m, k), k + 1)
         == EliminateAll(Logical(m, k), k, PivotRow(m[k], k), Step(m, k)[k])
  {
    var l := PivotRow(m[k], k);
    var mult := Multipliers(m[k], k, l);
    var s := Step(m, k);
    assert s[k] == mult;
    forall j | 0 <= j < |m|
      ensures Logical(s, k + 1)[j] == Eliminate(Logical(m, k)[j], k, l, mult)
    {
      if j < k {
        EliminateFixes(UpperPart(m[j], j), k, l, mult);
      } else if j == k {
        PivotColumn(m[k], k);
      } else if m[k][l] == 0.0 {
        ZeroPivotFixes(m[k], m[j], k);
      }
    }
  }

  lemma StepKeepsColumn(m: Matrix, j: nat, k: nat)
    requires Square(m, |m|) && j < k < |m|
    ensures Step(m, k)[j] == m[j]
  {}

  lemma {:induction false} LaterStagesKeepColumn(m: Matrix, j: nat, k: nat)
    requires Square(m, |m|) && j < k <= |m|
    ensures Stage(m, k)[j] == Stage(m, j + 1)[j]
  {
    hide Step;
    if j + 1 < k {
      LaterStagesKeepColumn(m, j, k - 1);
      StepKeepsColumn(Stage(m, k - 1), j, k - 1);
    }
  }

  /** The right hand side after k steps, each step replayed as it is taken. */
  ghost function Replay(m: Matrix, b: Vec, k: nat): (r: Vec)
    requires k <= |m| == |b| && Square(m, |m|)
    ensures |r| == |b|
  {
    if k == 0 then b else Eliminate(Replay(m, b, k - 1), k - 1, Pivot(m, k - 1), Stage(m, k)[k - 1])
  }

  /** Replaying afterwards, from the multipliers still stored after d steps, gives
      the same right hand side: later steps never touch an earlier column. */
  lemma {:induction false} ForwardIsReplay(m: Matrix, b: Vec, k: nat, d: nat, f: Matrix, p: seq<nat>)
    requires Square(m, |m|) && |b| == |m| && k <= d <= |m|
    requires f == Stage(m, d) && p == Pivots(m, d)
    ensures Forward(f, p, b, k) == Replay(m, b, k)
  {
    hide Stage, Eliminate;
    if k > 0 {
      ForwardIsReplay(m, b, k - 1, d, f, p);
      LaterStagesKeepColumn(m, k - 1, d);
      assert f[k - 1] == Stage(m, k)[k - 1];
      assert p[k - 1] == Pivot(m, k - 1);
    }
  }

  lemma StepKeepsSolutions(m: Matrix, x: Vec, b: Vec, k: nat, s: Matrix, c: Vec)
    requires Square(m, |m|) && |x| == |b| == |m| && k < |m|
    requires s == Step(m, k) && c == Eliminate(b, k, PivotRow(m[k], k), s[k])
    ensures Solves(Logical(m, k), x, b) <==> Solves(Logical(s, k + 1), x, c)
  {
    StepIsEliminateAll(m, k);
    EliminateKeepsSolutions(Logical(m, k), x, b, k, PivotRow(m[k], k), Step(m, k)[k]);
  }

  /** After k steps, x solves the original system exactly when it solves the reduced
      one with the replayed right hand side. */
  lemma {:induction false} StageKeepsSolutions(m: Matrix, x: Vec, b: Vec, k: nat)
    requires Square(m, |m|) && |x| == |b| == |m| && k <= |m|
    ensures Solves(m, x, b) <==> Solves(Logical(Stage(m, k), k), x, Replay(m, b, k))
  {
    hide Step, Eliminate, Solves;
    if k == 0 {
      assert Logical(m, 0) == m;
    } else {
      StageKeepsSolutions(m, x, b, k - 1);
      StepKeepsSolutions(Stage(m, k - 1), x, Replay(m, b, k - 1), k - 1, Stage(m, k), Replay(m, b, k));
    }
  }

  /** The whole factorisation: the original system and the triangular one, with the
      replayed right hand side, have the same solutions. */
  lemma FactoredKeepsSolutions(m: Matrix, x: Vec, b: Vec)
    requires |m| > 0 && Square(m, |m|) && |x| == |b| == |m|
    ensures Solves(m, x, b)
       <==> Solves(Upper(Factored(m)), x, Forward(Factored(m), Pivots(m, |m| - 1), b, |m| - 1))
  {
    hide Stage, Eliminate, Solves, Forward, Logical, Upper;
    StageKeepsSolutions(m, x, b, |m| - 1);
    ForwardIsReplay(m, b, |m| - 1, |m| - 1, Factored(m), Pivots(m, |m| - 1));
    LastColumnIsUpper(Factored(m));
  }

  lemma LastColumnIsUpper(f: Matrix)
    requires |f| > 0 && Square(f, |f|)
    ensures Logical(f, |f| - 1) == Upper(f)
  {
    assert UpperPart(f[|f| - 1], |f| - 1) == f[|f| - 1];
  }

  /** The solver's promise: with a nonzero stored diagonal the replay and the back
      substitution give the one solution of the original system. */
  lemma SolvesOriginal(m: Matrix, b: Vec, x: Vec)
    requires |m| > 0 && Square(m, |m|) && |x| == |b| == |m|
    requires DiagonalNonzero(Factored(m), |m|)
    ensures Solves(m, x, b)
       <==> x == BackSolve(Factored(m), Forward(Factored(m), Pivots(m, |m| - 1), b, |m| - 1), |m|)
  {
    hide Stage, Factored, Eliminate, Solves, Forward, Upper;
    FactoredKeepsSolutions(m, x, b);
    TriangularUniqueSolution(Factored(m), Forward(Factored(m), Pivots(m, |m| - 1), b, |m| - 1), x);
  }

  lemma {:induction false} ForwardOfZeros(f: Matrix, p: seq<nat>, k: nat)
    requires Square(f, |f|) && k <= |f| && k <= |p|
    requires forall j :: 0 <= j < k ==> p[j] < |f|
    ensures Forward(f, p, Zeros(|f|), k) == Zeros(|f|)
  {
    if k > 0 {
      ForwardOfZeros(f, p, k - 1);
      EliminateFixes(Zeros(|f|), k - 1, p[k - 1], f[k - 1]);
    }
  }

  /** The stored diagonal decides solvability: it is free of zeros exactly when the
      original matrix is nonsingular. */
  lemma DiagonalDecides(m: Matrix)
    requires |m| > 0 && Square(m, |m|)
    ensures DiagonalNonzero(Factored(m), |m|) <==> NonSingular(m, |m|)
  {
    var n, f := |m|, Factored(m);
    TriangularNonSingular(f, n);
    forall x: Vec ensures Solves(m, x, Zeros(n)) <==> Solves(Upper(f), x, Zeros(n)) {
      SameKernel(m, x);
    }
  }

  lemma SameKernel(m: Matrix, x: Vec)
    requires |m| > 0 && Square(m, |m|)
    ensures Solves(m, x, Zeros(|m|)) <==> Solves(Upper(Factored(m)), x, Zeros(|m|))
  {
    hide Stage, Forward, Eliminate;
    if |x| == |m| {
      hide Solves;
      ForwardOfZeros(Factored(m), Pivots(m, |m| - 1), |m| - 1);
      FactoredKeepsSolutions(m, x, Zeros(|m|));
    }
  }

  // ------------------------------------------------------------- info

  /** The last column below c whose diagonal entry is zero, or 0. */
  function Info(m: Matrix, c: nat): (r: nat)
    requires c <= |m| && forall j :: 0 <= j < c ==> j < |m[j]|
    ensures r <= |m|
  {
    if c == 0 then 0 else if m[c - 1][c - 1] == 0.0 then c - 1 else Info(m, c - 1)
  }

  /** `info` is 0 exactly when no diagonal entry but perhaps the first is zero, and
      otherwise names a zero one. */
  lemma {:induction false} InfoMeaning(m: Matrix, c: nat)
    requires c <= |m| && forall j :: 0 <= j < c ==> j < |m[j]|
    ensures Info(m, c) == 0 <==> forall j :: 1 <= j < c ==> m[j][j] != 0.0
    ensures Info(m, c) != 0 ==> Info(m, c) < c && m[Info(m, c)][Info(m, c)] == 0.0
  {
    if c > 0 {
      InfoMeaning(m, c - 1);
    }
  }

  /** The first stored entry is the largest of the first column. */
  lemma FirstEntry(m: Matrix)
    requires |m| > 0 && Square(m, |m|)
    ensures Factored(m)[0][0] != 0.0 <==> exists i :: 0 <= i < |m| && m[0][i] != 0.0
  {
    PivotRowIsPivot(m[0], 0);
    if |m| > 1 {
      LaterStagesKeepColumn(m, 0, |m| - 1);
      assert Stage(m, 1)[0] == StepColumn(m[0], m[0], 0, 0);
      hide Stage, Eliminate, PivotRow;
      assert Factored(m)[0][0] == m[0][PivotRow(m[0], 0)] by {
        assert m[0][PivotRow(m[0], 0)] == 0.0 ==> Abs(m[0][0]) <= 0.0;
      }
    }
  }

  /** `info` != 0 always means that the matrix is singular. `info` == 0 means that it is
      nonsingular exactly when its first column is not zero. */
  lemma InfoDecides(m: Matrix)
    requires |m| > 0 && Square(m, |m|)
    ensures Info(Factored(m), |m|) != 0 ==> !NonSingular(m, |m|)
    ensures Info(Factored(m), |m|) == 0 ==>
              (NonSingular(m, |m|) <==> exists i :: 0 <= i < |m| && m[0][i] != 0.0)
  {
    hide Stage, Factored, NonSingular;
    InfoMeaning(Factored(m), |m|);
    DiagonalDecides(m);
    FirstEntry(m);
  }

  /** A singular matrix on which `info` is 0: first column zero, second (1, 1). */
  lemma InfoMissesColumnZero()
    ensures var m: Matrix := [[0.0, 0.0], [1.0, 1.0]];
            Square(m, 2) && Info(Factored(m), 2) == 0 && !NonSingular(m, 2)
  {
    var m: Matrix := [[0.0, 0.0], [1.0, 1.0]];
    assert Stage(m, 1) == Step(Stage(m, 0), 0) == m;
    InfoDecides(m);
  }

  // ------------------------------------------------------------ growth

  /** `bound` doubled k times. */
  ghost function Doubled(bound: real, k: nat): (r: real)
    requires bound >= 0.0
    ensures r >= 0.0
  {
    if k == 0 then bound else 2.0 * Doubled(bound, k - 1)
  }

  ghost predicate Bounded(v: Vec, lo: nat, hi: nat, bound: real) {
    hi <= |v| && forall i :: lo <= i < hi ==> Abs(v[i]) <= bound
  }

  /** After steps 0 .. k-1: multipliers at most 1, finished triangle and active block
      at most `bound`. */
  ghost predicate GrowthBounded(m: Matrix, k: nat, bound: real)
    requires Square(m, |m|)
  {
    forall j :: 0 <= j < |m| ==>
      if j < k then Bounded(m[j], j + 1, |m|, 1.0) && Bounded(m[j], 0, j + 1, bound)
      else Bounded(m[j], 0, |m|, bound)
  }

  lemma GrowsBeyond(a: real, b: real)
    requires a > 1.0 && b > 0.0
    ensures a * b > b
  {
    assert (a - 1.0) * b > 0.0;
  }

  lemma AtMostOne(a: real, b: real, p: real)
    requires b > 0.0 && p == a * b && p <= b
    ensures a <= 1.0
  {
    if a > 1.0 {
      GrowsBeyond(a, b);
    }
  }

  lemma QuotientAtMostOne(q: real, d: real, x: real)
    requires d != 0.0 && q * d == -x && Abs(x) <= Abs(d)
    ensures Abs(q) <= 1.0
  {
    AbsOfProduct(q, d, -x);
    AtMostOne(Abs(q), Abs(d), Abs(-x));
  }

  lemma MultiplierIsQuotient(d: real, x: real)
    requires d != 0.0
    ensures Multiplier(d, x) * d == -x
  {
    var r := -1.0 / d;
    assert r * d == -1.0;
    assert (r * x) * d == (r * d) * x;
  }

  lemma MultiplierAtMostOne(d: real, x: real)
    requires d != 0.0 && Abs(x) <= Abs(d)
    ensures Abs(Multiplier(d, x)) <= 1.0
  {
    MultiplierIsQuotient(d, x);
    hide Multiplier;
    QuotientAtMostOne(Multiplier(d, x), d, x);
  }

  lemma ProductAtMost(x: real, t: real, bound: real)
    requires Abs(x) <= bound && Abs(t) <= 1.0
    ensures Abs(x * t) <= bound
  {
    if x >= 0.0 {
      assert -x <= x * t <= x;
    } else {
      assert x <= x * t <= -x;
    }
  }

  lemma SumAtMost(x: real, y: real, bound: real)
    requires Abs(x) <= bound && Abs(y) <= bound
    ensures Abs(x + y) <= 2.0 * bound
  {}

  lemma PlusProductAtMost(x: real, y: real, t: real, bound: real)
    requires Abs(x) <= bound && Abs(y) <= bound && Abs(t) <= 1.0
    ensures Abs(x + y * t) <= 2.0 * bound
  {
    ProductAtMost(y, t, bound);
    SumAtMost(x, y * t, bound);
  }

  lemma EntryGrowth(w: Vec, k: nat, mult: Vec, i: nat, bound: real)
    requires k < |w| == |mult| && i < |w| && bound >= 0.0
    requires Abs(w[i]) <= bound && Abs(w[k]) <= bound && (k < i ==> Abs(mult[i]) <= 1.0)
    ensures Abs(EliminateEntry(w, k, mult, i)) <= 2.0 * bound
  {
    if k < i {
      PlusProductAtMost(w[i], w[k], mult[i], bound);
      assert EliminateEntry(w, k, mult, i) == w[i] + w[k] * mult[i];
    } else {
      assert EliminateEntry(w, k, mult, i) == w[i];
    }
  }

  lemma EliminateGrowth(v: Vec, k: nat, l: nat, mult: Vec, bound: real)
    requires k < |v| && l < |v| && |mult| == |v| && bound >= 0.0
    requires Bounded(v, 0, |v|, bound) && Bounded(mult, k + 1, |v|, 1.0)
    ensures Bounded(Eliminate(v, k, l, mult), 0, |v|, 2.0 * bound)
  {
    var w := Swap(v, k, l);
    assert Bounded(w, 0, |v|, bound);
    forall i | 0 <= i < |v| ensures Abs(EliminateEntry(w, k, mult, i)) <= 2.0 * bound {
      EntryGrowth(w, k, mult, i, bound);
    }
  }

  lemma MultipliersAtMostOne(v: Vec, k: nat)
    requires k < |v|
    ensures Bounded(Multipliers(v, k, PivotRow(v, k)), k + 1, |v|, 1.0)
  {
    var l := PivotRow(v, k);
    PivotRowIsPivot(v, k);
    hide PivotRow, Multiplier;
    var w := Swap(v, k, l);
    forall i | k < i < |v| ensures Abs(Multipliers(v, k, l)[i]) <= 1.0 {
      if v[l] == 0.0 {
        assert Abs(v[i]) <= 0.0;
      } else {
        MultiplierAtMostOne(w[k], w[i]);
      }
    }
  }

  lemma PivotColumnGrowth(v: Vec, k: nat, bound: real)
    requires k < |v| && bound >= 0.0 && Bounded(v, 0, |v|, bound)
    ensures Bounded(Multipliers(v, k, PivotRow(v, k)), 0, k + 1, bound)
  {
    hide PivotRow, Multiplier;
  }

  lemma StepGrowth(m: Matrix, k: nat, bound: real)
    requires Square(m, |m|) && k < |m| && bound >= 0.0 && GrowthBounded(m, k, bound)
    ensures GrowthBounded(Step(m, k), k + 1, 2.0 * bound)
  {
    var l := PivotRow(m[k], k);
    var mult := Multipliers(m[k], k, l);
    MultipliersAtMostOne(m[k], k);
    PivotColumnGrowth(m[k], k, bound);
    hide PivotRow, Multipliers, Eliminate;
    forall j | k < j < |m| ensures Bounded(Step(m, k)[j], 0, |m|, 2.0 * bound) {
      EliminateGrowth(m[j], k, l, mult, bound);
    }
    assert Step(m, k)[k] == if m[k][l] == 0.0 then m[k] else mult;
  }

  lemma {:induction false} StageGrowth(m: Matrix, k: nat, bound: real)
    requires Square(m, |m|) && k <= |m| && bound >= 0.0 && GrowthBounded(m, 0, bound)
    ensures GrowthBounded(Stage(m, k), k, Doubled(bound, k))
  {
    hide Step, Bounded, GrowthBounded;
    if k > 0 {
      StageGrowth(m, k - 1, bound);
      StepGrowth(Stage(m, k - 1), k - 1, Doubled(bound, k - 1));
    }
  }

  /** Partial pivoting bounds growth: step by step every entry at most doubles, and
      no multiplier exceeds 1 in magnitude. */
  lemma PivotingBoundsGrowth(m: Matrix, k: nat, bound: real)
    requires Square(m, |m|) && k <= |m| && bound >= 0.0
    requires forall j :: 0 <= j < |m| ==> Bounded(m[j], 0, |m|, bound)
    ensures GrowthBounded(Stage(m, k), k, Doubled(bound, k))
    ensures forall j :: 0 <= j < k ==> j <= Pivot(m, j) < |m|
  {
    assert GrowthBounded(m, 0, bound);
    hide GrowthBounded, Bounded;
    StageGrowth(m, k, bound);
  }
}
