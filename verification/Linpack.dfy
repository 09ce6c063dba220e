/** Where column j of a matrix with leading dimension lda lies in its flat array. */
module ColumnMajor {
  import opened LinearSystem

  /** lda * j, by repeated addition. */
  ghost function Off(lda: nat, j: nat): nat {
    if j == 0 then 0 else Off(lda, j - 1) + lda
  }

  lemma {:induction false} OffIsProduct(lda: nat, j: nat)
    ensures Off(lda, j) == lda * j
  {
    if j > 0 {
      OffIsProduct(lda, j - 1);
      assert lda * j == lda * (j - 1) + lda;
    }
  }

  lemma {:induction false} OffApart(lda: nat, i: nat, j: nat)
    requires i < j
    ensures Off(lda, i) + lda <= Off(lda, j)
  {
    if i + 1 < j {
      OffApart(lda, i, j - 1);
    }
  }

  /** An array of length len holds n columns of n entries, lda apart. */
  ghost predicate Fits(len: nat, lda: nat, n: nat) {
    1 <= n <= lda && Off(lda, n - 1) + n <= len
  }

  lemma ColumnFits(len: nat, lda: nat, n: nat, j: nat)
    requires Fits(len, lda, n) && j < n
    ensures Off(lda, j) + n <= len && Off(lda, j) == lda * j
  {
    OffIsProduct(lda, j);
    if j < n - 1 {
      OffApart(lda, j, n - 1);
    }
  }

  ghost function Column(s: seq<real>, lda: nat, n: nat, j: nat): (v: Vec)
    requires Off(lda, j) + n <= |s|
    ensures |v| == n
  {
    s[Off(lda, j)..Off(lda, j) + n]
  }

  ghost function Columns(s: seq<real>, lda: nat, n: nat): (m: Matrix)
    requires Fits(|s|, lda, n)
    ensures Square(m, n)
  {
    assert forall j :: 0 <= j < n ==> Off(lda, j) + n <= |s| by {
      forall j | 0 <= j < n ensures Off(lda, j) + n <= |s| {
        ColumnFits(|s|, lda, n, j);
      }
    }
    seq(n, j requires 0 <= j < n => Column(s, lda, n, j))
  }

  lemma EntryAt(s: seq<real>, lda: nat, n: nat, i: nat, j: nat)
    requires Fits(|s|, lda, n) && i < n && j < n
    ensures 0 <= lda * j + i < |s| && s[lda * j + i] == Columns(s, lda, n)[j][i]
  {
    ColumnFits(|s|, lda, n, j);
  }

  /** t is s with column j replaced by v and every other entry kept. */
  ghost predicate ColumnReplaced(s: seq<real>, t: seq<real>, lda: nat, n: nat, j: nat, v: Vec) {
    && |t| == |s|
    && Off(lda, j) + n <= |s|
    && Column(t, lda, n, j) == v
    && forall p :: 0 <= p < |s| && !(Off(lda, j) <= p < Off(lda, j) + n) ==> t[p] == s[p]
  }

  lemma ReplacingOneColumn(s: seq<real>, t: seq<real>, lda: nat, n: nat, j: nat, v: Vec)
    requires Fits(|s|, lda, n) && j < n && ColumnReplaced(s, t, lda, n, j, v)
    ensures Columns(t, lda, n) == Columns(s, lda, n)[j := v]
  {
    assert forall c :: 0 <= c < n ==> Off(lda, c) + n <= |s| by {
      forall c | 0 <= c < n ensures Off(lda, c) + n <= |s| {
        ColumnFits(|s|, lda, n, c);
      }
    }
    forall c | 0 <= c < n && c != j ensures Column(t, lda, n, c) == Column(s, lda, n, c) {
      OffApart(lda, if c < j then c else j, if c < j then j else c);
    }
  }

  /** Position p belongs to no column entry. */
  ghost predicate Unused(p: nat, lda: nat, n: nat) {
    forall j :: 0 <= j < n ==> !(Off(lda, j) <= p < Off(lda, j) + n)
  }

  ghost predicate UnusedKept(s: seq<real>, t: seq<real>, lda: nat, n: nat) {
    |t| == |s| && forall p :: 0 <= p < |s| && Unused(p, lda, n) ==> t[p] == s[p]
  }

  lemma ReplacingKeepsUnused(r: seq<real>, s: seq<real>, t: seq<real>, lda: nat, n: nat, j: nat, v: Vec)
    requires j < n && UnusedKept(r, s, lda, n) && ColumnReplaced(s, t, lda, n, j, v)
    ensures UnusedKept(r, t, lda, n)
  {}
}

/** The BLAS kernels with increment 1. A C pointer into an array is an array and an
    offset. */
module Kernels {
  import opened Basics
  import opened Factorisation

  function PlusProduct(y: real, da: real, x: real): real {
    y + da * x
  }

  function Product(da: real, x: real): real {
    da * x
  }

  /** y with da * x added to the stretch that starts at yo. */
  ghost function Axpy(y: seq<real>, yo: nat, da: real, x: seq<real>): (r: seq<real>)
    requires yo + |x| <= |y|
    ensures |r| == |y|
  {
    seq(|y|, i requires 0 <= i < |y| => if yo <= i < yo + |x| then PlusProduct(y[i], da, x[i - yo]) else y[i])
  }

  /** x with the n entries from xo on multiplied by da. */
  ghost function Scal(x: seq<real>, xo: nat, da: real, n: nat): (r: seq<real>)
    requires xo + n <= |x|
    ensures |r| == |x|
  {
    seq(|x|, i requires 0 <= i < |x| => if xo <= i < xo + n then Product(da, x[i]) else x[i])
  }

  lemma AxpyStart(y: seq<real>, yo: nat, da: real, x: seq<real>)
    requires yo + |x| <= |y|
    ensures Axpy(y, yo, da, x[..0]) == y && x[..|x|] == x
  {}

  lemma AxpyByZero(y: seq<real>, yo: nat, x: seq<real>)
    requires yo + |x| <= |y|
    ensures Axpy(y, yo, 0.0, x) == y
  {}

  lemma AxpyNext(y: seq<real>, yo: nat, da: real, x: seq<real>, i: nat)
    requires yo + |x| <= |y| && i < |x|
    ensures Axpy(y, yo, da, x[..i])[yo + i] == y[yo + i]
    ensures Axpy(y, yo, da, x[..i + 1]) == Axpy(y, yo, da, x[..i])[yo + i := PlusProduct(y[yo + i], da, x[i])]
  {
    hide PlusProduct;
    assert forall p :: 0 <= p < i ==> x[..i + 1][p] == x[..i][p];
  }

  lemma ScalStart(x: seq<real>, xo: nat, da: real)
    requires xo <= |x|
    ensures Scal(x, xo, da, 0) == x
  {}

  lemma ScalNext(x: seq<real>, xo: nat, da: real, i: nat)
    requires xo + i < |x|
    ensures Scal(x, xo, da, i)[xo + i] == x[xo + i]
    ensures Scal(x, xo, da, i + 1) == Scal(x, xo, da, i)[xo + i := Product(da, x[xo + i])]
  {
    hide Product;
  }

  /** The first i products have been added, and the addends are still in place. */
  ghost predicate AxpyReached(dx: seq<real>, xo: nat, dy: seq<real>, yo: nat, da: real, i: nat, y: seq<real>, x: seq<real>) {
    && yo + |x| <= |y| && i <= |x|
    && dy == Axpy(y, yo, da, x[..i])
    && xo + |x| <= |dx| && dx[xo..xo + |x|] == x
  }

  /** dy[i] = dy[i] + da*dx[i] */
  method AxpyEntry(dx: array<real>, xo: nat, dy: array<real>, yo: nat, da: real, i: nat,
                   ghost y: seq<real>, ghost x: seq<real>)
    requires AxpyReached(dx[..], xo, dy[..], yo, da, i, y, x) && i < |x|
    requires dx == dy ==> xo + |x| <= yo || yo + |x| <= xo
    modifies dy
    ensures AxpyReached(dx[..], xo, dy[..], yo, da, i + 1, y, x)
  {
    hide Axpy, PlusProduct;
    AxpyNext(y, yo, da, x, i);
    assert dx[xo + i] == dx[..][xo..xo + |x|][i];
    dy[yo + i] := PlusProduct(dy[yo + i], da, dx[xo + i]);
    assert dx[..][xo..xo + |x|] == x;
  }

  /** dx[i] = da*dx[i] */
  method ScalEntry(dx: array<real>, xo: nat, da: real, i: nat, ghost x: seq<real>)
    requires xo + i < |x| && dx[..] == Scal(x, xo, da, i)
    modifies dx
    ensures dx[..] == Scal(x, xo, da, i + 1)
  {
    hide Scal, Product;
    ScalNext(x, xo, da, i);
    dx[xo + i] := Product(da, dx[xo + i]);
  }

  method DaxpyRolled(n: int, da: real, dx: array<real>, xo: nat, dy: array<real>, yo: nat)
    requires n > 0 ==> xo + n <= dx.Length && yo + n <= dy.Length
    requires n > 0 && dx == dy ==> xo + n <= yo || yo + n <= xo
    modifies dy
    ensures dy[..] == if n <= 0 then old(dy[..]) else Axpy(old(dy[..]), yo, da, old(dx[xo..xo + n]))
  {
    if n <= 0 {
      return;
    }
    ghost var y, x := dy[..], dx[xo..xo + n];
    if da == 0.0 {
      AxpyByZero(y, yo, x);
      return;
    }
    AxpyStart(y, yo, da, x);
    hide Axpy;
    var i := 0;
    while i < n
      invariant 0 <= i <= n
      invariant AxpyReached(dx[..], xo, dy[..], yo, da, i, y, x)
    {
      AxpyEntry(dx, xo, dy, yo, da, i, y, x);
      i := i + 1;
    }
  }

  method DaxpyUnrolled(n: int, da: real, dx: array<real>, xo: nat, dy: array<real>, yo: nat)
    requires n > 0 ==> xo + n <= dx.Length && yo + n <= dy.Length
    requires n > 0 && dx == dy ==> xo + n <= yo || yo + n <= xo
    modifies dy
    ensures dy[..] == if n <= 0 then old(dy[..]) else Axpy(old(dy[..]), yo, da, old(dx[xo..xo + n]))
  {
    if n <= 0 {
      return;
    }
    ghost var y, x := dy[..], dx[xo..xo + n];
    if da == 0.0 {
      AxpyByZero(y, yo, x);
      return;
    }
    AxpyStart(y, yo, da, x);
    hide Axpy;
    var m := n % 4;
    var i := 0;
    if m != 0 {
      while i < m
        invariant 0 <= i <= m
        invariant AxpyReached(dx[..], xo, dy[..], yo, da, i, y, x)
      {
        AxpyEntry(dx, xo, dy, yo, da, i, y, x);
        i := i + 1;
      }
      if n < 4 {
        return;
      }
    }
    AxpyBlocks(n, da, dx, xo, dy, yo, m, y, x);
  }

  /** The main loop of the unrolled kernel, four entries at a time. */
  method AxpyBlocks(n: int, da: real, dx: array<real>, xo: nat, dy: array<real>, yo: nat, m: nat,
                    ghost y: seq<real>, ghost x: seq<real>)
    requires n == |x| && m == n % 4 && AxpyReached(dx[..], xo, dy[..], yo, da, m, y, x)
    requires dx == dy ==> xo + n <= yo || yo + n <= xo
    modifies dy
    ensures AxpyReached(dx[..], xo, dy[..], yo, da, n, y, x)
  {
    hide AxpyReached;
    ghost var q := n / 4;
    var i := m;
    while i < n
      invariant 0 <= i && 0 <= q && i + 4 * q == n
      invariant AxpyReached(dx[..], xo, dy[..], yo, da, i, y, x)
    {
      AxpyEntry(dx, xo, dy, yo, da, i, y, x);
      AxpyEntry(dx, xo, dy, yo, da, i + 1, y, x);
      AxpyEntry(dx, xo, dy, yo, da, i + 2, y, x);
      AxpyEntry(dx, xo, dy, yo, da, i + 3, y, x);
      i, q := i + 4, q - 1;
    }
  }

  method DscalRolled(n: int, da: real, dx: array<real>, xo: nat)
    requires n > 0 ==> xo + n <= dx.Length
    modifies dx
    ensures dx[..] == if n <= 0 then old(dx[..]) else Scal(old(dx[..]), xo, da, n)
  {
    if n <= 0 {
      return;
    }
    ghost var x := dx[..];
    ScalStart(x, xo, da);
    hide Scal;
    var i := 0;
    while i < n
      invariant 0 <= i <= n && dx[..] == Scal(x, xo, da, i)
    {
      ScalEntry(dx, xo, da, i, x);
      i := i + 1;
    }
  }

  method DscalUnrolled(n: int, da: real, dx: array<real>, xo: nat)
    requires n > 0 ==> xo + n <= dx.Length
    modifies dx
    ensures dx[..] == if n <= 0 then old(dx[..]) else Scal(old(dx[..]), xo, da, n)
  {
    if n <= 0 {
      return;
    }
    ghost var x := dx[..];
    ScalStart(x, xo, da);
    hide Scal;
    var m := n % 5;
    ghost var q := n / 5;
    var i := 0;
    if m != 0 {
      while i < m
        invariant 0 <= i <= m && dx[..] == Scal(x, xo, da, i)
      {
        ScalEntry(dx, xo, da, i, x);
        i := i + 1;
      }
      if n < 5 {
        return;
      }
    }
    i := m;
    while i < n
      invariant 0 <= i && 0 <= q && i + 5 * q == n && dx[..] == Scal(x, xo, da, i)
    {
      ScalEntry(dx, xo, da, i, x);
      ScalEntry(dx, xo, da, i + 1, x);
      ScalEntry(dx, xo, da, i + 2, x);
      ScalEntry(dx, xo, da, i + 3, x);
      ScalEntry(dx, xo, da, i + 4, x);
      i, q := i + 5, q - 1;
    }
  }

  /** Position of the first entry of largest magnitude, or -1 for an empty stretch. */
  method Idamax(n: int, dx: array<real>, xo: nat) returns (r: int)
    requires n > 0 ==> xo + n <= dx.Length
    ensures n < 1 ==> r == -1
    ensures n >= 1 ==> 0 <= r < n && IsPivot(dx[xo..xo + n], 0, r)
  {
    if n < 1 {
      return -1;
    }
    ghost var v := dx[xo..xo + n];
    if n == 1 {
      return 0;
    }
    r := 0;
    var dmax := Abs(dx[xo]);
    var i := 1;
    while i < n
      invariant 1 <= i <= n && 0 <= r < i && dmax == Abs(v[r])
      invariant forall p :: 0 <= p < i ==> Abs(v[p]) <= dmax
      invariant forall p :: 0 <= p < r ==> Abs(v[p]) < dmax
    {
      assert dx[xo + i] == v[i];
      if Abs(dx[xo + i]) > dmax {
        r := i;
        dmax := Abs(dx[xo + i]);
      }
      i := i + 1;
    }
  }
}

/** What the kernels do to one column, seen as a vector. */
module ColumnKernels {
  import opened LinearSystem
  import opened Factorisation
  import opened ColumnMajor
  import opened Kernels

  lemma ReplacedTwice(s: seq<real>, t: seq<real>, u: seq<real>, lda: nat, n: nat, j: nat, v: Vec, w: Vec)
    requires ColumnReplaced(s, t, lda, n, j, v) && ColumnReplaced(t, u, lda, n, j, w)
    ensures ColumnReplaced(s, u, lda, n, j, w)
  {}

  lemma SwapInColumn(s: seq<real>, lda: nat, n: nat, j: nat, k: nat, l: nat)
    requires Off(lda, j) + n <= |s| && k < n && l < n
    ensures var o := Off(lda, j);
            ColumnReplaced(s, Swap(s, o + k, o + l), lda, n, j, Swap(Column(s, lda, n, j), k, l))
  {
    hide Off;
    SwapInSlice(s, Off(lda, j), n, k, l);
  }

  lemma SwapInSlice(s: seq<real>, o: nat, n: nat, k: nat, l: nat)
    requires o + n <= |s| && k < n && l < n
    ensures Swap(s, o + k, o + l)[o..o + n] == Swap(s[o..o + n], k, l)
    ensures forall p :: 0 <= p < |s| && !(o <= p < o + n) ==> Swap(s, o + k, o + l)[p] == s[p]
  {
    hide Swap;
    var t, v := Swap(s, o + k, o + l), s[o..o + n];
    forall i | 0 <= i < n ensures t[o..o + n][i] == Swap(v, k, l)[i] {
      assert t[o..o + n][i] == t[o + i] && v[i] == s[o + i] && v[k] == s[o + k] && v[l] == s[o + l];
    }
  }

  lemma ScalInColumn(s: seq<real>, lda: nat, n: nat, j: nat, k: nat, t: real, d: nat)
    requires Off(lda, j) + n <= |s| && k + d == n
    ensures ColumnReplaced(s, Scal(s, Off(lda, j) + k, t, d), lda, n, j, Scal(Column(s, lda, n, j), k, t, d))
  {
    hide Product;
    assert Column(Scal(s, Off(lda, j) + k, t, d), lda, n, j) == Scal(Column(s, lda, n, j), k, t, d);
  }

  lemma AxpyInColumn(s: seq<real>, lda: nat, n: nat, j: nat, k: nat, t: real, x: seq<real>)
    requires Off(lda, j) + n <= |s| && k + |x| <= n
    ensures ColumnReplaced(s, Axpy(s, Off(lda, j) + k, t, x), lda, n, j, Axpy(Column(s, lda, n, j), k, t, x))
  {
    hide PlusProduct;
    assert Column(Axpy(s, Off(lda, j) + k, t, x), lda, n, j) == Axpy(Column(s, lda, n, j), k, t, x);
  }

  lemma SliceOfColumn(s: seq<real>, lda: nat, n: nat, j: nat, lo: nat, hi: nat)
    requires Off(lda, j) + n <= |s| && lo <= hi <= n
    ensures s[Off(lda, j) + lo..Off(lda, j) + hi] == Column(s, lda, n, j)[lo..hi]
  {
    SliceOfSlice(s, Off(lda, j), n, lo, hi);
  }

  lemma SliceOfSlice(s: seq<real>, o: nat, n: nat, lo: nat, hi: nat)
    requires o + n <= |s| && lo <= hi <= n
    ensures s[o + lo..o + hi] == s[o..o + n][lo..hi]
  {
    var a, v := s[o + lo..o + hi], s[o..o + n];
    forall i | 0 <= i < hi - lo ensures a[i] == v[lo..hi][i] {
      assert v[lo..hi][i] == v[lo + i] == s[o + lo + i];
    }
  }

  lemma ScaledByProduct(d: real, t: real, x: real)
    requires d != 0.0 && t == -1.0 / d
    ensures Multiplier(d, x) == Product(t, x)
  {}

  lemma MultipliersByScal(v: Vec, k: nat, l: nat, t: real)
    requires k <= l < |v| && v[l] != 0.0 && t == -1.0 / v[l]
    ensures Multipliers(v, k, l) == Scal(Swap(v, k, l), k + 1, t, |v| - (k + 1))
  {
    var w := Swap(v, k, l);
    forall i | k < i < |v| ensures Multiplier(w[k], w[i]) == Product(t, w[i]) {
      ScaledByProduct(v[l], t, w[i]);
    }
    hide Multiplier, Product;
    var r := Scal(w, k + 1, t, |v| - (k + 1));
    assert |r| == |v| == |Multipliers(v, k, l)|;
    forall i | 0 <= i < |v| ensures Multipliers(v, k, l)[i] == r[i] {
      assert r[i] == if k < i then Product(t, w[i]) else w[i];
    }
    assert Multipliers(v, k, l) == r;
  }

  lemma EliminateByAxpy(v: Vec, k: nat, l: nat, mult: Vec)
    requires k < |v| == |mult| && l < |v|
    ensures Eliminate(v, k, l, mult) == Axpy(Swap(v, k, l), k + 1, v[l], mult[k + 1..])
  {
    forall i | k < i < |v|
      ensures EliminateEntry(Swap(v, k, l), k, mult, i) == PlusProduct(Swap(v, k, l)[i], v[l], mult[i])
    {}
  }

  lemma SubstituteByAxpy(u: Vec, y: Vec, k: nat, q: real)
    requires k < |u| == |y| && u[k] != 0.0 && q == y[k] / u[k]
    ensures Substitute(u, y, k) == Axpy(y[k := q], 0, -q, u[..k])
  {
    var r := Axpy(y[k := q], 0, -q, u[..k]);
    forall i | 0 <= i < |y| ensures Substitute(u, y, k)[i] == r[i] {
      if i < k {
        assert u[..k][i] == u[i] && u[i] * q == -(-q * u[i]);
      }
    }
  }

  lemma NoEntries(y: Vec, k: nat, t: real, x: seq<real>)
    requires |x| == 0 && k <= |y|
    ensures Axpy(y, k, t, x) == y && Scal(y, k, t, 0) == y
  {}
}

/** dgefa, dgesl (job 0) and matgen on flat arrays, in place. */
module Linpack {
  import opened LinearSystem
  import opened Factorisation
  import opened ColumnMajor
  import opened ColumnKernels
  import opened Kernels

  /** Interchange entries k and l of the column that starts at c. */
  method Interchange(a: array<real>, c: nat, k: nat, l: nat)
    requires c + k < a.Length && c + l < a.Length
    modifies a
    ensures a[..] == Swap(old(a[..]), c + k, c + l)
  {
    if l != k {
      var t := a[c + l];
      a[c + l] := a[c + k];
      a[c + k] := t;
    }
  }

  method Daxpy(n: int, da: real, dx: array<real>, xo: nat, dy: array<real>, yo: nat, roll: bool)
    requires n >= 0 && xo + n <= dx.Length && yo + n <= dy.Length
    requires n > 0 && dx == dy ==> xo + n <= yo || yo + n <= xo
    modifies dy
    ensures dy[..] == Axpy(old(dy[..]), yo, da, old(dx[xo..xo + n]))
  {
    NoEntries(dy[..], yo, da, []);
    if roll {
      DaxpyRolled(n, da, dx, xo, dy, yo);
    } else {
      DaxpyUnrolled(n, da, dx, xo, dy, yo);
    }
  }

  method Dscal(n: int, da: real, dx: array<real>, xo: nat, roll: bool)
    requires n >= 0 && xo + n <= dx.Length
    modifies dx
    ensures dx[..] == Scal(old(dx[..]), xo, da, n)
  {
    NoEntries(dx[..], xo, da, []);
    if roll {
      DscalRolled(n, da, dx, xo);
    } else {
      DscalUnrolled(n, da, dx, xo);
    }
  }

  /** Interchange and scale column k; a[lda*k+l] is the pivot. */
  method ScalePivotColumn(a: array<real>, lda: nat, n: nat, k: nat, l: nat, roll: bool)
    requires Fits(a.Length, lda, n) && k <= l < n
    requires Off(lda, k) + n <= a.Length && Column(a[..], lda, n, k)[l] != 0.0
    modifies a
    ensures ColumnReplaced(old(a[..]), a[..], lda, n, k, Multipliers(Column(old(a[..]), lda, n, k), k, l))
  {
    hide Swap, Scal, Multipliers, ColumnReplaced;
    ColumnFits(a.Length, lda, n, k);
    ghost var s := a[..];
    ghost var v := Column(s, lda, n, k);
    var c := lda * k;
    Interchange(a, c, k, l);
    ghost var s1 := a[..];
    SwapInColumn(s, lda, n, k, k, l);
    assert a[c + k] == v[l] by {
      assert s1[c + k] == s[c + l];
    }
    var t := -1.0 / a[c + k];
    Dscal(n - (k + 1), t, a, c + k + 1, roll);
    ScalInColumn(s1, lda, n, k, k + 1, t, n - (k + 1));
    MultipliersByScal(v, k, l, t);
    assert Column(s1, lda, n, k) == Swap(v, k, l) by {
      ReplacedColumn(s, s1, lda, n, k, Swap(v, k, l));
    }
    ReplacedTwice(s, s1, a[..], lda, n, k, Swap(v, k, l), Multipliers(v, k, l));
  }

  lemma ReplacedColumn(s: seq<real>, t: seq<real>, lda: nat, n: nat, j: nat, v: Vec)
    requires ColumnReplaced(s, t, lda, n, j, v)
    ensures |t| == |s| && Off(lda, j) + n <= |s| && Column(t, lda, n, j) == v
  {}

  lemma OtherColumnKept(s: seq<real>, t: seq<real>, lda: nat, n: nat, j: nat, v: Vec, k: nat)
    requires Fits(|s|, lda, n) && j < n && k < n && k != j && ColumnReplaced(s, t, lda, n, j, v)
    ensures Off(lda, k) + n <= |s| && Column(t, lda, n, k) == Column(s, lda, n, k)
  {
    ColumnFits(|s|, lda, n, k);
    OffApart(lda, if k < j then k else j, if k < j then j else k);
  }

  /** Row elimination in column j with the multipliers in column k. */
  method EliminateColumn(a: array<real>, lda: nat, n: nat, k: nat, l: nat, j: nat, roll: bool)
    requires Fits(a.Length, lda, n) && k <= l < n && k < j < n
    requires Off(lda, k) + n <= a.Length && Off(lda, j) + n <= a.Length
    modifies a
    ensures ColumnReplaced(old(a[..]), a[..], lda, n, j,
              Eliminate(Column(old(a[..]), lda, n, j), k, l, Column(old(a[..]), lda, n, k)))
  {
    hide Swap, Axpy, Eliminate, ColumnReplaced;
    ColumnFits(a.Length, lda, n, k);
    ColumnFits(a.Length, lda, n, j);
    OffApart(lda, k, j);
    ghost var s := a[..];
    ghost var v, mult := Column(s, lda, n, j), Column(s, lda, n, k);
    var c, ck := lda * j, lda * k;
    var t := a[c + l];
    assert t == v[l];
    Interchange(a, c, k, l);
    ghost var s1 := a[..];
    SwapInColumn(s, lda, n, j, k, l);
    ReplacedColumn(s, s1, lda, n, j, Swap(v, k, l));
    OtherColumnKept(s, s1, lda, n, j, Swap(v, k, l), k);
    SliceOfColumn(s1, lda, n, k, k + 1, n);
    assert s1[ck + k + 1..ck + n] == mult[k + 1..n] == mult[k + 1..];
    Daxpy(n - (k + 1), t, a, ck + k + 1, a, c + k + 1, roll);
    AxpyInColumn(s1, lda, n, j, k + 1, t, mult[k + 1..]);
    EliminateByAxpy(v, k, l, mult);
    ReplacedTwice(s, s1, a[..], lda, n, j, Swap(v, k, l), Eliminate(v, k, l, mult));
  }

  /** Columns before j have seen step k, the others not yet. */
  ghost function PartStep(m: Matrix, k: nat, j: nat): (r: Matrix)
    requires Square(m, |m|) && k < |m|
    ensures Square(r, |m|)
  {
    seq(|m|, c requires 0 <= c < |m| => if c < j then StepColumn(m[k], m[c], k, c) else m[c])
  }

  /** One pass of the outer loop of dgefa for a nonzero pivot. */
  method PivotStep(a: array<real>, lda: nat, n: nat, k: nat, l: nat, roll: bool)
    requires Fits(a.Length, lda, n) && k <= l < n
    requires l == PivotRow(Columns(a[..], lda, n)[k], k) && Columns(a[..], lda, n)[k][l] != 0.0
    modifies a
    ensures Columns(a[..], lda, n) == Step(Columns(old(a[..]), lda, n), k)
    ensures UnusedKept(old(a[..]), a[..], lda, n)
  {
    hide Step, PartStep, PivotRow, Multipliers, Eliminate, ColumnReplaced, UnusedKept;
    ghost var s := a[..];
    ghost var m := Columns(s, lda, n);
    ghost var mult := Multipliers(m[k], k, l);
    ColumnFits(a.Length, lda, n, k);
    ScalePivotColumn(a, lda, n, k, l, roll);
    ReplacingOneColumn(s, a[..], lda, n, k, mult);
    KeepsUnusedOfSelf(s, lda, n);
    ReplacingKeepsUnused(s, s, a[..], lda, n, k, mult);
    PartStepStart(m, k, l);
    var j := k + 1;
    while j < n
      invariant k < j <= n
      invariant Columns(a[..], lda, n) == PartStep(m, k, j)
      invariant UnusedKept(s, a[..], lda, n)
    {
      ghost var t := a[..];
      PartStepNext(m, k, l, j);
      ColumnFits(a.Length, lda, n, j);
      EliminateColumn(a, lda, n, k, l, j, roll);
      ReplacingOneColumn(t, a[..], lda, n, j, Eliminate(m[j], k, l, mult));
      ReplacingKeepsUnused(s, t, a[..], lda, n, j, Eliminate(m[j], k, l, mult));
      j := j + 1;
    }
    PartStepEnd(m, k);
  }

  lemma KeepsUnusedOfSelf(s: seq<real>, lda: nat, n: nat)
    ensures UnusedKept(s, s, lda, n)
  {}

  lemma PartStepStart(m: Matrix, k: nat, l: nat)
    requires Square(m, |m|) && k < |m| && l == PivotRow(m[k], k) && m[k][l] != 0.0
    ensures PartStep(m, k, k + 1) == m[k := Multipliers(m[k], k, l)]
  {
    hide Multipliers, Eliminate;
  }

  lemma PartStepNext(m: Matrix, k: nat, l: nat, j: nat)
    requires Square(m, |m|) && k < j < |m| && l == PivotRow(m[k], k) && m[k][l] != 0.0
    ensures PartStep(m, k, j)[k] == Multipliers(m[k], k, l) && PartStep(m, k, j)[j] == m[j]
    ensures PartStep(m, k, j + 1) == PartStep(m, k, j)[j := Eliminate(m[j], k, l, Multipliers(m[k], k, l))]
  {
    hide Multipliers, Eliminate;
  }

  lemma PartStepEnd(m: Matrix, k: nat)
    requires Square(m, |m|) && k < |m|
    ensures PartStep(m, k, |m|) == Step(m, k)
  {
    hide StepColumn;
  }

  lemma ZeroPivotStep(m: Matrix, k: nat)
    requires Square(m, |m|) && k < |m| && m[k][PivotRow(m[k], k)] == 0.0
    ensures Step(m, k) == m && m[k][k] == 0.0
  {
    PivotRowIsPivot(m[k], k);
  }

  lemma StepDiagonal(m: Matrix, k: nat)
    requires Square(m, |m|) && k < |m|
    ensures Step(m, k)[k][k] == m[k][PivotRow(m[k], k)]
  {
    if m[k][PivotRow(m[k], k)] == 0.0 {
      ZeroPivotStep(m, k);
    }
  }

  lemma {:induction false} InfoAgrees(m: Matrix, s: Matrix, c: nat)
    requires c <= |m| && c <= |s|
    requires forall j :: 0 <= j < c ==> j < |m[j]| && s[j] == m[j]
    ensures Info(m, c) == Info(s, c)
  {
    if c > 0 {
      InfoAgrees(m, s, c - 1);
    }
  }

  lemma InfoNext(m: Matrix, k: nat, info: nat)
    requires Square(m, |m|) && k < |m| && info == Info(m, k)
    ensures Info(Step(m, k), k + 1) == if m[k][PivotRow(m[k], k)] == 0.0 then k else info
  {
    forall j | 0 <= j < k ensures Step(m, k)[j] == m[j] {
      StepKeepsColumn(m, j, k);
    }
    InfoAgrees(m, Step(m, k), k);
    StepDiagonal(m, k);
  }

  lemma ShiftedPivot(v: Vec, k: nat, r: nat)
    requires k < |v| && IsPivot(v[k..], 0, r)
    ensures r + k == PivotRow(v, k)
  {
    assert forall i :: k <= i < |v| ==> v[i] == v[k..][i - k];
    PivotIsUnique(v, k, r + k);
  }

  /** Find l, the pivot row of column k. */
  method FindPivot(a: array<real>, lda: nat, n: nat, k: nat) returns (l: nat)
    requires Fits(a.Length, lda, n) && k < n
    ensures k <= l < n && l == PivotRow(Columns(a[..], lda, n)[k], k)
  {
    ColumnFits(a.Length, lda, n, k);
    ghost var v := Column(a[..], lda, n, k);
    var r := Idamax(n - k, a, lda * k + k);
    SliceOfColumn(a[..], lda, n, k, k, n);
    assert v == Columns(a[..], lda, n)[k];
    ShiftedPivot(v, k, r);
    l := r + k;
  }

  /** Pass k of the outer loop: choose the pivot row, then interchange, scale and
      eliminate, or note a zero pivot in info. */
  method DgefaPass(a: array<real>, lda: nat, n: nat, k: nat, noted: nat, roll: bool) returns (l: nat, info: nat)
    requires Fits(a.Length, lda, n) && k < n && noted == Info(Columns(a[..], lda, n), k)
    modifies a
    ensures Columns(a[..], lda, n) == Step(Columns(old(a[..]), lda, n), k)
    ensures k <= l < n && l == PivotRow(Columns(old(a[..]), lda, n)[k], k)
    ensures info == Info(Columns(a[..], lda, n), k + 1)
    ensures UnusedKept(old(a[..]), a[..], lda, n)
  {
    hide Step, PivotRow, UnusedKept;
    ghost var m := Columns(a[..], lda, n);
    info := noted;
    l := FindPivot(a, lda, n, k);
    ColumnFits(a.Length, lda, n, k);
    assert a[lda * k + l] == Column(a[..], lda, n, k)[l] == m[k][l];
    InfoNext(m, k, noted);
    if a[lda * k + l] != 0.0 {
      PivotStep(a, lda, n, k, l, roll);
    } else {
      ZeroPivotStep(m, k);
      KeepsUnusedOfSelf(a[..], lda, n);
      info := k;
    }
  }

  lemma UnusedKeptTwice(r: seq<real>, s: seq<real>, t: seq<real>, lda: nat, n: nat)
    requires UnusedKept(r, s, lda, n) && UnusedKept(s, t, lda, n)
    ensures UnusedKept(r, t, lda, n)
  {}

  lemma InfoLast(m: Matrix, info: nat)
    requires |m| > 0 && Square(m, |m|) && info == Info(m, |m| - 1)
    ensures Info(m, |m|) == if m[|m| - 1][|m| - 1] == 0.0 then |m| - 1 else info
  {}

  /** Factor the matrix in place. */
  method Dgefa(a: array<real>, lda: nat, n: nat, ipvt: array<int>, roll: bool) returns (info: int)
    requires Fits(a.Length, lda, n) && n <= ipvt.Length
    modifies a, ipvt
    ensures Columns(a[..], lda, n) == Factored(Columns(old(a[..]), lda, n))
    ensures forall k :: 0 <= k < n - 1 ==> ipvt[k] == Pivot(Columns(old(a[..]), lda, n), k)
    ensures ipvt[n - 1] == n - 1
    ensures info == Info(Columns(a[..], lda, n), n)
    ensures UnusedKept(old(a[..]), a[..], lda, n)
    ensures forall k :: n <= k < ipvt.Length ==> ipvt[k] == old(ipvt[k])
  {
    hide Step, PivotRow, UnusedKept, Columns;
    ghost var s := a[..];
    ghost var m := Columns(s, lda, n);
    KeepsUnusedOfSelf(s, lda, n);
    info := 0;
    assert info == Info(m, 0);
    hide Info;
    var k := 0;
    while k < n - 1
      invariant 0 <= k <= n - 1
      invariant Columns(a[..], lda, n) == Stage(m, k)
      invariant forall i :: 0 <= i < k ==> ipvt[i] == Pivot(m, i)
      invariant 0 <= info == Info(Stage(m, k), k)
      invariant UnusedKept(s, a[..], lda, n)
      invariant forall i :: n <= i < ipvt.Length ==> ipvt[i] == old(ipvt[i])
    {
      ghost var t := a[..];
      ipvt[k], info := DgefaPass(a, lda, n, k, info, roll);
      UnusedKeptTwice(s, t, a[..], lda, n);
      k := k + 1;
    }
    ipvt[n - 1] := n - 1;
    EntryAt(a[..], lda, n, n - 1, n - 1);
    InfoLast(Columns(a[..], lda, n), info);
    if a[lda * (n - 1) + (n - 1)] == 0.0 {
      info := n - 1;
    }
  }

  ghost function AsRows(p: seq<int>, n: nat): (r: seq<nat>)
    requires forall i :: 0 <= i < |p| ==> 0 <= p[i] < n
    ensures |r| == |p| && forall i :: 0 <= i < |p| ==> r[i] == p[i]
  {
    seq(|p|, i requires 0 <= i < |p| => p[i] as nat)
  }

  /** Replay interchange and multipliers of step k on b. */
  method ReplayStep(a: array<real>, lda: nat, n: nat, k: nat, l: nat, b: array<real>, roll: bool)
    requires Fits(a.Length, lda, n) && n <= b.Length && a != b && k < n && l < n
    modifies b
    ensures ColumnReplaced(old(b[..]), b[..], lda, n, 0, Eliminate(old(b[..n]), k, l, Columns(a[..], lda, n)[k]))
  {
    hide Swap, Axpy, Eliminate, ColumnReplaced;
    ColumnFits(a.Length, lda, n, k);
    ghost var s := b[..];
    ghost var y, mult := Column(s, lda, n, 0), Column(a[..], lda, n, k);
    assert y == b[..n] && mult == Columns(a[..], lda, n)[k];
    var t := b[l];
    assert t == y[l];
    Interchange(b, 0, k, l);
    ghost var s1 := b[..];
    SwapInColumn(s, lda, n, 0, k, l);
    ReplacedColumn(s, s1, lda, n, 0, Swap(y, k, l));
    var c := lda * k;
    SliceOfColumn(a[..], lda, n, k, k + 1, n);
    assert a[c + k + 1..c + n] == mult[k + 1..n] == mult[k + 1..];
    Daxpy(n - (k + 1), t, a, c + k + 1, b, k + 1, roll);
    AxpyInColumn(s1, lda, n, 0, k + 1, t, mult[k + 1..]);
    EliminateByAxpy(y, k, l, mult);
    ReplacedTwice(s, s1, b[..], lda, n, 0, Swap(y, k, l), Eliminate(y, k, l, mult));
  }

  /** Solve for unknown k and remove its column from the rows above. */
  method SubstituteColumn(a: array<real>, lda: nat, n: nat, k: nat, b: array<real>, roll: bool)
    requires Fits(a.Length, lda, n) && n <= b.Length && a != b && k < n
    requires Columns(a[..], lda, n)[k][k] != 0.0
    modifies b
    ensures ColumnReplaced(old(b[..]), b[..], lda, n, 0, Substitute(Columns(a[..], lda, n)[k], old(b[..n]), k))
  {
    hide Axpy, Substitute;
    ColumnFits(a.Length, lda, n, k);
    ghost var s := b[..];
    ghost var y, u := Column(s, lda, n, 0), Column(a[..], lda, n, k);
    assert y == b[..n] && u == Columns(a[..], lda, n)[k];
    var c := lda * k;
    assert a[c + k] == u[k];
    ghost var q := y[k] / u[k];
    b[k] := b[k] / a[c + k];
    ghost var s1 := b[..];
    assert ColumnReplaced(s, s1, lda, n, 0, y[k := q]);
    var t := -b[k];
    SliceOfColumn(a[..], lda, n, k, 0, k);
    Daxpy(k, t, a, c, b, 0, roll);
    AxpyInColumn(s1, lda, n, 0, 0, t, u[..k]);
    SubstituteByAxpy(u, y, k, q);
    ReplacedTwice(s, s1, b[..], lda, n, 0, y[k := q], Substitute(u, y, k));
  }

  lemma ForwardNext(f: Matrix, p: seq<nat>, b: Vec, k: nat)
    requires Square(f, |b|) && k < |b| && k < |p| && forall j :: 0 <= j <= k ==> p[j] < |b|
    ensures Forward(f, p, b, k + 1) == Eliminate(Forward(f, p, b, k), k, p[k], f[k])
  {
    hide Eliminate;
  }

  /** First half of dgesl: replay the recorded row operations on b. */
  method SolveLower(a: array<real>, lda: nat, n: nat, ipvt: array<int>, b: array<real>, roll: bool)
    requires Fits(a.Length, lda, n) && n <= ipvt.Length && n <= b.Length && a != b
    requires forall k :: 0 <= k < n - 1 ==> 0 <= ipvt[k] < n
    modifies b
    ensures b[..n] == Forward(Columns(a[..], lda, n), AsRows(ipvt[..n - 1], n), old(b[..n]), n - 1)
    ensures b[n..] == old(b[n..])
  {
    hide Columns;
    ghost var f, p, y := Columns(a[..], lda, n), AsRows(ipvt[..n - 1], n), b[..n];
    if n - 1 >= 1 {
      hide Eliminate;
      var k := 0;
      while k < n - 1
        invariant 0 <= k <= n - 1
        invariant b[..n] == Forward(f, p, y, k)
        invariant b[n..] == old(b[n..])
      {
        hide Forward;
        ghost var s := b[..];
        ForwardNext(f, p, y, k);
        ReplayStep(a, lda, n, k, ipvt[k], b, roll);
        ReplacedFront(s, b[..], lda, n, Eliminate(s[..n], k, ipvt[k], f[k]));
        k := k + 1;
      }
    }
  }

  lemma ReplacedFront(s: seq<real>, t: seq<real>, lda: nat, n: nat, v: Vec)
    requires ColumnReplaced(s, t, lda, n, 0, v)
    ensures |t| == |s| && n <= |s| && t[..n] == v && t[n..] == s[n..]
  {
    assert t[..n] == Column(t, lda, n, 0);
  }

  lemma BackSolveNext(f: Matrix, y: Vec, c: nat)
    requires Square(f, |y|) && 0 < c <= |y| && DiagonalNonzero(f, c)
    ensures BackSolve(f, y, c) == BackSolve(f, Substitute(f[c - 1], y, c - 1), c - 1)
  {}

  /** Second half of dgesl: substitute backwards through the triangle. */
  method SolveUpper(a: array<real>, lda: nat, n: nat, b: array<real>, roll: bool)
    requires Fits(a.Length, lda, n) && n <= b.Length && a != b
    requires DiagonalNonzero(Columns(a[..], lda, n), n)
    modifies b
    ensures b[..n] == BackSolve(Columns(a[..], lda, n), old(b[..n]), n)
    ensures b[n..] == old(b[n..])
  {
    hide Substitute;
    ghost var f, y := Columns(a[..], lda, n), b[..n];
    var kb := 0;
    while kb < n
      invariant 0 <= kb <= n
      invariant BackSolve(f, y, n) == BackSolve(f, b[..n], n - kb)
      invariant b[n..] == old(b[n..])
    {
      hide BackSolve;
      var k := n - (kb + 1);
      ghost var s := b[..];
      BackSolveNext(f, s[..n], n - kb);
      SubstituteColumn(a, lda, n, k, b, roll);
      ReplacedFront(s, b[..], lda, n, Substitute(f[k], s[..n], k));
      kb := kb + 1;
    }
  }

  /** Solve with the factored matrix and the recorded pivot rows. */
  method Dgesl(a: array<real>, lda: nat, n: nat, ipvt: array<int>, b: array<real>, roll: bool)
    requires Fits(a.Length, lda, n) && n <= ipvt.Length && n <= b.Length && a != b
    requires forall k :: 0 <= k < n - 1 ==> 0 <= ipvt[k] < n
    requires DiagonalNonzero(Columns(a[..], lda, n), n)
    modifies b
    ensures var f := Columns(a[..], lda, n);
            b[..n] == BackSolve(f, Forward(f, AsRows(ipvt[..n - 1], n), old(b[..n]), n - 1), n)
    ensures b[n..] == old(b[n..])
  {
    SolveLower(a, lda, n, ipvt, b, roll);
    SolveUpper(a, lda, n, b, roll);
  }

  /** Factor, then solve: for every nonsingular system, b ends as its one solution,
      whichever kernels are used. */
  method FactorAndSolve(a: array<real>, lda: nat, n: nat, ipvt: array<int>, b: array<real>, roll: bool)
    returns (info: int)
    requires Fits(a.Length, lda, n) && n <= ipvt.Length && n <= b.Length && a != b
    requires NonSingular(Columns(a[..], lda, n), n)
    modifies a, ipvt, b
    ensures Solves(Columns(old(a[..]), lda, n), b[..n], old(b[..n]))
    ensures forall x: Vec :: Solves(Columns(old(a[..]), lda, n), x, old(b[..n])) ==> x == b[..n]
    ensures info == 0
    ensures Columns(a[..], lda, n) == Factored(Columns(old(a[..]), lda, n))
    ensures forall k :: 0 <= k < n - 1 ==> ipvt[k] == Pivot(Columns(old(a[..]), lda, n), k)
    ensures ipvt[n - 1] == n - 1
  {
    hide Factored, BackSolve, Forward, Solves, NonSingular;
    ghost var m, b0 := Columns(a[..], lda, n), b[..n];
    info := Dgefa(a, lda, n, ipvt, roll);
    DiagonalDecides(m);
    InfoMeaning(Factored(m), n);
    assert AsRows(ipvt[..n - 1], n) == Pivots(m, n - 1);
    Dgesl(a, lda, n, ipvt, b, roll);
    ghost var x0 := b[..n];
    SolvesOriginal(m, b0, x0);
    forall x: Vec | Solves(m, x, b0) ensures x == x0 {
      SolutionLength(m, x, b0);
      SolvesOriginal(m, b0, x);
    }
  }

  lemma SolutionLength(m: Matrix, x: Vec, b: Vec)
    requires Solves(m, x, b)
    ensures |x| == |b|
  {}

  // ------------------------------------------------------------- matgen

  /** The generator's value after t draws. */
  function Draw(t: nat): (r: nat)
    ensures r < 65536
  {
    if t == 0 then 1325 else 3125 * Draw(t - 1) % 65536
  }

  // ------------------------------------------------- the generator's period

  function Times(a: nat, b: nat): (r: nat)
    ensures r < 65536
  {
    a * b % 65536
  }

  /** 3125 to the power 2^k, modulo 65536. */
  function Power(k: nat): (r: nat)
    ensures r < 65536
  {
    if k == 0 then 3125 else Times(Power(k - 1), Power(k - 1))
  }

  function TwoTo(k: nat): nat {
    if k == 0 then 1 else 2 * TwoTo(k - 1)
  }

  lemma TimesFirst(a: nat, x: nat)
    ensures a * (x % 65536) % 65536 == a * x % 65536
  {
    var q, r := x / 65536, x % 65536;
    assert a * x == a * r + 65536 * (a * q);
  }

  lemma TimesTwice(p: nat, x: nat)
    ensures Times(p, Times(p, x)) == Times(Times(p, p), x)
  {
    TimesFirst(p, p * x);
    TimesFirst(x, p * p);
    assert p * (p * x) == x * (p * p);
    assert (p * p % 65536) * x == x * (p * p % 65536);
  }

  lemma DrawNext(t: nat)
    ensures Draw(t + 1) == Times(3125, Draw(t))
  {}

  /** 2^k draws at once. */
  lemma {:induction false} DrawJump(t: nat, k: nat)
    ensures Draw(t + TwoTo(k)) == Times(Power(k), Draw(t))
    decreases k
  {
    hide Draw, Times;
    if k == 0 {
      DrawNext(t);
    } else {
      DrawJump(t, k - 1);
      DrawJump(t + TwoTo(k - 1), k - 1);
      assert t + TwoTo(k) == t + TwoTo(k - 1) + TwoTo(k - 1);
      TimesTwice(Power(k - 1), Draw(t));
    }
  }

  lemma PowerStep(k: nat, p: nat)
    requires p == Power(k) * Power(k) % 65536
    ensures Power(k + 1) == p && TwoTo(k + 1) == 2 * TwoTo(k)
  {}

  lemma FourteenSquarings()
    ensures Power(14) == 1 && TwoTo(14) == 16384
  {
    assert Power(0) == 3125 && TwoTo(0) == 1;
    hide Power, TwoTo;
    PowerStep(0, 761);
    PowerStep(1, 54833);
    PowerStep(2, 62817);
    PowerStep(3, 52929);
    PowerStep(4, 11649);
    PowerStep(5, 39681);
    PowerStep(6, 13825);
    PowerStep(7, 27649);
    PowerStep(8, 55297);
    PowerStep(9, 45057);
    PowerStep(10, 24577);
    PowerStep(11, 49153);
    PowerStep(12, 32769);
    PowerStep(13, 1);
  }

  /** The generator repeats itself after 2^14 draws. */
  lemma DrawPeriod(t: nat)
    ensures Draw(t + 16384) == Draw(t)
  {
    FourteenSquarings();
    hide Power, TwoTo, Draw;
    DrawJump(t, 14);
  }

  lemma {:induction false} DrawPeriods(t: nat, c: nat)
    ensures Draw(t + 16384 * c) == Draw(t)
  {
    hide Draw;
    if c > 0 {
      DrawPeriods(t, c - 1);
      DrawPeriod(t + 16384 * (c - 1));
    }
  }

  function Scaled(draw: int): real {
    (draw as real - 32768.0) / 16384.0
  }

  /** The benchmark matrix: draw n*j+i+1, scaled, at row i of column j. */
  ghost function Generated(n: nat): (m: Matrix)
    ensures Square(m, n)
    ensures forall j, i :: 0 <= j < n && 0 <= i < n ==> m[j][i] == Scaled(Draw(Off(n, j) + i + 1))
  {
    seq(n, j requires 0 <= j < n => seq(n, i requires 0 <= i < n => Scaled(Draw(Off(n, j) + i + 1))))
  }

  /** For these sizes column d of the benchmark matrix repeats column 0, so that the matrix
      is singular and the solver divides by zero. */
  lemma RepeatedColumns(n: nat, d: nat)
    requires 0 < d < n && n * d % 16384 == 0
    ensures Generated(n)[d] == Generated(n)[0] && !NonSingular(Generated(n), n)
  {
    var m := Generated(n);
    OffIsProduct(n, d);
    hide Draw;
    forall i | 0 <= i < n ensures m[d][i] == m[0][i] {
      DrawPeriods(i + 1, n * d / 16384);
      assert Off(n, d) + i + 1 == i + 1 + 16384 * (n * d / 16384);
    }
    hide Generated, NonSingular;
    EqualColumnsSingular(m, n, 0, d);
  }

  /** The option arraysize=512 asks for such a size. */
  lemma Size256IsSingular()
    ensures !NonSingular(Generated(256), 256)
  {
    hide Generated, NonSingular;
    RepeatedColumns(256, 64);
  }

  lemma DrawIs(t: nat, draw: nat, next: nat)
    requires Draw(t) == draw && next == 3125 * draw % 65536
    ensures Draw(t + 1) == next
  {}

  lemma FirstDraws()
    ensures Draw(1) == 11857 && Draw(2) == 25285 && Draw(3) == 44745 && Draw(4) == 39837 && Draw(5) == 37761
    ensures Draw(6) == 38325 && Draw(7) == 31353 && Draw(8) == 1805 && Draw(9) == 4529 && Draw(10) == 62885
    ensures Draw(11) == 38697 && Draw(12) == 14205 && Draw(13) == 22753 && Draw(14) == 62101 && Draw(15) == 13529
    ensures Draw(16) == 7405 && Draw(17) == 6417 && Draw(18) == 64645 && Draw(19) == 33673 && Draw(20) == 42845
    ensures Draw(21) == 577 && Draw(22) == 33653 && Draw(23) == 45881 && Draw(24) == 50893 && Draw(25) == 50289
  {
    assert Draw(0) == 1325;
    hide Draw;
    DrawIs(0, 1325, 11857);
    DrawIs(1, 11857, 25285);
    DrawIs(2, 25285, 44745);
    DrawIs(3, 44745, 39837);
    DrawIs(4, 39837, 37761);
    DrawIs(5, 37761, 38325);
    DrawIs(6, 38325, 31353);
    DrawIs(7, 31353, 1805);
    DrawIs(8, 1805, 4529);
    DrawIs(9, 4529, 62885);
    DrawIs(10, 62885, 38697);
    DrawIs(11, 38697, 14205);
    DrawIs(12, 14205, 22753);
    DrawIs(13, 22753, 62101);
    DrawIs(14, 62101, 13529);
    DrawIs(15, 13529, 7405);
    DrawIs(16, 7405, 6417);
    DrawIs(17, 6417, 64645);
    DrawIs(18, 64645, 33673);
    DrawIs(19, 33673, 42845);
    DrawIs(20, 42845, 577);
    DrawIs(21, 577, 33653);
    DrawIs(22, 33653, 45881);
    DrawIs(23, 45881, 50893);
    DrawIs(24, 50893, 50289);
  }

  /** Five generated entries times x. */
  ghost function RowOfFive(p: int, q: int, r: int, s: int, t: int, x: Vec): real
    requires |x| == 5
  {
    Product(Scaled(p), x[0]) + Product(Scaled(q), x[1]) + Product(Scaled(r), x[2])
    + Product(Scaled(s), x[3]) + Product(Scaled(t), x[4])
  }

  lemma RowSumNext(m: Matrix, x: Vec, i: nat, c: nat)
    requires Square(m, |x|) && i < |x| && c < |x|
    ensures RowSum(m, x, i, c + 1) == RowSum(m, x, i, c) + Product(m[c][i], x[c])
  {}

  lemma RowSumOfFive(m: Matrix, x: Vec, i: nat)
    requires Square(m, 5) && |x| == 5 && i < 5
    ensures RowSum(m, x, i, 5)
         == Product(m[0][i], x[0]) + Product(m[1][i], x[1]) + Product(m[2][i], x[2])
            + Product(m[3][i], x[3]) + Product(m[4][i], x[4])
  {
    assert RowSum(m, x, i, 0) == 0.0;
    hide RowSum, Product;
    RowSumNext(m, x, i, 0);
    RowSumNext(m, x, i, 1);
    RowSumNext(m, x, i, 2);
    RowSumNext(m, x, i, 3);
    RowSumNext(m, x, i, 4);
  }

  lemma EntriesOfFive(i: nat)
    requires i < 5
    ensures var m := Generated(5);
            && m[0][i] == Scaled(Draw(i + 1)) && m[1][i] == Scaled(Draw(i + 6)) && m[2][i] == Scaled(Draw(i + 11))
            && m[3][i] == Scaled(Draw(i + 16)) && m[4][i] == Scaled(Draw(i + 21))
  {
    forall j | 0 <= j < 5 ensures Off(5, j) == 5 * j {
      OffIsProduct(5, j);
    }
    hide Draw, Scaled, Off;
  }

  ghost function GeneratedRow(x: Vec, i: nat): real
    requires |x| == 5
  {
    RowOfFive(Draw(i + 1), Draw(i + 6), Draw(i + 11), Draw(i + 16), Draw(i + 21), x)
  }

  /** A vector in the kernel, row by row. */
  lemma KernelOfFive(x: Vec)
    requires Solves(Generated(5), x, Zeros(5))
    ensures |x| == 5
    ensures forall i :: 0 <= i < 5 ==> GeneratedRow(x, i) == 0.0
  {
    hide Scaled, Draw, Generated, Product;
    forall i | 0 <= i < 5 ensures GeneratedRow(x, i) == 0.0 {
      RowSumOfFive(Generated(5), x, i);
      EntriesOfFive(i);
    }
  }

  lemma Unscaled(d: int, x: real)
    ensures Product(Scaled(d), x) == (d as real - 32768.0) * x / 16384.0
  {}

  lemma RowUnscaled(p: int, q: int, r: int, s: int, t: int, x: Vec)
    requires |x| == 5 && RowOfFive(p, q, r, s, t, x) == 0.0
    ensures (p as real - 32768.0) * x[0] + (q as real - 32768.0) * x[1] + (r as real - 32768.0) * x[2]
            + (s as real - 32768.0) * x[3] + (t as real - 32768.0) * x[4] == 0.0
  {
    hide Product, Scaled;
    Unscaled(p, x[0]);
    Unscaled(q, x[1]);
    Unscaled(r, x[2]);
    Unscaled(s, x[3]);
    Unscaled(t, x[4]);
  }

  lemma OnlyZero(a: real, b: real, c: real, d: real, e: real)
    requires (-20911.0) * a + 5557.0 * b + 5929.0 * c + (-25363.0) * d + (-32191.0) * e == 0.0
    requires (-7483.0) * a + (-1415.0) * b + (-18563.0) * c + (-26351.0) * d + 885.0 * e == 0.0
    requires 11977.0 * a + (-30963.0) * b + (-10015.0) * c + 31877.0 * d + 13113.0 * e == 0.0
    requires 7069.0 * a + (-28239.0) * b + 29333.0 * c + 905.0 * d + 18125.0 * e == 0.0
    requires 4993.0 * a + 30117.0 * b + (-19239.0) * c + 10077.0 * d + 17521.0 * e == 0.0
    ensures a == b == c == d == e == 0.0
  {}

  lemma OnlyZeroInKernel(x: Vec)
    requires |x| == 5
    requires RowOfFive(11857, 38325, 38697, 7405, 577, x) == 0.0
    requires RowOfFive(25285, 31353, 14205, 6417, 33653, x) == 0.0
    requires RowOfFive(44745, 1805, 22753, 64645, 45881, x) == 0.0
    requires RowOfFive(39837, 4529, 62101, 33673, 50893, x) == 0.0
    requires RowOfFive(37761, 62885, 13529, 42845, 50289, x) == 0.0
    ensures x == Zeros(5)
  {
    hide RowOfFive;
    RowUnscaled(11857, 38325, 38697, 7405, 577, x);
    RowUnscaled(25285, 31353, 14205, 6417, 33653, x);
    RowUnscaled(44745, 1805, 22753, 64645, 45881, x);
    RowUnscaled(39837, 4529, 62101, 33673, 50893, x);
    RowUnscaled(37761, 62885, 13529, 42845, 50289, x);
    OnlyZero(x[0], x[1], x[2], x[3], x[4]);
  }

  /** The smallest size the program accepts is nonsingular. */
  lemma Size5IsNonSingular()
    ensures NonSingular(Generated(5), 5)
  {
    forall x: Vec | Solves(Generated(5), x, Zeros(5)) ensures x == Zeros(5) {
      KernelOfFive(x);
      FirstDraws();
      hide Draw, RowOfFive, Solves;
      assert GeneratedRow(x, 0) == GeneratedRow(x, 1) == GeneratedRow(x, 2) == GeneratedRow(x, 3) == GeneratedRow(x, 4);
      OnlyZeroInKernel(x);
    }
  }

  ghost function Ones(n: nat): (v: Vec)
    ensures |v| == n && forall i :: 0 <= i < n ==> v[i] == 1.0
  {
    seq(n, i => 1.0)
  }

  /** The columns before column j, and column j above row i, hold the generated
      entries. */
  ghost predicate FilledTo(s: seq<real>, lda: nat, n: nat, j: nat, i: nat) {
    && Fits(|s|, lda, n)
    && (forall c, r :: 0 <= c < j && c < n && 0 <= r < n ==> Columns(s, lda, n)[c][r] == Generated(n)[c][r])
    && (forall r :: 0 <= r < i && j < n && r < n ==> Columns(s, lda, n)[j][r] == Generated(n)[j][r])
  }

  lemma WriteInColumn(s: seq<real>, lda: nat, n: nat, j: nat, i: nat, x: real)
    requires Fits(|s|, lda, n) && j < n && i < n && 0 <= lda * j + i < |s|
    ensures ColumnReplaced(s, s[lda * j + i := x], lda, n, j, Columns(s, lda, n)[j][i := x])
    ensures Columns(s[lda * j + i := x], lda, n) == Columns(s, lda, n)[j := Columns(s, lda, n)[j][i := x]]
  {
    ColumnFits(|s|, lda, n, j);
    var t := s[lda * j + i := x];
    assert Column(t, lda, n, j) == Column(s, lda, n, j)[i := x];
    ReplacingOneColumn(s, t, lda, n, j, Column(s, lda, n, j)[i := x]);
  }

  lemma FilledNext(s: seq<real>, lda: nat, n: nat, j: nat, i: nat, x: real)
    requires FilledTo(s, lda, n, j, i) && j < n && i < n && 0 <= lda * j + i < |s| && x == Generated(n)[j][i]
    ensures FilledTo(s[lda * j + i := x], lda, n, j, i + 1)
  {
    hide Columns, Generated;
    WriteInColumn(s, lda, n, j, i, x);
  }

  lemma FilledAll(s: seq<real>, lda: nat, n: nat)
    requires FilledTo(s, lda, n, n, 0)
    ensures Columns(s, lda, n) == Generated(n)
  {
    hide Columns, Generated;
    forall c | 0 <= c < n ensures Columns(s, lda, n)[c] == Generated(n)[c] {
      assert forall r :: 0 <= r < n ==> Columns(s, lda, n)[c][r] == Generated(n)[c][r];
    }
  }

  /** norma is the largest entry seen in draws 1 .. t, or 0 if all are negative. */
  ghost predicate IsNorm(norma: real, t: nat) {
    && norma >= 0.0
    && (forall d :: 1 <= d <= t ==> Scaled(Draw(d)) <= norma)
    && (norma == 0.0 || exists d :: 1 <= d <= t && Scaled(Draw(d)) == norma)
  }

  lemma NormNext(norma: real, t: nat, x: real)
    requires IsNorm(norma, t) && x == Scaled(Draw(t + 1))
    ensures IsNorm(if x > norma then x else norma, t + 1)
  {}

  /** Fill the matrix from the generator. */
  method FillMatrix(a: array<real>, lda: nat, n: nat) returns (norma: real)
    requires Fits(a.Length, lda, n)
    modifies a
    ensures Columns(a[..], lda, n) == Generated(n)
    ensures IsNorm(norma, Off(n, n))
  {
    hide IsNorm, FilledTo, Scaled, Columns;
    var init := 1325;
    norma := 0.0;
    assert IsNorm(norma, 0) && FilledTo(a[..], lda, n, 0, 0) by {
      FilledNone(a[..], lda, n);
    }
    var j := 0;
    while j < n
      invariant 0 <= j <= n && init == Draw(Off(n, j))
      invariant FilledTo(a[..], lda, n, j, 0) && IsNorm(norma, Off(n, j))
    {
      ColumnFits(a.Length, lda, n, j);
      var i := 0;
      while i < n
        invariant 0 <= i <= n && init == Draw(Off(n, j) + i)
        invariant FilledTo(a[..], lda, n, j, i) && IsNorm(norma, Off(n, j) + i)
      {
        init := 3125 * init % 65536;
        var x := Scaled(init);
        FilledNext(a[..], lda, n, j, i, x);
        NormNext(norma, Off(n, j) + i, x);
        a[lda * j + i] := x;
        norma := if a[lda * j + i] > norma then a[lda * j + i] else norma;
        i := i + 1;
      }
      FilledColumn(a[..], lda, n, j);
      j := j + 1;
    }
    FilledAll(a[..], lda, n);
  }

  lemma FilledNone(s: seq<real>, lda: nat, n: nat)
    requires Fits(|s|, lda, n)
    ensures FilledTo(s, lda, n, 0, 0) && IsNorm(0.0, 0)
  {}

  lemma FilledColumn(s: seq<real>, lda: nat, n: nat, j: nat)
    requires FilledTo(s, lda, n, j, n) && j < n
    ensures FilledTo(s, lda, n, j + 1, 0)
  {
    hide Columns, Generated;
  }

  /** Set b to the row sums of the matrix. */
  method SumRows(a: array<real>, lda: nat, n: nat, b: array<real>)
    requires Fits(a.Length, lda, n) && n <= b.Length && a != b
    modifies b
    ensures forall i :: 0 <= i < n ==> b[i] == RowSum(Columns(a[..], lda, n), Ones(n), i, n)
    ensures b[n..] == old(b[n..])
  {
    hide Columns, Ones;
    ghost var m := Columns(a[..], lda, n);
    var i := 0;
    while i < n
      invariant 0 <= i <= n
      invariant forall r :: 0 <= r < i ==> b[r] == 0.0
      invariant b[n..] == old(b[n..])
    {
      b[i] := 0.0;
      i := i + 1;
    }
    var j := 0;
    while j < n
      invariant 0 <= j <= n
      invariant forall r :: 0 <= r < n ==> b[r] == RowSum(m, Ones(n), r, j)
      invariant b[n..] == old(b[n..])
    {
      i := 0;
      while i < n
        invariant 0 <= i <= n
        invariant forall r :: 0 <= r < n ==> b[r] == RowSum(m, Ones(n), r, if r < i then j + 1 else j)
        invariant b[n..] == old(b[n..])
      {
        EntryAt(a[..], lda, n, i, j);
        assert RowSum(m, Ones(n), i, j + 1) == RowSum(m, Ones(n), i, j) + m[j][i] * 1.0;
        b[i] := b[i] + a[lda * j + i];
        i := i + 1;
      }
      j := j + 1;
    }
  }

  /** Generate the benchmark system: its exact solution is all ones. */
  method Matgen(a: array<real>, lda: nat, n: nat, b: array<real>) returns (norma: real)
    requires Fits(a.Length, lda, n) && n <= b.Length && a != b
    modifies a, b
    ensures Columns(a[..], lda, n) == Generated(n)
    ensures Solves(Generated(n), Ones(n), b[..n])
    ensures IsNorm(norma, Off(n, n))
  {
    norma := FillMatrix(a, lda, n);
    SumRows(a, lda, n, b);
  }

  /** One timed repetition: whenever the generated matrix is nonsingular, b ends as
      the all-ones vector, with rolled and unrolled kernels alike. */
  method Repetition(a: array<real>, lda: nat, n: nat, ipvt: array<int>, b: array<real>, roll: bool)
    returns (norma: real, info: int)
    requires Fits(a.Length, lda, n) && n <= ipvt.Length && n <= b.Length && a != b
    requires NonSingular(Generated(n), n)
    modifies a, ipvt, b
    ensures b[..n] == Ones(n) && info == 0
    ensures Columns(a[..], lda, n) == Factored(Generated(n))
    ensures forall k :: 0 <= k < n - 1 ==> ipvt[k] == Pivot(Generated(n), k)
    ensures ipvt[n - 1] == n - 1
  {
    hide Factored, Pivot, Generated, Solves, NonSingular, Columns;
    norma := Matgen(a, lda, n, b);
    info := FactorAndSolve(a, lda, n, ipvt, b, roll);
  }
}
