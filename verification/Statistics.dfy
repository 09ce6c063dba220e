/** Evaluating the continued fraction of the incomplete beta function, over exact reals. */
module Statistics {
  import opened Basics
  import opened ContinuedFraction
  import opened IncompleteBeta

  function TenTo(n: nat): (r: real)
    ensures r > 0.0
  {
    if n == 0 then 1.0 else 10.0 * TenTo(n - 1)
  }

  function TwoTo(n: nat): (r: real)
    ensures r >= 1.0
  {
    if n == 0 then 1.0 else 2.0 * TwoTo(n - 1)
  }

  const EPS: real := 2.22 / TenTo(16)
  const XMININ: real := 2.23 / TenTo(308)
  const PRECISION: real := 4.0 * EPS
  const MAX_ITERATIONS: nat := 10000
  const ACCURACY: real := 1.0 / TenTo(7)

  // ------------------------------------------------------------ betaFraction

  /** No guard fires at step n: neither denominator ratio nor numerator ratio is below the
      threshold. */
  ghost predicate QuietAt(d: Coefficients, n: nat)
    requires n >= 1
  {
    && Abs(Den(d, n)) >= Times(XMININ, Abs(Den(d, n - 1)))
    && Abs(Num(d, n)) >= Times(XMININ, Abs(Num(d, n - 1)))
  }

  ghost predicate Quiet(d: Coefficients, n: nat) {
    forall k :: 1 <= k <= n ==> QuietAt(d, k)
  }

  ghost predicate IsConvergent(d: Coefficients, n: nat, frac: real) {
    Den(d, n) != 0.0 && frac == Over(Num(d, n), Den(d, n))
  }

  /** The loop's state after n coefficients: h and c are the ratios of neighbouring
      denominators and numerators, and frac is the convergent. */
  ghost predicate AtConvergent(d: Coefficients, n: nat, h: real, c: real, frac: real)
    requires n >= 1
  {
    && Den(d, n - 1) != 0.0 && Den(d, n) != 0.0 && Num(d, n - 1) != 0.0 && Num(d, n) != 0.0
    && h == Over(Den(d, n - 1), Den(d, n)) && c == Over(Num(d, n), Num(d, n - 1))
    && IsConvergent(d, n, frac)
  }

  function Guarded(x: real): (r: real)
    ensures r != 0.0
  {
    if Abs(x) < XMININ then XMININ else x
  }

  lemma RatioStep(a: real, b: real, d: real)
    requires b != 0.0
    ensures 1.0 + Times(d, Over(a, b)) == Over(b + Times(d, a), b)
  {
    var r := Over(a, b);
    assert r * b == a;
    assert Over(b + Times(d, a), b) == 1.0 + Times(d, r) by {
      assert (1.0 + d * r) * b == b + d * (r * b);
      QuotientIs(1.0 + d * r, b + d * a, b);
    }
  }

  lemma RatioStepInverse(a: real, b: real, d: real)
    requires a != 0.0 && b != 0.0
    ensures Over(b, a) != 0.0 && 1.0 + Over(d, Over(b, a)) == Over(b + Times(d, a), b)
  {
    var r := b / a;
    assert r * a == b;
    var s := d / r;
    assert s * r == d;
    assert s * b == s * r * a;
    assert (1.0 + s) * b == b + s * b;
    QuotientIs(1.0 + s, b + d * a, b);
  }

  lemma TimesIncreases(a: real, b: real, c: real)
    requires a < b && c > 0.0
    ensures Times(a, c) < Times(b, c)
  {
    assert (b - a) * c > 0.0;
  }

  lemma FactorAtLeast(r: real, least: real, b: real)
    requires b > 0.0 && Times(r, b) >= Times(least, b)
    ensures r >= least
  {
    hide Times;
    if r < least {
      TimesIncreases(r, least, b);
    }
  }

  lemma AbsTimes(a: real, b: real)
    ensures Abs(Times(a, b)) == Times(Abs(a), Abs(b))
  {
    AbsOfProduct(a, b, Times(a, b));
  }

  lemma OverTimes(a: real, b: real)
    requires b != 0.0
    ensures Times(Over(a, b), b) == a
  {}

  lemma TimesPositive(a: real, b: real)
    requires a > 0.0 && b > 0.0
    ensures Times(a, b) > 0.0
  {}

  lemma XmininPositive()
    ensures XMININ > 0.0
  {
    var t := TenTo(308);
    assert 2.23 / t * t == 2.23;
  }

  /** A guard that fires moves a value that is too small up to the threshold. */
  lemma GuardMovesLittle(x: real)
    ensures Abs(x) >= XMININ ==> Guarded(x) == x
    ensures Abs(x) < XMININ ==> x < Guarded(x) == Abs(Guarded(x)) == XMININ < x + 2.0 * XMININ
  {
    XmininPositive();
    if Abs(x) < XMININ {
      GuardFor(XMININ, x);
    }
  }

  lemma GuardFor(least: real, x: real)
    requires least > 0.0 && Abs(x) < least
    ensures x < least == Abs(least) < x + 2.0 * least
  {}

  lemma QuietRatio(e: real, b: real)
    requires b != 0.0 && Abs(e) >= Times(XMININ, Abs(b))
    ensures e != 0.0 && Guarded(Over(e, b)) == Over(e, b)
  {
    XmininPositive();
    QuietRatioFor(XMININ, e, b);
  }

  lemma QuietRatioFor(least: real, e: real, b: real)
    requires least > 0.0 && b != 0.0 && Abs(e) >= Times(least, Abs(b))
    ensures e != 0.0 && Abs(Over(e, b)) >= least
  {
    hide Times, Over;
    OverTimes(e, b);
    AbsTimes(Over(e, b), b);
    TimesPositive(least, Abs(b));
    FactorAtLeast(Abs(Over(e, b)), least, Abs(b));
  }

  lemma Telescope(n0: real, n1: real, d0: real, d1: real)
    requires n0 != 0.0 && d0 != 0.0 && d1 != 0.0
    ensures Times(Over(n0, d0), Times(Over(d0, d1), Over(n1, n0))) == Over(n1, d1)
  {
    var x, y, z := n0 / d0, d0 / d1, n1 / n0;
    assert x * d0 == n0 && y * d1 == d0 && z * n0 == n1;
    assert x * (y * z) * d1 == x * z * (y * d1) == x * z * d0 == z * (x * d0) == n1;
  }

  lemma Invert(e: real, b: real)
    requires e != 0.0 && b != 0.0
    ensures Over(e, b) != 0.0 && Over(1.0, Over(e, b)) == Over(b, e)
  {
    assert e / b * b == e;
    assert b / e * e == b;
    assert (b / e) * (e / b) == 1.0;
  }

  /** One more coefficient: if the guards stay quiet, the updates of h, c and frac lead
      from one convergent to the next. */
  lemma StepIsConvergent(d: Coefficients, n: nat, h: real, c: real, frac: real)
    requires n >= 1 && c != 0.0 && AtConvergent(d, n, h, c, frac) && QuietAt(d, n + 1)
    ensures var h' := Over(1.0, Guarded(1.0 + Times(d(n + 1), h)));
            var c' := Guarded(1.0 + Over(d(n + 1), c));
            AtConvergent(d, n + 1, h', c', Times(frac, Times(h', c')))
  {
    hide Times, Over, Guarded;
    var e := d(n + 1);
    var d0, d1, d2 := Den(d, n - 1), Den(d, n), Den(d, n + 1);
    var n0, n1, n2 := Num(d, n - 1), Num(d, n), Num(d, n + 1);
    RatioStep(d0, d1, e);
    QuietRatio(d2, d1);
    Invert(d2, d1);
    RatioStepInverse(n0, n1, e);
    QuietRatio(n2, n1);
    Telescope(n1, n2, d1, d2);
  }

  /** What h starts from. */
  function FirstTerm(x: real, p: real, q: real): real
    requires p > 0.0
  {
    1.0 - (p + q) * x / (p + 1.0)
  }

  lemma FirstCoefficient(x: real, p: real, q: real)
    requires p > 0.0
    ensures 1.0 + Coefficient(x, p, q, 1) == FirstTerm(x, p, q)
  {
    var r := (p + q) * x / (p + 1.0);
    assert r * (p + 1.0) == (p + q) * x;
    assert -r * (p * (p + 1.0)) == -p * (r * (p + 1.0));
    QuotientIs(-r, -p * (p + q) * x, p * (p + 1.0));
  }

  lemma StopBelowOne()
    ensures 0.0 < PRECISION < 1.0
  {
    var t := TenTo(16);
    assert t == 10.0 * TenTo(15) && TenTo(15) == 10.0 * TenTo(14) && t >= 100.0 * TenTo(14);
    AtLeastOne(14);
    assert EPS * t == 2.22;
  }

  lemma {:induction false} AtLeastOne(n: nat)
    ensures TenTo(n) >= 1.0
  {
    if n > 0 {
      AtLeastOne(n - 1);
    }
  }

  /** The factor by which the last coefficient changed the convergent. */
  function Delta(d: Coefficients, n: nat): real
    requires n >= 1
  {
    if Den(d, n) == 0.0 || Num(d, n - 1) == 0.0 then 0.0
    else Times(Over(Den(d, n - 1), Den(d, n)), Over(Num(d, n), Num(d, n - 1)))
  }

  predicate Precise(d: Coefficients, k: nat) {
    Abs(Delta(d, 2 * k + 1) - 1.0) <= PRECISION
  }

  /** The first pass from k on whose last factor is within the precision, or the limit. */
  function LastPass(d: Coefficients, k: nat): (r: nat)
    requires k <= MAX_ITERATIONS
    ensures k <= r <= MAX_ITERATIONS
    ensures r < MAX_ITERATIONS ==> Precise(d, r)
    ensures forall i :: k <= i < r ==> !Precise(d, i)
    decreases MAX_ITERATIONS - k
  {
    if k == MAX_ITERATIONS || Precise(d, k) then k else LastPass(d, k + 1)
  }

  /** The incomplete beta function over (1-x)^q, as the fraction gives it for a natural
      number q that the passes reach. */
  ghost predicate IsBetaValue(x: real, p: real, q: nat, frac: real)
    requires p > 0.0 && q > 0
  {
    Power(1.0 - x, q) != 0.0 && frac == Over(BetaSum(x, p, q, q - 1), Power(1.0 - x, q))
  }

  /** The result is exact for every natural q up to `most`; spelled out for 1 and 2. */
  ghost predicate ExactUpTo(x: real, p: real, q: real, most: nat, frac: real)
    requires p > 0.0
  {
    && (forall j: nat :: q == j as real && 1 <= j <= most ==> IsBetaValue(x, p, j, frac))
    && (q == 1.0 ==> x != 1.0 && frac == 1.0 / (1.0 - x))
    && (q == 2.0 ==> x != 1.0 && frac == ValueForTwo(x, p))
  }

  /** betaFraction. If no guard fires up to the last pass, which is the first of at least
      one whose factor is within the precision, the result is the convergent that this
      pass completes. For a natural q not greater than the number of passes plus one it is
      the exact value, and this is always so for 1 and 2. */
  method BetaFraction(x: real, p: real, q: real) returns (frac: real)
    requires p > 0.0
    ensures var d := CoefficientsOf(x, p, q);
            var n := 2 * LastPass(d, 1) + 1;
            Quiet(d, n) ==> IsConvergent(d, n, frac) && ExactUpTo(x, p, q, LastPass(d, 1) + 1, frac)
  {
    hide Times, Over, Num, Den, Coefficient, FirstTerm, AtConvergent, Precise, LastPass;
    ghost var d := CoefficientsOf(x, p, q);
    ghost var last := LastPass(d, 1);
    var h := Over(1.0, Guarded(FirstTerm(x, p, q)));
    frac := h;
    var m, delta, c := 1, 0.0, 1.0;
    FirstConvergent(x, p, q);
    StopBelowOne();
    assert Quiet(d, 1) ==> AtConvergent(d, 1, h, 1.0, frac);
    while m <= MAX_ITERATIONS && Abs(delta - 1.0) > PRECISION
      invariant 1 <= m <= MAX_ITERATIONS + 1
      invariant c != 0.0
      invariant Quiet(d, 2 * last + 1) ==>
                  && m <= last + 1 && AtConvergent(d, 2 * m - 1, h, c, frac)
                  && (m == 1 ==> delta == 0.0) && (m > 1 ==> delta == Delta(d, 2 * m - 1))
      decreases MAX_ITERATIONS + 1 - m
    {
      ghost var n := 2 * m - 1;
      if Quiet(d, 2 * last + 1) {
        NotLastYet(d, m, delta);
        assert QuietAt(d, n + 1) && QuietAt(d, n + 2);
      }
      h, c, frac, delta := Pass(x, p, q, m, h, c, frac);
      m := m + 1;
    }
    if Quiet(d, 2 * last + 1) {
      LastReached(d, m, delta);
    }
    ConvergentReached(d, 2 * m - 1, h, c, frac);
    if Quiet(d, 2 * last + 1) {
      hide *;
      BetaValues(x, p, q, last, frac);
    }
  }

  lemma BetaValues(x: real, p: real, q: real, last: nat, frac: real)
    requires p > 0.0 && last >= 1 && IsConvergent(CoefficientsOf(x, p, q), 2 * last + 1, frac)
    ensures ExactUpTo(x, p, q, last + 1, frac)
  {
    hide Over, Power, BetaSum, Num, Den, CoefficientsOf;
    forall j: nat | q == j as real && 1 <= j <= last + 1 ensures IsBetaValue(x, p, j, frac) {
      FractionIsIncompleteBeta(x, p, j, 2 * last + 1);
    }
    if q == 1.0 {
      assert q == 1 as real;
      FirstValue(x, p, frac);
    }
    if q == 2.0 {
      assert q == 2 as real;
      SecondValue(x, p, frac);
    }
  }

  lemma FirstValue(x: real, p: real, frac: real)
    requires p > 0.0 && IsBetaValue(x, p, 1, frac)
    ensures x != 1.0 && frac == 1.0 / (1.0 - x)
  {
    PowerStep(1.0 - x, 0);
    hide BetaSum, Power;
    FirstValues(x, p);
  }

  lemma SecondValue(x: real, p: real, frac: real)
    requires p > 0.0 && IsBetaValue(x, p, 2, frac)
    ensures x != 1.0 && frac == ValueForTwo(x, p)
  {
    PowerStep(1.0 - x, 1);
    hide Over, BetaSum, Power, ValueForTwo;
    FirstValues(x, p);
  }

  lemma NotLastYet(d: Coefficients, m: nat, delta: real)
    requires 1 <= m <= MAX_ITERATIONS && m <= LastPass(d, 1) + 1
    requires m > 1 ==> delta == Delta(d, 2 * m - 1)
    requires Abs(delta - 1.0) > PRECISION
    ensures m <= LastPass(d, 1)
  {
    hide Delta, TenTo;
    if m > 1 {
      assert 2 * (m - 1) + 1 == 2 * m - 1;
      assert !Precise(d, m - 1);
    }
  }

  lemma LastReached(d: Coefficients, m: nat, delta: real)
    requires 1 <= m <= LastPass(d, 1) + 1
    requires (m == 1 ==> delta == 0.0) && (m > 1 ==> delta == Delta(d, 2 * m - 1))
    requires m > MAX_ITERATIONS || Abs(delta - 1.0) <= PRECISION
    ensures m == LastPass(d, 1) + 1
  {
    hide Delta, TenTo;
    StopBelowOne();
    if m > 1 && m <= MAX_ITERATIONS {
      assert 2 * (m - 1) + 1 == 2 * m - 1;
      assert Precise(d, m - 1);
    }
  }

  lemma ConvergentReached(d: Coefficients, n: nat, h: real, c: real, frac: real)
    requires n >= 1
    ensures AtConvergent(d, n, h, c, frac) ==> IsConvergent(d, n, frac)
  {}

  lemma FirstConvergent(x: real, p: real, q: real)
    requires p > 0.0
    ensures var d, h := CoefficientsOf(x, p, q), Over(1.0, Guarded(FirstTerm(x, p, q)));
            Quiet(d, 1) ==> AtConvergent(d, 1, h, 1.0, h)
  {
    var d := CoefficientsOf(x, p, q);
    FirstCoefficient(x, p, q);
    if Quiet(d, 1) {
      assert QuietAt(d, 1);
      QuietRatio(Den(d, 1), 1.0);
      TimesOne(1.0);
    }
  }

  /** One pass of the loop: an even and an odd coefficient. */
  method Pass(x: real, p: real, q: real, m: nat, h0: real, c0: real, frac0: real)
    returns (h: real, c: real, frac: real, delta: real)
    requires p > 0.0 && m >= 1 && c0 != 0.0
    ensures c != 0.0
    ensures var d, n := CoefficientsOf(x, p, q), 2 * m - 1;
            AtConvergent(d, n, h0, c0, frac0) && QuietAt(d, n + 1) && QuietAt(d, n + 2) ==>
              AtConvergent(d, n + 2, h, c, frac) && delta == Delta(d, n + 2)
  {
    ghost var ds, n := CoefficientsOf(x, p, q), 2 * m - 1;
    hide Times, Over, Num, Den, Guarded, EvenTerm, OddTerm;
    var d := EvenTerm(x, p, q, m as real);
    assert (n + 1) / 2 == m && (n + 1) % 2 == 0 && d == ds(n + 1);
    h := Over(1.0, Guarded(1.0 + Times(d, h0)));
    c := Guarded(1.0 + Over(d, c0));
    frac := Times(frac0, Times(h, c));
    if AtConvergent(ds, n, h0, c0, frac0) && QuietAt(ds, n + 1) {
      StepIsConvergent(ds, n, h0, c0, frac0);
    }
    ghost var h1, c1, frac1 := h, c, frac;
    d := OddTerm(x, p, q, m as real);
    assert (n + 2) / 2 == m && (n + 2) % 2 == 1 && d == ds(n + 2);
    h := Over(1.0, Guarded(1.0 + Times(d, h)));
    c := Guarded(1.0 + Over(d, c));
    delta := Times(h, c);
    frac := Times(frac, delta);
    if AtConvergent(ds, n + 1, h1, c1, frac1) && QuietAt(ds, n + 2) {
      StepIsConvergent(ds, n + 1, h1, c1, frac1);
    }
  }
}
