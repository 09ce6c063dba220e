/** What the continued fraction stands for when q is a natural number: the incomplete beta
    function. Written out, the integral from 0 to x of t^(p-1) * (1-t)^(q-1) is x^p / p
    times the sum of Choose(q-1, k) * (-x)^k * p / (p+k) over all k < q, and the fraction
    is this sum over (1-x)^q. */
module IncompleteBeta {
  import opened ContinuedFraction

  function Power(y: real, k: nat): real {
    if k == 0 then 1.0 else Power(y, k - 1) * y
  }

  lemma PowerStep(y: real, k: nat)
    ensures Power(y, k + 1) == Power(y, k) * y && Power(y, 0) == 1.0
  {}

  /** Binomial coefficients. */
  function Choose(n: nat, k: nat): nat {
    if k == 0 then 1 else if n == 0 then 0 else Choose(n - 1, k - 1) + Choose(n - 1, k)
  }

  /** A term of the expansion of (1-x)^n. */
  function BinomialTerm(x: real, n: nat, k: nat): real {
    Times(Choose(n, k) as real, Power(-x, k))
  }

  /** The first terms of the sum, up to k: those of (1-x)^(q-1), each times p / (p+k). */
  function BetaSum(x: real, p: real, q: nat, k: nat): real
    requires p > 0.0 && q > 0
  {
    var term := Over(Times(BinomialTerm(x, q - 1, k), p), p + k as real);
    if k == 0 then term else BetaSum(x, p, q, k - 1) + term
  }

  // ----------------------------------------------- hypergeometric coefficients

  /** (a)_k * (b)_k / ((c)_k * k!) with rising factorials. */
  function Coef(a: real, b: real, c: real, k: nat): real
    requires c > 0.0
  {
    if k == 0 then 1.0
    else
      var j := (k - 1) as real;
      NonZero(c + j, j + 1.0);
      Over(Times(Coef(a, b, c, k - 1), Times(a + j, b + j)), Times(c + j, j + 1.0))
  }

  lemma NonZero(a: real, b: real)
    requires a > 0.0 && b > 0.0
    ensures Times(a, b) > 0.0
  {}

  lemma Quotient(a: real, b: real)
    requires b != 0.0
    ensures Times(Over(a, b), b) == a
  {}

  lemma CoefStep(a: real, b: real, c: real, k: nat)
    requires c > 0.0
    ensures Times(Coef(a, b, c, k + 1), Times(c + k as real, k as real + 1.0))
         == Times(Coef(a, b, c, k), Times(a + k as real, b + k as real))
  {
    hide Times, Over;
    NonZero(c + k as real, k as real + 1.0);
    Quotient(Times(Coef(a, b, c, k), Times(a + k as real, b + k as real)), Times(c + k as real, k as real + 1.0));
  }

  lemma {:induction false} CoefSwap(a: real, b: real, c: real, k: nat)
    requires c > 0.0
    ensures Coef(a, b, c, k) == Coef(b, a, c, k)
  {
    if k > 0 {
      CoefSwap(a, b, c, k - 1);
      Commutes(a + (k - 1) as real, b + (k - 1) as real);
      hide Times, Over;
    }
  }

  lemma Commutes(a: real, b: real)
    ensures Times(a, b) == Times(b, a)
  {}

  lemma Cancels(a: real, b: real, f: real)
    requires f != 0.0 && a * f == b * f
    ensures a == b
  {
    assert (a - b) * f == 0.0;
  }

  lemma FirstStep(d': real, d: real, e': real, e: real, u: real, v: real, w: real, z: real,
                  s: real, k: real, k1: real, a: real)
    requires Times(d', Times(u, k1)) == Times(d, Times(v, w)) && Times(e', Times(u, k)) == Times(e, Times(v, z))
    requires Times(d, Times(s, k)) == Times(e, Times(a, z))
    requires u != 0.0 && k != 0.0
    ensures Times(d', Times(s, k1)) == Times(e', Times(a, w))
  {
    assert d' * (s * k1) * (u * k) == d' * (u * k1) * (s * k);
    assert d * (v * w) * (s * k) == d * (s * k) * (v * w);
    assert e * (a * z) * (v * w) == e * (v * z) * (a * w);
    assert e' * (u * k) * (a * w) == e' * (a * w) * (u * k);
    Cancels(d' * (s * k1), e' * (a * w), u * k);
  }

  lemma SecondStep(c': real, c: real, e': real, e: real, u: real, t: real, v: real, z: real,
                   s: real, k: real, k1: real, r: real)
    requires Times(c', Times(u, k1)) == Times(c, Times(v, z)) && Times(e', Times(t, k)) == Times(e, Times(v, z))
    requires Times(c, Times(s, k)) == Times(e, Times(r, u))
    requires u != 0.0 && k != 0.0
    ensures Times(c', Times(s, k1)) == Times(e', Times(r, t))
  {
    assert c' * (s * k1) * (u * k) == c' * (u * k1) * (s * k);
    assert c * (v * z) * (s * k) == c * (s * k) * (v * z);
    assert e * (r * u) * (v * z) == e * (v * z) * (r * u);
    assert e' * (t * k) * (r * u) == e' * (r * t) * (u * k);
    Cancels(c' * (s * k1), e' * (r * t), u * k);
  }

  lemma CoefZero(a: real, b: real, c: real)
    requires c > 0.0
    ensures Coef(a, b, c, 0) == 1.0
  {}

  /** Coefficients with neighbouring parameters have known ratios. */
  lemma {:induction false} FirstNeighbour(a: real, b: real, c: real, k: nat)
    requires c > 0.0
    ensures var r := k as real + 1.0;
            Times(Coef(a, b + 1.0, c + 1.0, k + 1), Times(c + 1.0, r))
            == Times(Coef(a + 1.0, b + 1.0, c + 2.0, k), Times(a, b + r))
  {
    CoefStep(a, b + 1.0, c + 1.0, k);
    hide Times;
    if k == 0 {
      CoefZero(a, b + 1.0, c + 1.0);
      CoefZero(a + 1.0, b + 1.0, c + 2.0);
      hide Coef;
      assert a + 0.0 == a && c + 1.0 + 0.0 == c + 1.0;
    } else {
      FirstNeighbour(a, b, c, k - 1);
      CoefStep(a + 1.0, b + 1.0, c + 2.0, k - 1);
      hide Coef;
      var r := k as real;
      assert (k - 1) as real == r - 1.0;
      FirstStep(Coef(a, b + 1.0, c + 1.0, k + 1), Coef(a, b + 1.0, c + 1.0, k),
                Coef(a + 1.0, b + 1.0, c + 2.0, k), Coef(a + 1.0, b + 1.0, c + 2.0, k - 1),
                c + 1.0 + r, a + r, b + 1.0 + r, b + r, c + 1.0, r, r + 1.0, a);
    }
  }

  lemma {:induction false} SecondNeighbour(a: real, b: real, c: real, k: nat)
    requires c > 0.0
    ensures var r := k as real + 1.0;
            Times(Coef(a, b, c, k + 1), Times(Times(c, c + 1.0), r))
            == Times(Coef(a + 1.0, b + 1.0, c + 2.0, k), Times(Times(a, b), c + r))
  {
    CoefStep(a, b, c, k);
    if k == 0 {
      CoefZero(a, b, c);
      CoefZero(a + 1.0, b + 1.0, c + 2.0);
      hide Coef;
      SecondStart(Coef(a, b, c, 1), Coef(a, b, c, 0), a, b, c);
    } else {
      hide Times;
      SecondNeighbour(a, b, c, k - 1);
      CoefStep(a + 1.0, b + 1.0, c + 2.0, k - 1);
      hide Coef;
      var r := k as real;
      assert (k - 1) as real == r - 1.0;
      SecondStep(Coef(a, b, c, k + 1), Coef(a, b, c, k),
                 Coef(a + 1.0, b + 1.0, c + 2.0, k), Coef(a + 1.0, b + 1.0, c + 2.0, k - 1),
                 c + r, c + 1.0 + r, a + r, b + r, Times(c, c + 1.0), r, r + 1.0, Times(a, b));
    }
  }

  lemma SecondStart(y: real, one: real, a: real, b: real, c: real)
    requires one == 1.0 && Times(y, Times(c + 0.0, 1.0)) == Times(one, Times(a + 0.0, b + 0.0))
    ensures Times(y, Times(Times(c, c + 1.0), 1.0)) == Times(one, Times(Times(a, b), c + 1.0))
  {
    assert y * (c * (c + 1.0)) == y * c * (c + 1.0);
  }

  /** The factor of a contiguous relation. */
  function Factor(a: real, b: real, c: real): real
    requires c > 0.0
  {
    NonZero(c, c + 1.0);
    Over(Times(a, b - c), Times(c, c + 1.0))
  }

  lemma Combine(y: real, z: real, e: real, a: real, b: real, c: real, r: real)
    requires c > 0.0 && r > 0.0
    requires Times(y, Times(Times(c, c + 1.0), r)) == Times(e, Times(Times(a, b), c + r))
    requires Times(z, Times(c + 1.0, r)) == Times(e, Times(a, b + r))
    ensures y - z == Times(Factor(a, b, c), e)
  {
    var f := Factor(a, b, c);
    NonZero(c, c + 1.0);
    Quotient(Times(a, b - c), Times(c, c + 1.0));
    assert f * (c * (c + 1.0)) == a * (b - c);
    assert (y - z) * (c * (c + 1.0) * r) == y * (c * (c + 1.0) * r) - z * ((c + 1.0) * r) * c;
    assert e * (a * b * (c + r)) - e * (a * (b + r)) * c == a * (b - c) * (e * r);
    assert f * (c * (c + 1.0)) * (e * r) == f * e * (c * (c + 1.0) * r);
    Cancels(y - z, f * e, c * (c + 1.0) * r);
  }

  /** The contiguous relation behind the continued fraction, coefficient by coefficient. */
  lemma Contiguous(a: real, b: real, c: real, k: nat)
    requires c > 0.0
    ensures Coef(a, b, c, k + 1) - Coef(a, b + 1.0, c + 1.0, k + 1)
         == Times(Factor(a, b, c), Coef(a + 1.0, b + 1.0, c + 2.0, k))
  {
    hide Times, Coef, Factor;
    FirstNeighbour(a, b, c, k);
    SecondNeighbour(a, b, c, k);
    Combine(Coef(a, b, c, k + 1), Coef(a, b + 1.0, c + 1.0, k + 1), Coef(a + 1.0, b + 1.0, c + 2.0, k),
            a, b, c, k as real + 1.0);
  }

  // ------------------------------------------------------------- polynomials

  /** The polynomial with these coefficients, up to degree n. */
  function Poly(a: real, b: real, c: real, x: real, n: nat): real
    requires c > 0.0
  {
    var term := Times(Coef(a, b, c, n), Power(x, n));
    if n == 0 then term else Poly(a, b, c, x, n - 1) + term
  }

  lemma {:induction false} PolySwap(a: real, b: real, c: real, x: real, n: nat)
    requires c > 0.0
    ensures Poly(a, b, c, x, n) == Poly(b, a, c, x, n)
  {
    CoefSwap(a, b, c, n);
    if n > 0 {
      PolySwap(a, b, c, x, n - 1);
    }
    hide Times, Power, Coef;
  }

  lemma NextTerm(y: real, z: real, f: real, e: real, w: real, w': real, x: real)
    requires y - z == Times(f, e) && w' == w * x
    ensures Times(y, w') - Times(z, w') == Times(Times(f, x), Times(e, w))
  {
    assert (y - z) * w' == f * e * (w * x);
  }

  lemma Distributes(f: real, a: real, b: real)
    ensures Times(f, a + b) == Times(f, a) + Times(f, b)
  {}

  lemma PolyStep(a: real, b: real, c: real, x: real, n: nat)
    requires c > 0.0
    ensures Poly(a, b, c, x, n + 1) == Poly(a, b, c, x, n) + Times(Coef(a, b, c, n + 1), Power(x, n + 1))
    ensures Poly(a, b, c, x, 0) == Coef(a, b, c, 0) == Power(x, 0) == 1.0
  {
    hide Coef;
    CoefZero(a, b, c);
  }

  lemma {:induction false} PolyRelation(a: real, b: real, c: real, x: real, n: nat)
    requires c > 0.0
    ensures Poly(a, b, c, x, n + 1) - Poly(a, b + 1.0, c + 1.0, x, n + 1)
         == Times(Times(Factor(a, b, c), x), Poly(a + 1.0, b + 1.0, c + 2.0, x, n))
  {
    hide Times, Coef, Factor, Poly, Power;
    var a', b', c' := a + 1.0, b + 1.0, c + 2.0;
    Contiguous(a, b, c, n);
    PolyStep(a, b, c, x, n);
    PolyStep(a, b', c + 1.0, x, n);
    PolyStep(a', b', c', x, n);
    PowerStep(x, n);
    NextTerm(Coef(a, b, c, n + 1), Coef(a, b + 1.0, c + 1.0, n + 1), Factor(a, b, c),
             Coef(a', b', c', n), Power(x, n), Power(x, n + 1), x);
    if n > 0 {
      PolyRelation(a, b, c, x, n - 1);
      PolyStep(a', b', c', x, n - 1);
      Distributes(Times(Factor(a, b, c), x), Poly(a', b', c', x, n - 1), Times(Coef(a', b', c', n), Power(x, n)));
    } else {
      TimesOne(1.0);
    }
  }

  lemma TimesZero(a: real)
    ensures Times(0.0, a) == Times(a, 0.0) == 0.0
  {}

  /** With a = -m the coefficients end after degree m. */
  lemma {:induction false} CoefEnds(m: nat, b: real, c: real, k: nat)
    requires c > 0.0 && k > m
    ensures Coef(-(m as real), b, c, k) == 0.0
  {
    var a := -(m as real);
    CoefStep(a, b, c, k - 1);
    if k > m + 1 {
      CoefEnds(m, b, c, k - 1);
    } else {
      assert a + (k - 1) as real == 0.0;
    }
    TimesZero(b + (k - 1) as real);
    TimesZero(Times(a + (k - 1) as real, b + (k - 1) as real));
    TimesZero(Coef(a, b, c, k - 1));
    NonZero(c + (k - 1) as real, (k - 1) as real + 1.0);
    hide Coef;
    Cancels(Coef(a, b, c, k), 0.0, Times(c + (k - 1) as real, (k - 1) as real + 1.0));
  }

  lemma {:induction false} PolyEnds(m: nat, b: real, c: real, x: real, n: nat)
    requires c > 0.0 && n > m
    ensures Poly(-(m as real), b, c, x, n) == Poly(-(m as real), b, c, x, n - 1)
  {
    CoefEnds(m, b, c, n);
    TimesZero(Power(x, n));
    hide Coef, Times;
  }

  lemma {:induction false} PolyOne(b: real, c: real, x: real, n: nat)
    requires c > 0.0
    ensures Poly(0.0, b, c, x, n) == 1.0
  {
    hide Times, Coef;
    if n > 0 {
      PolyEnds(0, b, c, x, n);
      PolyOne(b, c, x, n - 1);
    } else {
      CoefZero(0.0, b, c);
      TimesOne(1.0);
    }
  }

  // ------------------------------------------------------- how the fraction ends

  /** What is left of the fraction after n coefficients, as a polynomial. */
  function Stage(x: real, p: real, q: nat, n: nat): real
    requires p > 0.0
  {
    var m := (n / 2) as real;
    if n % 2 == 0 then Poly(m - q as real, p + m, p + 2.0 * m, x, q)
    else Poly(m + 1.0 - q as real, p + m, p + 2.0 * m + 1.0, x, q)
  }

  lemma StageAt(x: real, p: real, q: nat, m: nat)
    requires p > 0.0
    ensures var r := m as real;
            && Stage(x, p, q, 2 * m) == Poly(r - q as real, p + r, p + 2.0 * r, x, q)
            && Stage(x, p, q, 2 * m + 1) == Poly(r + 1.0 - q as real, p + r, p + 2.0 * r + 1.0, x, q)
  {
    assert 2 * m / 2 == m && (2 * m + 1) / 2 == m && 2 * m % 2 == 0 && (2 * m + 1) % 2 == 1;
    hide Poly;
  }

  lemma EvenFactor(x: real, p: real, q: real, m: real)
    requires p > 0.0 && m >= 1.0
    ensures EvenTerm(x, p, q, m) == Times(Factor(m - q, p + m - 1.0, p + 2.0 * m - 1.0), x)
  {
    var c := p + 2.0 * m - 1.0;
    var f := Factor(m - q, p + m - 1.0, c);
    NonZero(c, c + 1.0);
    Quotient(Times(m - q, -m), Times(c, c + 1.0));
    assert p + m - 1.0 - c == -m;
    assert f * (c * (c + 1.0)) == (m - q) * -m;
    assert f * x * (c * (c + 1.0)) == (m - q) * -m * x == m * (q - m) * x;
    QuotientIs(f * x, m * (q - m) * x, c * (c + 1.0));
  }

  lemma OddFactor(x: real, p: real, q: real, m: real)
    requires p > 0.0 && m >= 0.0
    ensures OddTerm(x, p, q, m) == Times(Factor(p + m, m - q, p + 2.0 * m), x)
  {
    var c := p + 2.0 * m;
    var f := Factor(p + m, m - q, c);
    NonZero(c, c + 1.0);
    Quotient(Times(p + m, m - q - c), Times(c, c + 1.0));
    assert m - q - c == -(p + q + m);
    assert f * (c * (c + 1.0)) == (p + m) * -(p + q + m);
    assert f * x * (c * (c + 1.0)) == (p + m) * -(p + q + m) * x == -(p + m) * (p + q + m) * x;
    QuotientIs(f * x, -(p + m) * (p + q + m) * x, c * (c + 1.0));
  }

  lemma EvenStage(x: real, p: real, q: nat, m: nat)
    requires p > 0.0 && 1 <= m < q
    ensures Stage(x, p, q, 2 * m - 1)
         == Stage(x, p, q, 2 * m) + Times(EvenTerm(x, p, q as real, m as real), Stage(x, p, q, 2 * m + 1))
  {
    var r, s := m as real, q as real;
    hide Times, Factor, Poly, EvenTerm, Stage;
    StageAt(x, p, q, m - 1);
    StageAt(x, p, q, m);
    assert (m - 1) as real == r - 1.0 && 2 * (m - 1) + 1 == 2 * m - 1;
    PolyRelation(r - s, p + r - 1.0, p + 2.0 * r - 1.0, x, q - 1);
    PolyEnds(q - m - 1, p + r, p + 2.0 * r + 1.0, x, q);
    EvenFactor(x, p, s, r);
  }

  lemma OddStage(x: real, p: real, q: nat, m: nat)
    requires p > 0.0 && m < q
    ensures Stage(x, p, q, 2 * m)
         == Stage(x, p, q, 2 * m + 1) + Times(OddTerm(x, p, q as real, m as real), Stage(x, p, q, 2 * m + 2))
  {
    var r, s := m as real, q as real;
    hide Times, Factor, Poly, OddTerm, Stage;
    StageAt(x, p, q, m);
    StageAt(x, p, q, m + 1);
    assert (m + 1) as real == r + 1.0 && 2 * (m + 1) == 2 * m + 2;
    PolyRelation(p + r, r - s, p + 2.0 * r, x, q - 1);
    PolySwap(p + r, r - s, p + 2.0 * r, x, q);
    PolySwap(p + r, r - s + 1.0, p + 2.0 * r + 1.0, x, q);
    PolySwap(p + r + 1.0, r - s + 1.0, p + 2.0 * r + 2.0, x, q - 1);
    PolyEnds(q - m - 1, p + r + 1.0, p + 2.0 * r + 2.0, x, q);
    OddFactor(x, p, s, r);
  }

  /** Each stage is the next one plus a coefficient times the one after it. */
  lemma StageStep(x: real, p: real, q: nat, n: nat)
    requires p > 0.0 && 1 <= n < 2 * q
    ensures Stage(x, p, q, n - 1)
         == Stage(x, p, q, n) + Times(Coefficient(x, p, q as real, n), Stage(x, p, q, n + 1))
  {
    hide Times, Stage, EvenTerm, OddTerm;
    if n % 2 == 0 {
      EvenStage(x, p, q, n / 2);
    } else {
      OddStage(x, p, q, n / 2);
    }
  }

  lemma LastStages(x: real, p: real, q: nat)
    requires p > 0.0 && q > 0
    ensures Stage(x, p, q, 2 * q - 1) == 1.0 && Stage(x, p, q, 2 * q) == 1.0
  {
    hide Poly, Stage;
    StageAt(x, p, q, q - 1);
    StageAt(x, p, q, q);
    assert (q - 1) as real + 1.0 - q as real == 0.0 && 2 * (q - 1) + 1 == 2 * q - 1;
    PolyOne(p + (q - 1) as real, p + 2.0 * (q - 1) as real + 1.0, x, q);
    PolyOne(p + q as real, p + 2.0 * q as real, x, q);
  }

  lemma {:induction false} TailIsStage(x: real, p: real, q: nat, k: nat)
    requires p > 0.0 && 1 <= k <= 2 * q
    ensures var d, n := CoefficientsOf(x, p, q as real), 2 * q - 1;
            Tail(d, k, n) == Stage(x, p, q, k - 1) && Tail(d, k + 1, n) == Stage(x, p, q, k)
    decreases 2 * q - k
  {
    hide Times, Stage, Coefficient;
    if k == 2 * q {
      LastStages(x, p, q);
    } else {
      TailIsStage(x, p, q, k + 1);
      StageStep(x, p, q, k);
    }
  }

  // ------------------------------------------------------------- closed forms

  lemma {:induction false} ChooseNone(n: nat, k: nat)
    requires k > n
    ensures Choose(n, k) == 0
  {
    if n > 0 {
      ChooseNone(n - 1, k - 1);
      ChooseNone(n - 1, k);
    }
  }

  lemma PascalStep(low: nat, mid: nat, high: nat, n: int, k: int)
    requires high * (k + 1) == mid * (n - 1 - k) && mid * k == low * (n - k)
    ensures (mid + high) * (k + 1) == (low + mid) * (n - k)
  {}

  lemma {:induction false} ChooseStep(n: nat, k: nat)
    ensures Choose(n, k + 1) * (k + 1) == Choose(n, k) * (n - k)
  {
    if n > 0 {
      ChooseStep(n - 1, k);
      if k > 0 {
        ChooseStep(n - 1, k - 1);
        PascalStep(Choose(n - 1, k - 1), Choose(n - 1, k), Choose(n - 1, k + 1), n, k);
      }
    } else if k > 0 {
      ChooseNone(n, k);
      ChooseNone(n, k + 1);
    }
  }

  lemma RealProduct(a: int, b: int)
    ensures (a * b) as real == Times(a as real, b as real)
  {}

  lemma RealChooseStep(n: nat, k: nat)
    ensures Times(Choose(n, k + 1) as real, k as real + 1.0) == Times(Choose(n, k) as real, n as real - k as real)
  {
    ChooseStep(n, k);
    RealProduct(Choose(n, k + 1), k + 1);
    RealProduct(Choose(n, k), n - k);
    hide Times, Choose;
  }

  lemma MoveFactors(u: real, v: real, w: real, w': real, x: real, k1: real, r: real)
    requires Times(u, k1) == Times(v, -r) && w' == w * -x
    ensures Times(Times(u, w'), k1) == Times(Times(v, w), Times(r, x))
  {
    assert u * w' * k1 == u * k1 * w';
    assert v * -r * (w * -x) == v * w * (r * x);
  }

  lemma TermStep(x: real, n: nat, k: nat)
    ensures Times(BinomialTerm(x, n, k + 1), k as real + 1.0)
         == Times(BinomialTerm(x, n, k), Times(k as real - n as real, x))
  {
    RealChooseStep(n, k);
    PowerStep(-x, k);
    hide Times, Choose, Power;
    assert -(k as real - n as real) == n as real - k as real;
    MoveFactors(Choose(n, k + 1) as real, Choose(n, k) as real, Power(-x, k), Power(-x, k + 1), x,
                k as real + 1.0, k as real - n as real);
  }

  lemma SameTermStep(y': real, y: real, w: real, w': real, x: real, t': real, t: real, c': real,
                     k1: real, r: real, p: real, u: real)
    requires Times(y', Times(c', k1)) == Times(y, Times(r, u)) && Times(t', k1) == Times(t, Times(r, x))
    requires Times(Times(y, w), u) == Times(t, p) && w' == w * x && k1 != 0.0
    ensures Times(Times(y', w'), c') == Times(t', p)
  {
    assert y' * w' * c' * k1 == y' * (c' * k1) * w';
    assert y * (r * u) * (w * x) == y * w * u * (r * x);
    assert t * p * (r * x) == t * (r * x) * p;
    assert t' * k1 * p == t' * p * k1;
    Cancels(y' * w' * c', t' * p, k1);
  }

  /** The terms of the last-but-one stage: those of (1-x)^n, times p / (p+k). */
  lemma {:induction false} FirstTerms(x: real, p: real, n: nat, k: nat)
    requires p > 0.0
    ensures Times(Times(Coef(-(n as real), p, p + 1.0, k), Power(x, k)), p + k as real) == Times(BinomialTerm(x, n, k), p)
  {
    var a := -(n as real);
    if k == 0 {
      CoefZero(a, p, p + 1.0);
      TimesOne(1.0);
      TimesOne(p);
      hide Times, Coef;
    } else {
      FirstTerms(x, p, n, k - 1);
      CoefStep(a, p, p + 1.0, k - 1);
      TermStep(x, n, k - 1);
      PowerStep(x, k - 1);
      hide Coef, Times, BinomialTerm, Power;
      var r := k as real;
      assert (k - 1) as real == r - 1.0;
      SameTermStep(Coef(a, p, p + 1.0, k), Coef(a, p, p + 1.0, k - 1), Power(x, k - 1), Power(x, k), x,
                   BinomialTerm(x, n, k), BinomialTerm(x, n, k - 1), p + r, r, r - 1.0 - n as real, p, p + r - 1.0);
    }
  }

  lemma {:induction false} ZerothTerms(x: real, p: real, n: nat, k: nat)
    requires p > 0.0
    ensures Times(Coef(-(n as real), p, p, k), Power(x, k)) == BinomialTerm(x, n, k)
  {
    var a := -(n as real);
    if k == 0 {
      CoefZero(a, p, p);
      TimesOne(1.0);
      hide Times, Coef;
    } else {
      ZerothTerms(x, p, n, k - 1);
      CoefStep(a, p, p, k - 1);
      TermStep(x, n, k - 1);
      PowerStep(x, k - 1);
      hide Coef, Times, BinomialTerm, Power;
      var r := k as real;
      assert (k - 1) as real == r - 1.0;
      var u := p + r - 1.0;
      SameTermStep0(Coef(a, p, p, k), Coef(a, p, p, k - 1), Power(x, k - 1), Power(x, k), x,
                    BinomialTerm(x, n, k), BinomialTerm(x, n, k - 1), r, r - 1.0 - n as real, u);
    }
  }

  lemma SameTermStep0(y': real, y: real, w: real, w': real, x: real, t': real, t: real, k1: real, r: real, u: real)
    requires Times(y', Times(u, k1)) == Times(y, Times(r, u)) && Times(t', k1) == Times(t, Times(r, x))
    requires Times(y, w) == t && w' == w * x && u != 0.0 && k1 != 0.0
    ensures Times(y', w') == t'
  {
    assert y' * w' * (u * k1) == y' * (u * k1) * w';
    assert y * (r * u) * (w * x) == y * w * (r * x) * u;
    assert t' * k1 * u == t' * (u * k1);
    Cancels(y' * w', t', u * k1);
  }

  /** The first terms of the expansion of (1-x)^n. */
  function BinomialSum(x: real, n: nat, k: nat): real {
    if k == 0 then BinomialTerm(x, n, 0) else BinomialSum(x, n, k - 1) + BinomialTerm(x, n, k)
  }

  lemma PascalTerm(x: real, n: nat, k: nat)
    ensures BinomialTerm(x, n + 1, k + 1) == BinomialTerm(x, n, k + 1) - Times(x, BinomialTerm(x, n, k))
  {
    PowerStep(-x, k);
    var u, v, w := Choose(n, k + 1) as real, Choose(n, k) as real, Power(-x, k);
    assert Choose(n + 1, k + 1) as real == v + u;
    assert (v + u) * (w * -x) == u * (w * -x) - x * (v * w);
  }

  lemma {:induction false} PascalSum(x: real, n: nat, k: nat)
    ensures BinomialSum(x, n + 1, k + 1) == BinomialSum(x, n, k + 1) - Times(x, BinomialSum(x, n, k))
  {
    PascalTerm(x, n, k);
    hide Times, BinomialTerm;
    if k > 0 {
      PascalSum(x, n, k - 1);
      Distributes(x, BinomialSum(x, n, k - 1), BinomialTerm(x, n, k));
    } else {
      BinomialStart(x, n);
      BinomialStart(x, n + 1);
    }
  }

  lemma BinomialStart(x: real, n: nat)
    ensures BinomialTerm(x, n, 0) == 1.0
  {}

  lemma {:induction false} BinomialTheorem(x: real, n: nat)
    ensures BinomialSum(x, n, n) == Power(1.0 - x, n)
  {
    hide Times, BinomialTerm;
    if n == 0 {
      BinomialStart(x, 0);
    } else {
      BinomialTheorem(x, n - 1);
      PascalSum(x, n - 1, n - 1);
      NoTerm(x, n - 1, n);
      FactorOut(x, Power(1.0 - x, n - 1));
    }
  }

  lemma NoTerm(x: real, n: nat, k: nat)
    requires k > n
    ensures BinomialTerm(x, n, k) == 0.0
  {
    ChooseNone(n, k);
  }

  lemma FactorOut(x: real, y: real)
    ensures y - Times(x, y) == y * (1.0 - x)
  {}

  lemma {:induction false} ZerothIsBinomial(x: real, p: real, n: nat, k: nat)
    requires p > 0.0
    ensures Poly(-(n as real), p, p, x, k) == BinomialSum(x, n, k)
  {
    ZerothTerms(x, p, n, k);
    hide Times, Coef, Power, BinomialTerm;
    if k > 0 {
      ZerothIsBinomial(x, p, n, k - 1);
    }
  }

  lemma Divided(y: real, u: real, t: real)
    requires u != 0.0 && Times(y, u) == t
    ensures y == Over(t, u)
  {
    QuotientIs(y, t, u);
  }

  lemma {:induction false} FirstIsBetaSum(x: real, p: real, q: nat, k: nat)
    requires p > 0.0 && q > 0
    ensures Poly(-((q - 1) as real), p, p + 1.0, x, k) == BetaSum(x, p, q, k)
  {
    FirstTerms(x, p, q - 1, k);
    hide Times, Over, Coef, Power, BinomialTerm;
    Divided(Times(Coef(-((q - 1) as real), p, p + 1.0, k), Power(x, k)), p + k as real,
            Times(BinomialTerm(x, q - 1, k), p));
    if k > 0 {
      FirstIsBetaSum(x, p, q, k - 1);
    }
  }

  /** The convergent with 2q - 1 coefficients, in closed form. */
  lemma ClosedForm(x: real, p: real, q: nat)
    requires p > 0.0 && q > 0
    ensures var d := CoefficientsOf(x, p, q as real);
            && Num(d, 2 * q - 1) == BetaSum(x, p, q, q - 1)
            && Den(d, 2 * q - 1) == Power(1.0 - x, q)
  {
    var d := CoefficientsOf(x, p, q as real);
    hide Num, Den, Poly, Tail;
    ConvergentIsTail(d, 2 * q - 1);
    TailIsStage(x, p, q, 1);
    ZerothIsBinomial(x, p, q, q);
    BinomialTheorem(x, q);
    PolyEnds(q - 1, p, p + 1.0, x, q);
    FirstIsBetaSum(x, p, q, q - 1);
    assert 1.0 - q as real == -((q - 1) as real);
  }

  lemma EvenTermEnds(x: real, p: real, m: real)
    requires p > 0.0 && m >= 1.0
    ensures EvenTerm(x, p, m, m) == 0.0
  {
    EvenFactor(x, p, m, m);
    var c := p + 2.0 * m - 1.0;
    NonZero(c, c + 1.0);
    TimesZero(p + m - 1.0 - c);
    QuotientIs(0.0, 0.0, Times(c, c + 1.0));
    TimesZero(x);
    hide EvenTerm, Times;
    assert m - m == 0.0;
  }

  lemma EndTerm(x: real, p: real, q: nat)
    requires p > 0.0 && q > 0
    ensures CoefficientsOf(x, p, q as real)(2 * q) == 0.0
  {
    assert 2 * q % 2 == 0 && 2 * q / 2 == q;
    hide EvenTerm, OddTerm;
    EvenTermEnds(x, p, q as real);
  }

  /** A fraction that meets a zero coefficient ends there. */
  lemma EndsAtZero(d: Coefficients, k: nat, n: nat) returns (t: real)
    requires 1 <= k <= n && d(k + 1) == 0.0
    ensures Num(d, n) == Times(Num(d, k), t) && Den(d, n) == Times(Den(d, k), t)
  {
    hide Num, Den, Tail, Times;
    if n == k {
      t := 1.0;
      TimesOne(Num(d, n));
      TimesOne(Den(d, n));
    } else {
      EndsMeet(d, k, n);
      t := Tail(d, k + 2, n);
      TimesZero(Times(Num(d, k - 1), Tail(d, k + 3, n)));
      TimesZero(Times(Den(d, k - 1), Tail(d, k + 3, n)));
    }
  }

  lemma CancelCommon(a: real, b: real, t: real)
    requires Times(b, t) != 0.0
    ensures b != 0.0 && Over(Times(a, t), Times(b, t)) == Over(a, b)
  {
    assert b != 0.0 && t != 0.0 by {
      TimesZero(t);
      TimesZero(b);
    }
    var r := a / b;
    assert r * b == a;
    assert r * (b * t) == r * b * t;
    QuotientIs(r, a * t, b * t);
  }

  /** For a natural q every convergent with at least 2q - 1 coefficients is the sum of the
      incomplete beta function over (1-x)^q. */
  lemma FractionIsIncompleteBeta(x: real, p: real, q: nat, n: nat)
    requires p > 0.0 && q > 0 && n >= 2 * q - 1
    requires Den(CoefficientsOf(x, p, q as real), n) != 0.0
    ensures var d := CoefficientsOf(x, p, q as real);
            Power(1.0 - x, q) != 0.0
            && Over(Num(d, n), Den(d, n)) == Over(BetaSum(x, p, q, q - 1), Power(1.0 - x, q))
  {
    var d := CoefficientsOf(x, p, q as real);
    hide Num, Den, Times, Over, BetaSum, Power, CoefficientsOf;
    EndTerm(x, p, q);
    var t := EndsAtZero(d, 2 * q - 1, n);
    ClosedForm(x, p, q);
    CancelCommon(Num(d, 2 * q - 1), Den(d, 2 * q - 1), t);
  }

  lemma FirstBetaTerm(x: real, p: real, q: nat)
    requires p > 0.0 && q > 0
    ensures BetaSum(x, p, q, 0) == 1.0
  {
    BinomialStart(x, q - 1);
    hide BinomialTerm;
    TimesOne(p);
    QuotientIs(1.0, p, p);
  }

  lemma SecondBetaTerm(x: real, p: real)
    requires p > 0.0
    ensures BetaSum(x, p, 2, 1) == 1.0 - Over(Times(x, p), p + 1.0)
  {
    FirstBetaTerm(x, p, 2);
    assert BinomialTerm(x, 1, 1) == -x by {
      PowerStep(-x, 0);
      assert Choose(1, 1) == 1;
    }
    hide BinomialTerm;
    assert Times(-x, p) == -(x * p);
    assert -(x * p) / (p + 1.0) == -(x * p / (p + 1.0));
  }

  lemma NotZero(a: real, y: real)
    requires a > 0.0 && y != 0.0
    ensures Times(a, Times(y, y)) > 0.0
  {
    SquareIsPositive(y);
    NonZero(a, Times(y, y));
  }

  lemma SquareIsPositive(y: real)
    requires y != 0.0
    ensures Times(y, y) > 0.0
  {
    if y > 0.0 {
      NonZero(y, y);
    } else {
      NonZero(-y, -y);
      assert -y * -y == y * y;
    }
  }

  /** The value for q = 2: (1 + p * (1-x)) / ((p+1) * (1-x)^2). */
  function ValueForTwo(x: real, p: real): real
    requires p > 0.0 && x != 1.0
  {
    var y := 1.0 - x;
    NotZero(p + 1.0, y);
    Over(1.0 + Times(p, y), Times(p + 1.0, Times(y, y)))
  }

  /** What the sums over (1-x)^q are for q = 1 and for q = 2. */
  lemma FirstValues(x: real, p: real)
    requires p > 0.0 && x != 1.0
    ensures Power(1.0 - x, 1) == 1.0 - x && BetaSum(x, p, 1, 0) == 1.0
    ensures Power(1.0 - x, 2) != 0.0 && Over(BetaSum(x, p, 2, 1), Power(1.0 - x, 2)) == ValueForTwo(x, p)
  {
    var y := 1.0 - x;
    Square(y);
    FirstBetaTerm(x, p, 1);
    SecondBetaTerm(x, p);
    hide Power, BetaSum, Times, Over;
    var z := 1.0 - Over(Times(x, p), p + 1.0);
    Scaled(x, p, z);
    NotZero(1.0, y);
    TimesOne(Times(y, y));
    OverBoth(z, p + 1.0, Times(y, y), 1.0 + Times(p, y));
  }

  lemma Square(y: real)
    ensures Power(y, 1) == y && Power(y, 2) == Times(y, y)
  {
    PowerStep(y, 0);
    PowerStep(y, 1);
  }

  lemma Scaled(x: real, p: real, z: real)
    requires p > 0.0 && z == 1.0 - Over(Times(x, p), p + 1.0)
    ensures Times(z, p + 1.0) == 1.0 + Times(p, 1.0 - x)
  {
    Quotient(Times(x, p), p + 1.0);
    hide Over;
  }

  lemma OverBoth(a: real, b: real, c: real, e: real)
    requires b > 0.0 && c != 0.0 && Times(a, b) == e
    ensures Times(b, c) != 0.0 && Over(a, c) == Over(e, Times(b, c))
  {
    Quotient(a, c);
    var r := a / c;
    assert r * (b * c) == r * c * b;
    QuotientIs(r, e, b * c);
  }
}
