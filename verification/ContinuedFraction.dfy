/** The continued fraction of the incomplete beta function: its coefficients, its
    convergents, and how they are evaluated. */
module ContinuedFraction {
  import opened Basics

  function EvenTerm(x: real, p: real, q: real, m: real): real
    requires p > 0.0 && m >= 1.0
  {
    m * (q - m) * x / ((p - 1.0 + 2.0 * m) * (p + 2.0 * m))
  }

  function OddTerm(x: real, p: real, q: real, m: real): real
    requires p > 0.0 && m >= 0.0
  {
    -(p + m) * (p + q + m) * x / ((p + 2.0 * m) * (p + 1.0 + 2.0 * m))
  }

  /** The coefficients d1, d2, ... of the fraction 1/(1 + d1/(1 + d2/(1 + ...))). */
  function Coefficient(x: real, p: real, q: real, n: nat): real
    requires p > 0.0
  {
    if n == 0 then 0.0
    else if n % 2 == 0 then EvenTerm(x, p, q, (n / 2) as real)
    else OddTerm(x, p, q, (n / 2) as real)
  }

  type Coefficients = nat -> real

  function CoefficientsOf(x: real, p: real, q: real): Coefficients
    requires p > 0.0
  {
    (n: nat) => Coefficient(x, p, q, n)
  }

  // Products and quotients as functions, so that a proof may treat them as unknown.
  function Times(a: real, b: real): real {
    a * b
  }

  function Over(a: real, b: real): real
    requires b != 0.0
  {
    a / b
  }

  lemma QuotientIs(x: real, a: real, b: real)
    requires b != 0.0 && x * b == a
    ensures a / b == x
  {
    assert (a / b - x) * b == 0.0;
  }

  /** The three-term recurrences for the convergent that is cut after n coefficients. */
  function Num(d: Coefficients, n: nat): real {
    if n <= 1 then 1.0 else Num(d, n - 1) + Times(d(n), Num(d, n - 2))
  }

  function Den(d: Coefficients, n: nat): real {
    if n == 0 then 1.0
    else if n == 1 then 1.0 + d(1)
    else Den(d, n - 1) + Times(d(n), Den(d, n - 2))
  }

  /** The fraction from coefficient k on, evaluated from the inside: 1 + dk/(1 + ...), cut
      after n coefficients. None when a division by zero would be met. */
  function Nested(d: Coefficients, k: nat, n: nat): Option<real>
    decreases n + 1 - k
  {
    if k > n then Some(1.0)
    else
      match Nested(d, k + 1, n)
      case None => None
      case Some(v) => if v == 0.0 then None else Some(1.0 + Over(d(k), v))
  }

  /** The same recurrence from the other end. */
  function Tail(d: Coefficients, k: nat, n: nat): real
    decreases n + 2 - k
  {
    if k > n then 1.0 else Tail(d, k + 1, n) + Times(d(k), Tail(d, k + 2, n))
  }

  lemma Regroup(a: real, b: real, e: real, f: real, t: real, u: real)
    ensures Times(a + Times(e, b), t) + Times(f, Times(a, u)) == Times(a, t + Times(f, u)) + Times(e, Times(b, t))
  {}

  lemma TimesOne(a: real)
    ensures Times(a, 1.0) == a == Times(1.0, a)
  {}

  lemma OnePlus(a: real, t: real)
    ensures Times(1.0 + a, t) == t + Times(a, t)
  {}

  /** Both ends meet anywhere. */
  lemma {:induction false} EndsMeet(d: Coefficients, k: nat, n: nat)
    requires 1 <= k < n
    ensures Num(d, n) == Times(Num(d, k), Tail(d, k + 2, n)) + Times(d(k + 1), Times(Num(d, k - 1), Tail(d, k + 3, n)))
    ensures Den(d, n) == Times(Den(d, k), Tail(d, k + 2, n)) + Times(d(k + 1), Times(Den(d, k - 1), Tail(d, k + 3, n)))
    decreases n - k
  {
    hide Times;
    if k + 1 < n {
      EndsMeet(d, k + 1, n);
      var t, u := Tail(d, k + 3, n), Tail(d, k + 4, n);
      Regroup(Num(d, k), Num(d, k - 1), d(k + 1), d(k + 2), t, u);
      Regroup(Den(d, k), Den(d, k - 1), d(k + 1), d(k + 2), t, u);
    } else {
      TimesOne(Num(d, k));
      TimesOne(Num(d, k - 1));
      TimesOne(Den(d, k));
      TimesOne(Den(d, k - 1));
    }
  }

  lemma ConvergentIsTail(d: Coefficients, n: nat)
    requires n >= 1
    ensures Num(d, n) == Tail(d, 2, n) && Den(d, n) == Tail(d, 1, n)
  {
    hide Times;
    TimesOne(d(1));
    if n >= 2 {
      EndsMeet(d, 1, n);
      TimesOne(Tail(d, 3, n));
      TimesOne(Tail(d, 4, n));
      OnePlus(d(1), Tail(d, 3, n));
    }
  }

  lemma {:induction false} NestedIsTail(d: Coefficients, k: nat, n: nat)
    requires Nested(d, k, n).Some?
    ensures Tail(d, k, n) == Times(Nested(d, k, n).value, Tail(d, k + 1, n)) && Tail(d, k + 1, n) != 0.0
    decreases n + 1 - k
  {
    hide Times, Over;
    if k <= n {
      NestedIsTail(d, k + 1, n);
      Scale(d(k), Nested(d, k + 1, n).value, Tail(d, k + 2, n));
    } else {
      TimesOne(1.0);
    }
  }

  lemma Scale(d: real, v: real, u: real)
    requires v != 0.0 && u != 0.0
    ensures Times(v, u) != 0.0 && Times(v, u) + Times(d, u) == Times(1.0 + Over(d, v), Times(v, u))
  {
    assert d / v * v == d;
  }

  /** The convergent is the fraction evaluated from the inside, wherever that evaluation
      meets no zero. */
  lemma ConvergentIsNested(d: Coefficients, n: nat)
    requires n >= 1 && Nested(d, 1, n).Some? && Nested(d, 1, n).value != 0.0
    ensures Den(d, n) != 0.0 && Over(Num(d, n), Den(d, n)) == Over(1.0, Nested(d, 1, n).value)
  {
    hide Times, Over;
    ConvergentIsTail(d, n);
    NestedIsTail(d, 1, n);
    Cancel(Nested(d, 1, n).value, Num(d, n));
  }

  lemma Cancel(v: real, t: real)
    requires v != 0.0 && t != 0.0
    ensures Times(v, t) != 0.0 && Over(t, Times(v, t)) == Over(1.0, v)
  {
    assert 1.0 / v * (v * t) == t;
  }
}
