/** findRoot: bisection for function(root) == value, over exact reals. */
module Bisection {
  import opened Basics
  import opened ContinuedFraction
  import opened Statistics

  /** |f(a) - f(b)| <= l * |a - b| between low and high. */
  ghost predicate Lipschitz(f: real -> real, low: real, high: real, l: real) {
    l >= 0.0 && forall a, b :: low <= a <= high && low <= b <= high ==> Abs(f(a) - f(b)) <= Times(l, Abs(a - b))
  }

  function Mid(low: real, high: real): real {
    (high + low) / 2.0
  }

  /** The bracket after i bisections. */
  function Bracket(f: real -> real, value: real, low: real, high: real, i: nat): (real, real) {
    if i == 0 then (low, high)
    else
      var (a, b) := Bracket(f, value, low, high, i - 1);
      if f(Mid(a, b)) - value > 0.0 then (a, Mid(a, b)) else (Mid(a, b), b)
  }

  ghost predicate Encloses(f: real -> real, value: real, low: real, high: real) {
    low <= high && f(low) <= value <= f(high)
  }

  /** Every bisection keeps the value enclosed, stays inside the bracket before it, and
      halves it exactly. */
  lemma {:induction false} BracketKept(f: real -> real, value: real, low: real, high: real, i: nat)
    requires Encloses(f, value, low, high)
    ensures var (a, b) := Bracket(f, value, low, high, i);
            Encloses(f, value, a, b) && low <= a && b <= high && Times(TwoTo(i), b - a) == high - low
  {
    hide Times;
    if i > 0 {
      BracketKept(f, value, low, high, i - 1);
      var (a, b) := Bracket(f, value, low, high, i - 1);
      HalfTwice(TwoTo(i - 1), b - a);
    } else {
      TimesOne(high - low);
    }
  }

  lemma HalfTwice(t: real, w: real)
    ensures Times(2.0 * t, w / 2.0) == Times(t, w)
  {}

  /** From halved brackets to function values. */
  lemma HalvesUp(t: real, l: real, w: real, e: real)
    requires t > 0.0 && Times(l, Times(t, w)) <= Times(2.0 * t, e)
    ensures Times(l, w / 2.0) <= e
  {
    assert 2.0 * t * (l * (w / 2.0)) == l * (t * w);
    if l * (w / 2.0) > e {
      assert 2.0 * t * (l * (w / 2.0) - e) > 0.0;
    }
  }

  lemma MiddleWithin(f: real -> real, value: real, a: real, b: real, l: real, e: real)
    requires Encloses(f, value, a, b) && Lipschitz(f, a, b, l) && Times(l, (b - a) / 2.0) <= e
    ensures Abs(f(Mid(a, b)) - value) <= e
  {
    hide Times;
    var m := Mid(a, b);
    assert Abs(m - a) == (b - a) / 2.0 == Abs(b - m);
    assert Abs(f(m) - f(a)) <= Times(l, Abs(m - a));
    assert Abs(f(b) - f(m)) <= Times(l, Abs(b - m));
  }

  lemma LipschitzInside(f: real -> real, low: real, high: real, l: real, a: real, b: real)
    requires Lipschitz(f, low, high, l) && low <= a && b <= high
    ensures Lipschitz(f, a, b, l)
  {
    hide Times;
  }

  /** A guess is accurate as soon as the Lipschitz constant times half its bracket is. */
  lemma WithinAccuracy(f: real -> real, value: real, low: real, high: real, i: nat, l: real, e: real)
    requires Encloses(f, value, low, high) && Lipschitz(f, low, high, l)
    requires Times(l, high - low) <= Times(TwoTo(i + 1), e)
    ensures var (a, b) := Bracket(f, value, low, high, i);
            Abs(f(Mid(a, b)) - value) <= e
  {
    hide Times, Lipschitz, Bracket, Mid, Abs;
    BracketKept(f, value, low, high, i);
    var (a, b) := Bracket(f, value, low, high, i);
    HalvesUp(TwoTo(i), l, b - a, e);
    LipschitzInside(f, low, high, l, a, b);
    MiddleWithin(f, value, a, b, l, e);
  }

  /** The middle of the bracket after i bisections. */
  function Guess(f: real -> real, value: real, low: real, high: real, i: nat): real {
    var (a, b) := Bracket(f, value, low, high, i);
    Mid(a, b)
  }

  /** The value is enclosed, the function is Lipschitz, and i bisections are enough. */
  ghost predicate Suffices(f: real -> real, value: real, low: real, high: real, l: real, i: nat) {
    && Encloses(f, value, low, high) && Lipschitz(f, low, high, l) && i <= MAX_ITERATIONS
    && Times(l, high - low) <= Times(TwoTo(i + 1), ACCURACY)
  }

  lemma EnoughPasses(f: real -> real, value: real, low: real, high: real, l: real, i: nat)
    requires Suffices(f, value, low, high, l, i)
    ensures i <= MAX_ITERATIONS && Abs(f(Guess(f, value, low, high, i)) - value) <= ACCURACY
  {
    WithinAccuracy(f, value, low, high, i, l, ACCURACY);
  }

  /** findRoot. Whatever the function, the result is the middle of the first bracket whose
      middle is accurate, or of the last one tried. If the value is enclosed to begin with
      and the function is Lipschitz in between, then any number i of bisections with
      2^(i+1) * ACCURACY >= l * (high - low) bounds the passes, and the result is
      accurate. */
  method FindRoot(value: real, low: real, high: real, f: real -> real) returns (guess: real, passes: nat)
    ensures passes <= MAX_ITERATIONS
    ensures guess == Guess(f, value, low, high, passes)
    ensures passes < MAX_ITERATIONS ==> Abs(f(guess) - value) <= ACCURACY
    ensures forall k :: 0 <= k < passes ==> Abs(f(Guess(f, value, low, high, k)) - value) > ACCURACY
    ensures forall l, i: nat :: Suffices(f, value, low, high, l, i) ==> passes <= i && Abs(f(guess) - value) <= ACCURACY
  {
    hide Suffices;
    var xLow, xHigh := low, high;
    guess := Mid(xLow, xHigh);
    var v := f(guess);
    var difference := v - value;
    var i := 0;
    while Abs(difference) > ACCURACY && i < MAX_ITERATIONS
      invariant i <= MAX_ITERATIONS && (xLow, xHigh) == Bracket(f, value, low, high, i)
      invariant guess == Mid(xLow, xHigh) && difference == f(guess) - value
      invariant forall k :: 0 <= k < i ==> Abs(f(Guess(f, value, low, high, k)) - value) > ACCURACY
      decreases MAX_ITERATIONS - i
    {
      i := i + 1;
      if difference > 0.0 {
        xHigh := guess;
      } else {
        xLow := guess;
      }
      guess := Mid(xLow, xHigh);
      v := f(guess);
      difference := v - value;
    }
    passes := i;
    forall l, n: nat | Suffices(f, value, low, high, l, n)
      ensures passes <= n && Abs(f(guess) - value) <= ACCURACY
    {
      EnoughPasses(f, value, low, high, l, n);
    }
  }
}
