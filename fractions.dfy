/**
 * The part of Python's `fractions.Fraction` that period extraction relies on:
 * normalisation to lowest terms and `limit_denominator`, the
 * continued-fraction search for a close fraction with a bounded denominator.
 */
module Fractions {
  import opened NumberTheory

  /** A fraction num/den; every `Fraction` the model builds is in lowest terms. */
  datatype Fraction = Fraction(num: int, den: nat)

  /** In lowest terms with a positive denominator, as Python keeps every `Fraction`. */
  predicate Normalised(f: Fraction)
  {
    f.den >= 1 && Gcd(f.num, f.den) == 1
  }

  /**
   * `Fraction(p, q)` for q > 0: both parts divided by gcd(p, q). The result
   * has the same value as p/q and is in lowest terms.
   */
  function MakeFraction(p: int, q: int): (f: Fraction)
    requires q > 0
    ensures Normalised(f) && f.den <= q
    ensures f.num * q == p * f.den
    ensures p >= 0 ==> f.num >= 0
  {
    LowestTerms(p, q);
    var g := Gcd(p, q);
    Fraction(p / g, q / g)
  }

  /** Dividing p and q by their gcd gives a positive denominator, the same value and coprime parts. */
  lemma LowestTerms(p: int, q: int)
    requires q > 0
    ensures var g := Gcd(p, q);
            g > 0 && 1 <= q / g <= q && (p / g) * q == p * (q / g) && Gcd(p / g, q / g) == 1
            && (p >= 0 ==> p / g >= 0)
  {
    GcdIsGreatestCommonDivisor(p, q);
    var g := Gcd(p, q);
    var s, t := p / g, q / g;
    DividesExact(g, p);
    DividesExact(g, q);
    QuotientPositive(g, q);
    MulMono(t, g);
    CrossMultiply(g, s, t);
    ReducedCoprime(Abs(p), q);
    AbsQuotient(g, p);
  }

  lemma CrossMultiply(g: int, s: int, t: int)
    ensures s * (g * t) == (g * s) * t
  {
  }

  lemma QuotientPositive(g: int, q: int)
    requires Divides(g, q) && q > 0
    ensures q / g >= 1
  {
    DividesExact(g, q);
  }

  /** |p| / g == |p / g| when g divides p. */
  lemma AbsQuotient(g: int, p: int)
    requires Divides(g, p)
    ensures Abs(p) / g == Abs(p / g)
  {
    DividesExact(g, p);
    var s := p / g;
    if p < 0 {
      assert Abs(p) == g * -s;
      DivModUnique(Abs(p), g, -s, 0);
    } else {
      DivModUnique(Abs(p), g, s, 0);
    }
  }

  /** The state of CPython's continued-fraction loop in `limit_denominator`. */
  datatype CfState = CfState(p0: int, q0: nat, p1: int, q1: nat, n: nat, d: nat)

  /** What the loop keeps: the convergent denominators never pass the bound, and the remainders stay coprime. */
  predicate CfInvariant(s: CfState, maxDen: nat, den: nat)
  {
    && s.d > 0
    && s.q1 * s.n + s.q0 * s.d == den
    && NatGcd(s.n, s.d) == 1
    && s.q0 <= maxDen && s.q1 <= maxDen < den
    && ((s.q1 >= 1 && s.n > s.d) || (s.q1 == 0 && s.q0 == 1))
  }

  /**
   * The `while True` loop of `limit_denominator`: step through the convergents
   * of n/d until the next denominator would exceed `maxDen`. It never reaches
   * a zero remainder before stopping, because that would make the final
   * convergent's denominator, the full denominator, fit under the bound.
   */
  function ConvergentLoop(s: CfState, maxDen: nat, den: nat): (r: CfState)
    requires CfInvariant(s, maxDen, den)
    ensures r.d > 0 && 1 <= r.q1 <= maxDen && r.q0 <= maxDen
    decreases s.d
  {
    var a := s.n / s.d;
    var q2 := s.q0 + a * s.q1;
    FirstStepFits(s, maxDen, den);
    if q2 > maxDen then s
    else
      var next := CfState(s.p1, s.q1, s.p0 + a * s.p1, q2, s.d, s.n - a * s.d);
      CfStep(s, maxDen, den);
      ConvergentLoop(next, maxDen, den)
  }

  /** The loop always takes its first step: the first convergent has denominator 1. */
  lemma FirstStepFits(s: CfState, maxDen: nat, den: nat)
    requires CfInvariant(s, maxDen, den)
    ensures s.q1 == 0 ==> s.q0 + (s.n / s.d) * s.q1 <= maxDen
  {
  }

  /** A step taken without stopping keeps the invariant. */
  lemma CfStep(s: CfState, maxDen: nat, den: nat)
    requires CfInvariant(s, maxDen, den)
    requires s.q0 + (s.n / s.d) * s.q1 <= maxDen
    ensures var a := s.n / s.d;
            s.n - a * s.d >= 0 &&
            CfInvariant(CfState(s.p1, s.q1, s.p0 + a * s.p1, s.q0 + a * s.q1, s.d, s.n - a * s.d), maxDen, den)
  {
    var a := s.n / s.d;
    var q2 := s.q0 + a * s.q1;
    var r := s.n - a * s.d;
    assert s.n == s.d * a + s.n % s.d;
    assert r == s.n % s.d;
    CfIdentity(s.q0, s.q1, s.n, s.d, a);
    assert q2 * s.d + s.q1 * r == den;
    assert NatGcd(s.n, s.d) == NatGcd(s.d, r);
    // A zero remainder would make d the gcd, 1, and then q2 would be den itself.
    assert r == 0 ==> s.d == 1;
    assert r == 0 ==> q2 == den;
    assert r > 0;
    if s.q1 >= 1 {
      assert a >= 1;
      MulMono(s.q1, a);
    }
  }

  /** The linear identity behind the loop invariant q1*n + q0*d == den. */
  lemma CfIdentity(q0: int, q1: int, n: int, d: int, a: int)
    ensures (q0 + a * q1) * d + q1 * (n - a * d) == q1 * n + q0 * d
  {
  }

  /**
   * `Fraction.limit_denominator(maxDen)` on a non-negative fraction in lowest
   * terms: the fraction itself when its denominator fits, otherwise the closer
   * of the last convergent p1/q1 and the semiconvergent
   * (p0 + k*p1)/(q0 + k*q1), preferring the convergent on a tie.
   */
  function LimitDenominator(f: Fraction, maxDen: int): (r: Fraction)
    requires maxDen >= 1 && Normalised(f) && f.num >= 0
    ensures Normalised(r) && 1 <= r.den <= maxDen
    ensures f.den <= maxDen ==> r == f
  {
    if f.den <= maxDen then f
    else
      var s := ConvergentLoop(CfState(0, 1, 1, 0, f.num, f.den), maxDen, f.den);
      var k := (maxDen - s.q0) / s.q1;
      SemiconvergentBound(maxDen, s.q0, s.q1);
      if 2 * s.d * (s.q0 + k * s.q1) <= f.den then MakeFraction(s.p1, s.q1)
      else MakeFraction(s.p0 + k * s.p1, s.q0 + k * s.q1)
  }

  /** The semiconvergent's denominator q0 + k*q1 with k = (maxDen - q0) / q1 lies in [1, maxDen]. */
  lemma SemiconvergentBound(maxDen: int, q0: nat, q1: nat)
    requires 1 <= q1 <= maxDen && q0 <= maxDen
    ensures var k := (maxDen - q0) / q1; k >= 0 && 1 <= q0 + k * q1 <= maxDen
  {
    var k := (maxDen - q0) / q1;
    assert maxDen - q0 == q1 * k + (maxDen - q0) % q1;
    if q0 == 0 {
      DivModUnique(maxDen, q1, k, maxDen % q1);
      assert k >= 1;
      MulMono(q1, k);
    }
  }

  /**
   * 171/1024 (a 10-bit phase close to 1/6) limited to denominators up to 21:
   * the convergents are 0/1, 1/5 and 1/6, the next one would need
   * denominator 509, and 1/6 is closer than the semiconvergent 3/17.
   */
  lemma LimitDenominatorNearSixth()
    ensures LimitDenominator(Fraction(171, 1024), 21) == Fraction(1, 6)
  {
    assert NatGcd(169, 2) == 1 by {
      assert NatGcd(169, 2) == NatGcd(2, 1) == NatGcd(1, 0);
    }
    assert NatGcd(171, 169) == NatGcd(169, 2);
    assert NatGcd(1024, 171) == NatGcd(171, 169);
    assert NatGcd(171, 1024) == NatGcd(1024, 171);
    var s3 := CfState(1, 5, 1, 6, 169, 2);
    var s2 := CfState(0, 1, 1, 5, 171, 169);
    var s1 := CfState(1, 0, 0, 1, 1024, 171);
    var s0 := CfState(0, 1, 1, 0, 171, 1024);
    assert ConvergentLoop(s3, 21, 1024) == s3;
    assert ConvergentLoop(s2, 21, 1024) == s3;
    assert ConvergentLoop(s1, 21, 1024) == s3;
    assert ConvergentLoop(s0, 21, 1024) == s3;
    assert Gcd(1, 6) == 1 by {
      assert NatGcd(1, 6) == NatGcd(6, 1) == NatGcd(1, 0);
    }
    assert MakeFraction(1, 6) == Fraction(1, 6);
  }
}
