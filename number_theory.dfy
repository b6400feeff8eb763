/**
 * Integer primitives of the classical side of Shor's algorithm:
 * exponentiation, the square-and-multiply modular exponentiation of
 * `LargeNumberHandler` and the greatest common divisor used by the factor
 * tests (Python's `math.gcd`).
 */
module NumberTheory {

  /** b raised to the power e, the reference for modular exponentiation. */
  function Pow(b: int, e: nat): int
  {
    if e == 0 then 1 else b * Pow(b, e - 1)
  }

  /** 2 raised to the power e (Python's `2 ** e`). */
  function Pow2(e: nat): (r: nat)
    ensures r >= 1
  {
    if e == 0 then 1 else 2 * Pow2(e - 1)
  }

  /**
   * What `modular_exponentiation(base, exponent, modulus)` returns: the loop
   * never runs for a non-positive exponent, so the untouched start value 1 is
   * returned then (even when modulus is 1).
   */
  function ModPow(base: int, exponent: int, modulus: int): int
    requires modulus > 0
  {
    if exponent <= 0 then 1 else Pow(base, exponent) % modulus
  }

  function Abs(x: int): nat
  {
    if x < 0 then -x else x
  }

  /** Euclid's algorithm on natural numbers. */
  function NatGcd(a: nat, b: nat): nat
    decreases b
  {
    if b == 0 then a else NatGcd(b, a % b)
  }

  /** Python's `math.gcd`: the non-negative gcd of the absolute values. */
  function Gcd(a: int, b: int): nat
  {
    NatGcd(Abs(a), Abs(b))
  }

  /** d is a positive divisor of x. */
  predicate Divides(d: int, x: int)
  {
    d > 0 && x % d == 0
  }

  // ---------------------------------------------------------------------
  // Modular exponentiation
  // ---------------------------------------------------------------------

  /**
   * `LargeNumberHandler.modular_exponentiation`: square-and-multiply.
   * The invariant keeps result * b^e congruent to base^exponent, and keeps
   * `result` and `b` reduced below the modulus.
   */
  method ModularExponentiation(base: int, exponent: int, modulus: int) returns (result: int)
    requires modulus > 0
    ensures result == ModPow(base, exponent, modulus)
    ensures exponent > 0 ==> result == Pow(base, exponent) % modulus
    ensures exponent <= 0 ==> result == 1
    ensures modulus > 1 ==> 0 <= result < modulus
  {
    result := 1;
    var b := base % modulus;
    var e := exponent;
    if exponent > 0 {
      PowModBase(base, exponent, modulus);
    }
    while e > 0
      invariant 0 <= b < modulus
      invariant 0 <= result && (result < modulus || result == 1)
      invariant exponent <= 0 ==> e == exponent && result == 1
      invariant exponent > 0 ==> e >= 0 && (result * Pow(b, e)) % modulus == Pow(base, exponent) % modulus
      invariant exponent > 0 && e == 0 ==> result < modulus
      decreases e
    {
      ghost var b0, r0, e0 := b, result, e;
      if e % 2 == 1 {
        result := (result * b) % modulus;
      }
      b := (b * b) % modulus;
      e := e / 2;
      SquareStep(r0, b0, e0, modulus);
    }
    if exponent > 0 {
      assert result * Pow(b, 0) == result;
      DivModUnique(result, modulus, 0, result);
    }
  }

  /** One iteration of the loop keeps result * b^e unchanged modulo m. */
  lemma SquareStep(r: int, b: int, e: nat, m: int)
    requires m > 0 && e > 0
    ensures var r' := if e % 2 == 1 then (r * b) % m else r;
            (r' * Pow((b * b) % m, e / 2)) % m == (r * Pow(b, e)) % m
  {
    var k := e / 2;
    var p, p' := Pow(b * b, k), Pow((b * b) % m, k);
    PowSquare(b, k);
    PowModBase(b * b, k, m);
    if e % 2 == 1 {
      var rb := r * b;
      assert Pow(b, e) == b * p by {
        assert e == 2 * k + 1;
      }
      MulCongruent(rb % m, p', p, m);
      ModMod(rb, m);
      MulCongruent(p, rb % m, rb, m);
      assert rb % m * p == p * (rb % m);
      assert p * rb == r * (b * p);
    } else {
      assert Pow(b, e) == p by {
        assert e == 2 * k;
      }
      MulCongruent(r, p', p, m);
    }
  }

  /** Replacing a factor by a congruent one keeps the product congruent. */
  lemma MulCongruent(x: int, y: int, y': int, m: int)
    requires m > 0 && y % m == y' % m
    ensures (x * y) % m == (x * y') % m
  {
    ModMulBoth(x, y, m);
    ModMulBoth(x, y', m);
  }

  /** b^(2k) == (b*b)^k */
  lemma {:induction false} PowSquare(b: int, k: nat)
    ensures Pow(b, 2 * k) == Pow(b * b, k)
  {
    if k > 0 {
      PowSquare(b, k - 1);
      assert Pow(b, 2 * k) == b * (b * Pow(b, 2 * (k - 1)));
    }
  }

  /** Reducing the base before exponentiating does not change the result modulo m. */
  lemma {:induction false} PowModBase(b: int, k: nat, m: int)
    requires m > 0
    ensures Pow(b % m, k) % m == Pow(b, k) % m
  {
    if k > 0 {
      PowModBase(b, k - 1, m);
      calc {
        Pow(b % m, k) % m;
        (b % m * Pow(b % m, k - 1)) % m;
        { ModMulBoth(b % m, Pow(b % m, k - 1), m); }
        ((b % m) % m * (Pow(b % m, k - 1) % m)) % m;
        { ModMod(b, m); }
        ((b % m) * (Pow(b, k - 1) % m)) % m;
        { ModMulBoth(b, Pow(b, k - 1), m); }
        (b * Pow(b, k - 1)) % m;
      }
    }
  }

  lemma ModMod(x: int, m: int)
    requires m > 0
    ensures (x % m) % m == x % m
  {
  }

  /** Adding a multiple of m does not change the remainder. */
  lemma ModAddMultiple(z: int, t: int, m: int)
    requires m > 0
    ensures (m * t + z) % m == z % m
  {
    var q, r := z / m, z % m;
    assert m * t + z == m * (t + q) + r;
    DivModUnique(m * t + z, m, t + q, r);
  }

  /** Euclidean division has unique quotient and remainder. */
  lemma DivModUnique(x: int, m: int, q: int, r: int)
    requires m > 0 && 0 <= r < m && x == m * q + r
    ensures x / m == q && x % m == r
  {
    var q', r' := x / m, x % m;
    assert x == m * q' + r';
    assert m * (q - q') == r' - r;
    if q > q' {
      MulMono(m, q - q');
    } else if q < q' {
      MulMono(m, q' - q);
    }
  }

  lemma MulMono(m: int, t: int)
    requires m > 0 && t >= 1
    ensures m * t >= m
  {
  }

  /** Products may be reduced factor by factor. */
  lemma ModMulBoth(x: int, y: int, m: int)
    requires m > 0
    ensures ((x % m) * (y % m)) % m == (x * y) % m
  {
    ProductRemainder(x, y, m, x / m, x % m, y / m, y % m);
  }

  /** With x = m*qx + rx and y = m*qy + ry, x*y leaves the remainder of rx*ry. */
  lemma ProductRemainder(x: int, y: int, m: int, qx: int, rx: int, qy: int, ry: int)
    requires m > 0 && x == m * qx + rx && y == m * qy + ry
    ensures (x * y) % m == (rx * ry) % m
  {
    var t := qx * m * qy + qx * ry + rx * qy;
    ProductExpansion(m, qx, rx, qy, ry);
    ModAddMultiple(rx * ry, t, m);
  }

  lemma ProductExpansion(m: int, qx: int, rx: int, qy: int, ry: int)
    ensures (m * qx + rx) * (m * qy + ry) == m * (qx * m * qy + qx * ry + rx * qy) + rx * ry
  {
  }

  // ---------------------------------------------------------------------
  // Greatest common divisor
  // ---------------------------------------------------------------------

  /** A multiple of d is d times its quotient. */
  lemma DividesExact(d: int, x: int)
    requires Divides(d, x)
    ensures x == d * (x / d)
  {
  }

  /** A positive multiple of d is at least d. */
  lemma DivisorBound(d: int, x: int)
    requires Divides(d, x) && x > 0
    ensures d <= x
  {
    var q := x / d;
    assert x == d * q;
    assert q >= 1;
    MulMono(d, q);
  }

  /** Divisibility is closed under integer linear combinations. */
  lemma DividesLinear(d: int, x: int, y: int, k: int)
    requires Divides(d, x) && Divides(d, y)
    ensures Divides(d, x * k + y)
  {
    var qx, qy := x / d, y / d;
    assert x * k + y == d * (qx * k + qy) + 0 by {
      assert x == d * qx && y == d * qy;
    }
    DivModUnique(x * k + y, d, qx * k + qy, 0);
  }

  /** The gcd divides both arguments and is positive unless both are zero. */
  lemma {:induction false} NatGcdDivides(a: nat, b: nat)
    requires a > 0 || b > 0
    ensures NatGcd(a, b) > 0
    ensures Divides(NatGcd(a, b), a) && Divides(NatGcd(a, b), b)
    decreases b
  {
    if b == 0 {
      DivModUnique(a, a, 1, 0);
      DivModUnique(0, a, 0, 0);
    } else {
      var r := a % b;
      NatGcdDivides(b, r);
      var g := NatGcd(b, r);
      assert NatGcd(a, b) == g;
      assert a == b * (a / b) + r;
      DividesLinear(g, b, r, a / b);
    }
  }

  /** Every common divisor divides the gcd: it is the greatest one. */
  lemma {:induction false} NatGcdGreatest(a: nat, b: nat, c: int)
    requires Divides(c, a) && Divides(c, b)
    ensures NatGcd(a, b) % c == 0
    decreases b
  {
    if b > 0 {
      var r := a % b;
      assert r == b * -(a / b) + a;
      DividesLinear(c, b, a, -(a / b));
      NatGcdGreatest(b, r, c);
      assert NatGcd(a, b) == NatGcd(b, r);
    }
  }

  lemma DividesAbs(d: int, x: int)
    ensures Divides(d, Abs(x)) <==> Divides(d, x)
  {
    if d > 0 && x < 0 {
      if Divides(d, x) {
        DividesLinear(d, x, 0, -1);
      }
      if Divides(d, -x) {
        DividesLinear(d, -x, 0, -1);
      }
    }
  }

  /**
   * `gcd(x, N)` for N > 0 is a positive common divisor of x and N that every
   * common divisor divides.
   */
  lemma GcdIsGreatestCommonDivisor(x: int, n: int)
    requires n > 0
    ensures Divides(Gcd(x, n), x) && Divides(Gcd(x, n), n)
    ensures forall c :: Divides(c, x) && Divides(c, n) ==> Gcd(x, n) % c == 0
  {
    NatGcdDivides(Abs(x), n);
    DividesAbs(Gcd(x, n), x);
    forall c | Divides(c, x) && Divides(c, n)
      ensures Gcd(x, n) % c == 0
    {
      DividesAbs(c, x);
      NatGcdGreatest(Abs(x), n, c);
    }
  }

  /**
   * Dividing both arguments by their gcd leaves coprime numbers: this is
   * why a normalised fraction is in lowest terms.
   */
  lemma ReducedCoprime(a: nat, b: nat)
    requires b > 0
    ensures var g := NatGcd(a, b); g > 0 && NatGcd(a / g, b / g) == 1
  {
    var g := NatGcd(a, b);
    NatGcdDivides(a, b);
    var a', b' := a / g, b / g;
    assert b' > 0 by {
      assert b == g * b';
    }
    NatGcdDivides(a', b');
    var h := NatGcd(a', b');
    ProductDivides(g, h, a);
    ProductDivides(g, h, b);
    NatGcdGreatest(a, b, g * h);
    DivisorBound(g * h, g);
  }

  /** If g divides x and h divides x / g, then g * h divides x. */
  lemma ProductDivides(g: int, h: int, x: int)
    requires Divides(g, x) && Divides(h, x / g)
    ensures Divides(g * h, x)
  {
    var q := x / g;
    var t := q / h;
    assert x == g * q;
    assert q == h * t;
    assert x == (g * h) * t + 0;
    DivModUnique(x, g * h, t, 0);
  }
}
