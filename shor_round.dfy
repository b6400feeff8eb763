/**
 * One round of `run_shors_algorithm`: the classical gcd check over all
 * sampled bases, then, for each base whose circuit produced a non-empty
 * histogram, period extraction and the factor test on a^(r/2) mod N. The
 * bases and the histograms the backend returned for their circuits are
 * inputs of the round.
 */
module ShorRound {
  import opened NumberTheory
  import opened PeriodFinding
  import opened Fractions
  import opened Wrappers

  /** (p, q) is a factorisation of N into two numbers with 1 < p < N. */
  predicate IsFactorPair(N: int, p: int, q: int)
  {
    1 < p < N && p * q == N
  }

  /** `1 < factor < N` */
  predicate Proper(f: int, N: int)
  {
    1 < f < N
  }

  /** A proper divisor f of N > 0 yields the pair (f, N // f). */
  lemma ProperDivisorPair(f: int, N: int)
    requires Proper(f, N) && Divides(f, N)
    ensures IsFactorPair(N, f, N / f)
  {
    DividesExact(f, N);
  }

  /**
   * The classical check: the gcd of the first base that shares a proper
   * factor with N, or None when no base does.
   */
  function FirstGcdFactor(N: int, bases: seq<int>): (r: Option<nat>)
    requires N > 0
    ensures r.Some? ==> Proper(r.value, N) && Divides(r.value, N)
  {
    if bases == [] then None
    else
      var f := Gcd(bases[0], N);
      GcdIsGreatestCommonDivisor(bases[0], N);
      if Proper(f, N) then Some(f) else FirstGcdFactor(N, bases[1..])
  }

  /**
   * The classical check finds a factor exactly when some base shares a
   * proper factor with N, and then it is the gcd of the first such base.
   */
  lemma {:induction false} FirstGcdFactorSpec(N: int, bases: seq<int>)
    requires N > 0
    ensures var r := FirstGcdFactor(N, bases);
      && (r.Some? <==> exists a :: a in bases && Proper(Gcd(a, N), N))
      && (r.Some? ==> exists i :: (0 <= i < |bases| && r.value == Gcd(bases[i], N)
            && forall j :: 0 <= j < i ==> !Proper(Gcd(bases[j], N), N)))
  {
    if bases != [] {
      FirstGcdFactorSpec(N, bases[1..]);
      assert forall a :: a in bases <==> a == bases[0] || a in bases[1..];
      var rest := FirstGcdFactor(N, bases[1..]);
      if !Proper(Gcd(bases[0], N), N) && rest.Some? {
        var i' :| 0 <= i' < |bases[1..]| && rest.value == Gcd(bases[1..][i'], N)
          && forall j :: 0 <= j < i' ==> !Proper(Gcd(bases[1..][j], N), N);
        forall j | 0 <= j < i' + 1
          ensures !Proper(Gcd(bases[j], N), N)
        {
          if j > 0 {
            assert bases[j] == bases[1..][j - 1];
          }
        }
        assert bases[i' + 1] == bases[1..][i'];
      }
    }
  }

  /**
   * The factor test for base a and even period r: x = a^(r/2) mod N, then
   * gcd(x - 1, N) and gcd(x + 1, N) in that order; the first proper one is a
   * divisor of N.
   */
  function FactorFromPeriod(a: int, r: nat, N: int): (f: Option<nat>)
    requires N > 0
    ensures f.Some? ==> Proper(f.value, N) && Divides(f.value, N)
    ensures f.None? <==> var x := ModPow(a, r / 2, N); !Proper(Gcd(x - 1, N), N) && !Proper(Gcd(x + 1, N), N)
  {
    var x := ModPow(a, r / 2, N);
    GcdIsGreatestCommonDivisor(x - 1, N);
    GcdIsGreatestCommonDivisor(x + 1, N);
    if Proper(Gcd(x - 1, N), N) then Some(Gcd(x - 1, N))
    else if Proper(Gcd(x + 1, N), N) then Some(Gcd(x + 1, N))
    else None
  }

  /**
   * One iteration of the loop over `zip(bases, results)` for base a and its
   * histogram: an empty histogram is skipped; an exception raised by period
   * extraction ends the round; an even period is tested, and a proper factor
   * ends the round. `rest` is the outcome of the remaining iterations.
   */
  function QuantumStep(N: int, a: int, counts: Histogram, rest: Result<Option<nat>, PeriodError>): (r: Result<Option<nat>, PeriodError>)
    requires N >= 1
    ensures r != rest ==> r.Failure? || (r.value.Some? && Proper(r.value.value, N) && Divides(r.value.value, N))
  {
    if counts == [] then rest
    else
      match OptimizedPeriodFinding(counts, N)
      case Failure(e) => Failure(e)
      case Success(period) =>
        if period.Some? && period.value % 2 == 0 then
          match FactorFromPeriod(a, period.value, N)
          case Some(f) => Success(Some(f))
          case None => rest
        else rest
  }

  /**
   * The quantum half of the round: the iterations over `zip(bases, results)`
   * in order; the first one that ends the round decides its outcome. Failure
   * is an exception, which ends the round with no factor.
   */
  function QuantumPhase(N: int, bases: seq<int>, hists: seq<Histogram>): (r: Result<Option<nat>, PeriodError>)
    requires N >= 1
    ensures r.Success? && r.value.Some? ==> Proper(r.value.value, N) && Divides(r.value.value, N)
    decreases |bases|
  {
    if bases == [] || hists == [] then Success(None)
    else QuantumStep(N, bases[0], hists[0], QuantumPhase(N, bases[1..], hists[1..]))
  }

  /** The outcome from iteration k on is iteration k followed by the rest. */
  lemma QuantumPhaseFrom(N: int, bases: seq<int>, hists: seq<Histogram>, k: nat)
    requires N >= 1 && k < |bases| && k < |hists|
    ensures QuantumPhase(N, bases[k..], hists[k..])
         == QuantumStep(N, bases[k], hists[k], QuantumPhase(N, bases[k + 1..], hists[k + 1..]))
  {
    assert bases[k..][1..] == bases[k + 1..];
    assert hists[k..][1..] == hists[k + 1..];
  }

  /** The factor one round finds, if any. */
  function Round(N: int, bases: seq<int>, hists: seq<Histogram>): (r: Option<nat>)
    requires N >= 1
    ensures r.Some? ==> Proper(r.value, N) && Divides(r.value, N)
  {
    match FirstGcdFactor(N, bases)
    case Some(f) => Some(f)
    case None =>
      match QuantumPhase(N, bases, hists)
      case Success(Some(f)) => Some(f)
      case _ => None
  }

  /** The pair `(factor, N // factor)` the round returns for a factor it found. */
  function AsPair(f: Option<nat>, N: int): Option<(int, int)>
    requires f.Some? ==> f.value > 0
  {
    if f.Some? then Some((f.value, N / f.value)) else None
  }

  /**
   * One pass of the `while True` body of `run_shors_algorithm`, given the
   * sampled bases and the histograms returned for their circuits: it returns
   * the pair for the factor `Round` finds, and that pair factors N.
   */
  method RunRound(N: int, bases: seq<int>, hists: seq<Histogram>) returns (result: Option<(int, int)>)
    requires N >= 1
    ensures result == AsPair(Round(N, bases, hists), N)
    ensures result.Some? ==> IsFactorPair(N, result.value.0, result.value.1)
  {
    for i := 0 to |bases|
      invariant FirstGcdFactor(N, bases) == FirstGcdFactor(N, bases[i..])
    {
      assert bases[i..][1..] == bases[i + 1..];
      var factor := Gcd(bases[i], N);
      if 1 < factor < N {
        ProperDivisorPair(factor, N);
        return Some((factor, N / factor));
      }
    }
    assert FirstGcdFactor(N, bases) == None;
    // Here the source builds one circuit per base and runs them; `hists` are their results.
    ghost var outcome := QuantumPhase(N, bases, hists);
    var k := 0;
    while k < |bases| && k < |hists|
      invariant 0 <= k <= |bases| && k <= |hists|
      invariant outcome == QuantumPhase(N, bases[k..], hists[k..])
    {
      QuantumPhaseFrom(N, bases, hists, k);
      var a, counts := bases[k], hists[k];
      ghost var rest := QuantumPhase(N, bases[k + 1..], hists[k + 1..]);
      if counts != [] {
        var period := OptimizedPeriodFinding(counts, N);
        if period.Failure? {
          // The ValueError propagates to the blanket `except`, ending the round.
          return None;
        }
        if period.value.Some? && period.value.value % 2 == 0 {
          var f := TestPeriod(a, period.value.value, N);
          if f.Some? {
            return f;
          }
        }
      }
      k := k + 1;
    }
    return None;
  }

  /** The factor test yields the first proper gcd among those it tries. */
  lemma FactorFromPeriodTests(a: int, r: nat, N: int, x: int, tests: seq<nat>)
    requires N >= 1 && x == ModPow(a, r / 2, N) && tests == [Gcd(x - 1, N), Gcd(x + 1, N)]
    ensures forall t :: 0 <= t < 2 && Proper(tests[t], N) && (t == 1 ==> !Proper(tests[0], N)) ==>
      FactorFromPeriod(a, r, N) == Some(tests[t]) && Divides(tests[t], N)
    ensures !Proper(tests[0], N) && !Proper(tests[1], N) ==> FactorFromPeriod(a, r, N) == None
  {
  }

  /**
   * The factor test on one period: x = a^(r/2) mod N, then the proper one
   * of gcd(x - 1, N) and gcd(x + 1, N), tried in that order.
   */
  method TestPeriod(a: int, r: nat, N: int) returns (result: Option<(int, int)>)
    requires N >= 1
    ensures result == AsPair(FactorFromPeriod(a, r, N), N)
    ensures result.Some? ==> IsFactorPair(N, result.value.0, result.value.1)
  {
    var x := ModularExponentiation(a, r / 2, N);
    var tests := [Gcd(x - 1, N), Gcd(x + 1, N)];
    FactorFromPeriodTests(a, r, N, x, tests);
    for t := 0 to 2
      invariant forall u :: 0 <= u < t ==> !Proper(tests[u], N)
    {
      var factor := tests[t];
      if 1 < factor < N {
        ProperDivisorPair(factor, N);
        return Some((factor, N / factor));
      }
    }
    return None;
  }

  // ---------------------------------------------------------------------
  // Properties of a round
  // ---------------------------------------------------------------------

  /** Whatever a round returns is a proper divisor of N, so (p, N // p) factors N. */
  lemma RoundFactorsN(N: int, bases: seq<int>, hists: seq<Histogram>)
    requires N >= 1
    requires Round(N, bases, hists).Some?
    ensures var p := Round(N, bases, hists).value; IsFactorPair(N, p, N / p)
  {
    var p := Round(N, bases, hists).value;
    ProperDivisorPair(p, N);
  }

  /**
   * The gcd check runs over all bases before any histogram is looked at:
   * when a base shares a proper factor with N, the round's answer is that
   * gcd, whatever the histograms.
   */
  lemma GcdShortCircuit(N: int, bases: seq<int>, hists1: seq<Histogram>, hists2: seq<Histogram>)
    requires N >= 1
    requires exists a :: a in bases && Proper(Gcd(a, N), N)
    ensures Round(N, bases, hists1) == Round(N, bases, hists2) == FirstGcdFactor(N, bases)
    ensures Round(N, bases, hists1).Some?
  {
    FirstGcdFactorSpec(N, bases);
  }

  /** A base whose histogram is empty (a failed execution) is skipped as if absent. */
  lemma {:induction false} EmptyHistogramSkipped(N: int, bases: seq<int>, hists: seq<Histogram>, i: nat)
    requires N >= 1
    requires i < |bases| && i < |hists| && hists[i] == []
    ensures QuantumPhase(N, bases, hists)
         == QuantumPhase(N, bases[..i] + bases[i + 1..], hists[..i] + hists[i + 1..])
  {
    var bs, hs := bases[..i] + bases[i + 1..], hists[..i] + hists[i + 1..];
    if i > 0 {
      EmptyHistogramSkipped(N, bases[1..], hists[1..], i - 1);
      assert bs[0] == bases[0] && hs[0] == hists[0];
      assert bs[1..] == bases[1..][..i - 1] + bases[1..][i..];
      assert hs[1..] == hists[1..][..i - 1] + hists[1..][i..];
    } else {
      assert bs == bases[1..];
      assert hs == hists[1..];
    }
  }

  /** With N = 15 and base 5, the gcd check alone gives the factor 5 and the pair (5, 3). */
  lemma FifteenByGcd(hists: seq<Histogram>)
    ensures Round(15, [5], hists) == Some(5)
    ensures IsFactorPair(15, 5, 15 / 5)
  {
    assert Gcd(5, 15) == 5;
  }

  /**
   * N = 21 with base 2 (of order 6): all shots on the 10-bit phase bin 171,
   * close to 1/6, give period 6; then x = 2^3 mod 21 = 8 and gcd(7, 21) = 7
   * is tried first, so the round's pair is (7, 3).
   */
  lemma TwentyOneWithBaseTwo()
    ensures var bits := [false, false, true, false, true, false, true, false, true, true];
      && BitsValue(bits) == 171
      && OptimizedPeriodFinding([Entry(bits, 4096)], 21) == Success(Some(6))
      && FactorFromPeriod(2, 6, 21) == Some(7)
      && Round(21, [2], [[Entry(bits, 4096)]]) == Some(7)
      && AsPair(Some(7), 21) == Some((7, 3))
  {
    var bits := [false, false, true, false, true, false, true, false, true, true];
    PhaseOfBin171(bits);
    LimitDenominatorNearSixth();
    assert Candidate(bits, 21) == 6;
    var h := [Entry(bits, 4096)];
    assert Kept(h, 4096) == [bits];
    assert Candidates([bits], 21) == [6];
    assert [] !in Kept(h, 4096);
    assert MinQualifying([6], 21) == Some(6);
    assert OptimizedPeriodFinding(h, 21) == Success(Some(6)) by {
      assert TotalShots(h) == 4096;
    }
    assert Pow(2, 3) == 8;
    assert Gcd(7, 21) == 7 by {
      assert NatGcd(7, 21) == NatGcd(21, 7) == NatGcd(7, 0);
    }
    assert FactorFromPeriod(2, 6, 21) == Some(7);
    assert Gcd(2, 21) == 1 by {
      assert NatGcd(2, 21) == NatGcd(21, 2) == NatGcd(2, 1) == NatGcd(1, 0);
    }
    assert FirstGcdFactor(21, [2]) == None;
    assert QuantumPhase(21, [2], [h]) == Success(Some(7));
  }
}
