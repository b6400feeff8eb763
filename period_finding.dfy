/**
 * `optimized_period_finding`: from a counts histogram of measured control
 * register bitstrings to the smallest even period candidate, via a relative
 * noise threshold, phases read as binary fractions, and bounded-denominator
 * continued-fraction approximation.
 */
module PeriodFinding {
  import opened NumberTheory
  import opened Fractions
  import opened Wrappers

  /** One `(bitstring, count)` item of a counts histogram. */
  datatype Entry = Entry(bits: seq<bool>, count: nat)

  /** A counts histogram, as the list of its items in iteration order. */
  type Histogram = seq<Entry>

  /** `int(output, 2)` raises `ValueError` on an empty bitstring. */
  datatype PeriodError = InvalidBitstring

  /** `sum(counts.values())` */
  function TotalShots(h: Histogram): nat
  {
    if h == [] then 0 else h[0].count + TotalShots(h[1..])
  }

  /** `count >= 0.02 * total_shots`, with 0.02 read as the exact 1/50. */
  predicate AboveThreshold(count: nat, total: nat)
  {
    50 * count >= total
  }

  /** b is the bitstring of an item of h that passes the threshold of h's own total. */
  ghost predicate IsKept(h: Histogram, b: seq<bool>)
  {
    exists e :: e in h && e.bits == b && AboveThreshold(e.count, TotalShots(h))
  }

  /** The bitstrings whose count passes the threshold, in histogram order. */
  function Kept(h: Histogram, total: nat): (r: seq<seq<bool>>)
    ensures forall b :: b in r <==> exists e :: e in h && e.bits == b && AboveThreshold(e.count, total)
  {
    if h == [] then []
    else
      var rest := Kept(h[1..], total);
      assert forall e :: e in h <==> e == h[0] || e in h[1..];
      (if AboveThreshold(h[0].count, total) then [h[0].bits] else []) + rest
  }

  /** `int(bits, 2)`: the bitstring read most significant bit first. */
  function BitsValue(bits: seq<bool>): (v: nat)
    ensures v < Pow2(|bits|)
  {
    if bits == [] then 0
    else 2 * BitsValue(bits[..|bits| - 1]) + (if bits[|bits| - 1] then 1 else 0)
  }

  /**
   * `Fraction(int(bits, 2) / 2 ** len(bits))`: the phase as the exact
   * rational, in lowest terms, in [0, 1).
   */
  function Phase(bits: seq<bool>): (f: Fraction)
    ensures Normalised(f) && 0 <= f.num < f.den
    ensures f.num * Pow2(|bits|) == BitsValue(bits) * f.den
  {
    var f := MakeFraction(BitsValue(bits), Pow2(|bits|));
    PhaseBelowOne(BitsValue(bits), Pow2(|bits|), f);
    f
  }

  /** 0010101011, read most significant bit first, is 171. */
  lemma BitsValue171(bits: seq<bool>)
    requires bits == [false, false, true, false, true, false, true, false, true, true]
    ensures BitsValue(bits) == 171
  {
    assert BitsValue(bits[..1]) == 0;
    assert bits[..2][..1] == bits[..1];
    assert BitsValue(bits[..2]) == 0;
    assert bits[..3][..2] == bits[..2];
    assert BitsValue(bits[..3]) == 1;
    assert bits[..4][..3] == bits[..3];
    assert BitsValue(bits[..4]) == 2;
    assert bits[..5][..4] == bits[..4];
    assert BitsValue(bits[..5]) == 5;
    assert bits[..6][..5] == bits[..5];
    assert BitsValue(bits[..6]) == 10;
    assert bits[..7][..6] == bits[..6];
    assert BitsValue(bits[..7]) == 21;
    assert bits[..8][..7] == bits[..7];
    assert BitsValue(bits[..8]) == 42;
    assert bits[..9][..8] == bits[..8];
    assert BitsValue(bits[..9]) == 85;
    assert bits[..10][..9] == bits[..9];
    assert bits[..10] == bits;
    assert BitsValue(bits) == 171;
  }

  /** The 10-bit string 0010101011 reads as 171, so its phase is 171/1024. */
  lemma PhaseOfBin171(bits: seq<bool>)
    requires bits == [false, false, true, false, true, false, true, false, true, true]
    ensures BitsValue(bits) == 171 && Phase(bits) == Fraction(171, 1024)
  {
    BitsValue171(bits);
    assert Pow2(10) == 1024;
    assert Gcd(171, 1024) == 1 by {
      assert NatGcd(171, 1024) == NatGcd(1024, 171) == NatGcd(171, 169) == NatGcd(169, 2)
        == NatGcd(2, 1) == NatGcd(1, 0);
    }
    assert MakeFraction(171, 1024) == Fraction(171, 1024);
  }

  /** A fraction with the value of v/q, v < q, has numerator below its denominator. */
  lemma PhaseBelowOne(v: nat, q: nat, f: Fraction)
    requires v < q && f.den >= 1 && f.num * q == v * f.den
    ensures f.num < f.den
  {
  }

  /** `Fraction(phase).limit_denominator(N).denominator`: a period candidate. */
  function Candidate(bits: seq<bool>, N: int): (r: nat)
    requires N >= 1
    ensures 1 <= r <= N
  {
    LimitDenominator(Phase(bits), N).den
  }

  /** The candidates list, one per kept bitstring. */
  function Candidates(keys: seq<seq<bool>>, N: int): (r: seq<nat>)
    requires N >= 1
    ensures forall c :: c in r <==> exists b :: b in keys && Candidate(b, N) == c
  {
    var r := seq(|keys|, i requires 0 <= i < |keys| => Candidate(keys[i], N));
    assert forall b :: b in keys ==> exists i :: 0 <= i < |keys| && keys[i] == b && r[i] == Candidate(b, N);
    r
  }

  /** `r % 2 == 0 and 1 < r < N` */
  predicate Qualifies(r: int, N: int)
  {
    r % 2 == 0 && 1 < r < N
  }

  /** `min((r for r in candidates if ...), default=None)` */
  function MinQualifying(cands: seq<nat>, N: int): (r: Option<nat>)
    ensures r.Some? ==> r.value in cands && Qualifies(r.value, N)
    ensures r.Some? ==> forall c :: c in cands && Qualifies(c, N) ==> r.value <= c
    ensures r.None? ==> forall c :: c in cands ==> !Qualifies(c, N)
  {
    if cands == [] then None
    else
      var rest := MinQualifying(cands[1..], N);
      assert forall c :: c in cands <==> c == cands[0] || c in cands[1..];
      if Qualifies(cands[0], N) && (rest.None? || cands[0] <= rest.value) then Some(cands[0])
      else rest
  }

  /**
   * `optimized_period_finding(counts, N)`. Failure stands for the
   * `ValueError` an empty surviving bitstring raises; otherwise the result is
   * the least qualifying candidate, or None.
   */
  function OptimizedPeriodFinding(h: Histogram, N: int): (r: Result<Option<nat>, PeriodError>)
    requires N >= 1
    ensures r.Success? && r.value.Some? ==> Qualifies(r.value.value, N)
  {
    var kept := Kept(h, TotalShots(h));
    if [] in kept then Failure(InvalidBitstring)
    else Success(MinQualifying(Candidates(kept, N), N))
  }

  // ---------------------------------------------------------------------
  // Properties
  // ---------------------------------------------------------------------

  /**
   * What period extraction returns, in terms of the bitstrings that pass the
   * threshold: an error exactly when one of them is empty; otherwise the
   * least candidate denominator of a kept bitstring that is even and strictly
   * between 1 and N, or None when no kept bitstring gives one.
   */
  lemma PeriodFindingSpec(h: Histogram, N: int)
    requires N >= 1
    ensures var r := OptimizedPeriodFinding(h, N);
      && (r.Failure? <==> IsKept(h, []))
      && (r.Success? && r.value.Some? ==>
           && Qualifies(r.value.value, N)
           && (exists b :: IsKept(h, b) && Candidate(b, N) == r.value.value)
           && (forall b :: IsKept(h, b) && Qualifies(Candidate(b, N), N) ==> r.value.value <= Candidate(b, N)))
      && (r.Success? && r.value.None? ==> forall b :: IsKept(h, b) ==> !Qualifies(Candidate(b, N), N))
  {
    var kept := Kept(h, TotalShots(h));
    var cands := Candidates(kept, N);
    assert forall b :: IsKept(h, b) ==> Candidate(b, N) in cands;
  }

  /** An empty histogram (a failed execution) yields no period. */
  lemma EmptyHistogramNoPeriod(N: int)
    requires N >= 1
    ensures OptimizedPeriodFinding([], N) == Success(None)
  {
  }

  /**
   * The result depends on the histogram only through the set of bitstrings
   * that pass the threshold: counts, order and the items that fall below
   * the threshold do not matter.
   */
  lemma SameKeptSameResult(h1: Histogram, h2: Histogram, N: int)
    requires N >= 1
    requires forall b :: IsKept(h1, b) <==> IsKept(h2, b)
    ensures OptimizedPeriodFinding(h1, N) == OptimizedPeriodFinding(h2, N)
  {
    var r1, r2 := OptimizedPeriodFinding(h1, N), OptimizedPeriodFinding(h2, N);
    PeriodFindingSpec(h1, N);
    PeriodFindingSpec(h2, N);
    assert IsKept(h1, []) <==> IsKept(h2, []);
    if r1.Success? && r2.Success? {
      if r1.value.Some? {
        KeptMinBound(h1, h2, N);
      }
      if r2.value.Some? {
        KeptMinBound(h2, h1, N);
      }
    }
  }

  /** A period found in h1 bounds the one found in h2 when h2 keeps every bitstring h1 keeps. */
  lemma KeptMinBound(h1: Histogram, h2: Histogram, N: int)
    requires N >= 1
    requires forall b :: IsKept(h1, b) ==> IsKept(h2, b)
    requires OptimizedPeriodFinding(h1, N).Success? && OptimizedPeriodFinding(h1, N).value.Some?
    requires OptimizedPeriodFinding(h2, N).Success?
    ensures OptimizedPeriodFinding(h2, N).value.Some?
    ensures OptimizedPeriodFinding(h2, N).value.value <= OptimizedPeriodFinding(h1, N).value.value
  {
    PeriodFindingSpec(h1, N);
    PeriodFindingSpec(h2, N);
    var p1 := OptimizedPeriodFinding(h1, N).value.value;
    var b1 :| IsKept(h1, b1) && Candidate(b1, N) == p1;
    assert IsKept(h2, b1);
  }

  lemma {:induction false} TotalShotsAppend(h: Histogram, e: Entry)
    ensures TotalShots(h + [e]) == TotalShots(h) + e.count
  {
    if h != [] {
      assert (h + [e])[1..] == h[1..] + [e];
      TotalShotsAppend(h[1..], e);
    }
  }

  /**
   * Appending an item that falls below the new threshold leaves the result
   * unchanged, provided every item kept before is still kept under the
   * larger total.
   */
  lemma NoiseEntryIgnored(h: Histogram, e: Entry, N: int)
    requires N >= 1
    requires !AboveThreshold(e.count, TotalShots(h) + e.count)
    requires forall x :: x in h && AboveThreshold(x.count, TotalShots(h)) ==> AboveThreshold(x.count, TotalShots(h) + e.count)
    ensures OptimizedPeriodFinding(h + [e], N) == OptimizedPeriodFinding(h, N)
  {
    TotalShotsAppend(h, e);
    var h' := h + [e];
    assert forall x :: x in h' <==> x in h || x == e;
    forall b
      ensures IsKept(h', b) <==> IsKept(h, b)
    {
      if IsKept(h, b) {
        var x :| x in h && x.bits == b && AboveThreshold(x.count, TotalShots(h));
        assert x in h';
      }
    }
    SameKeptSameResult(h', h, N);
  }

  /**
   * The threshold is relative to the total, so a low-count item can push a
   * previously kept item under it: with N = 3, a phase of 1/2 seen 2 times
   * out of 100 yields period 2, and one more shot on another bitstring drops
   * it and leaves no period.
   */
  lemma NoiseCanChangePeriod()
    ensures var h := [Entry([true], 2), Entry([false], 98)];
            var e := Entry([false, false], 1);
            && !AboveThreshold(e.count, TotalShots(h + [e]))
            && OptimizedPeriodFinding(h, 3) == Success(Some(2))
            && OptimizedPeriodFinding(h + [e], 3) == Success(None)
  {
    var h := [Entry([true], 2), Entry([false], 98)];
    var e := Entry([false, false], 1);
    TotalShotsAppend(h, e);
    PeriodBeforeNoise(h);
    PeriodAfterNoise(h + [e]);
  }

  lemma PeriodBeforeNoise(h: Histogram)
    requires h == [Entry([true], 2), Entry([false], 98)]
    ensures TotalShots(h) == 100
    ensures OptimizedPeriodFinding(h, 3) == Success(Some(2))
  {
    assert Phase([false]) == Fraction(0, 1);
    assert Candidate([false], 3) == 1;
    assert Phase([true]) == Fraction(1, 2);
    assert Candidate([true], 3) == 2;
    assert h[1..] == [Entry([false], 98)];
    assert h[1..][1..] == [];
    assert TotalShots(h[1..]) == 98;
    assert TotalShots(h) == 100;
    assert Kept(h[1..][1..], 100) == [];
    assert Kept(h[1..], 100) == [[false]];
    assert Kept(h, 100) == [[true], [false]];
    var c := Candidates([[true], [false]], 3);
    assert c[0] == 2 && c[1] == 1;
    assert c == [2, 1];
    assert MinQualifying([2, 1], 3) == Some(2);
  }

  lemma PeriodAfterNoise(h: Histogram)
    requires h == [Entry([true], 2), Entry([false], 98), Entry([false, false], 1)]
    ensures OptimizedPeriodFinding(h, 3) == Success(None)
  {
    assert Phase([false]) == Fraction(0, 1);
    assert Candidate([false], 3) == 1;
    assert h[1..] == [Entry([false], 98), Entry([false, false], 1)];
    assert h[1..][1..] == [Entry([false, false], 1)];
    assert TotalShots(h[1..][1..]) == 1;
    assert TotalShots(h) == 101;
    assert Kept(h[1..][1..], 101) == [];
    assert Kept(h[1..], 101) == [[false]];
    assert Kept(h, 101) == [[false]];
    var c := Candidates([[false]], 3);
    assert c[0] == 1;
    assert c == [1];
    assert MinQualifying([1], 3) == None;
  }
}
