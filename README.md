# Shor factoring, classical side — a Dafny model

This project models the classical part of a semiprime factoriser built on
Shor's algorithm (`main.py`). It covers four pieces:

- the square-and-multiply modular exponentiation of `LargeNumberHandler`;
- the circuit generator `LargeNumberShorCircuit`. Its register widths and the
  gate list `_build_circuit` appends are modelled: a Hadamard layer, one
  controlled block per control qubit built from the binary digits of
  a^(2^i) mod N, and a final measurement. What the gates do to a quantum state
  is not modelled;
- `optimized_period_finding`, which runs from a counts histogram to the least
  even period candidate. Its steps are a relative noise threshold, phases read
  as exact binary fractions, and CPython's continued-fraction
  `Fraction.limit_denominator`;
- one pass of the `while True` body of `run_shors_algorithm`: the gcd check
  over all sampled bases, then period extraction and the factor test for each
  base whose histogram is non-empty.

The random bases and the histograms the backend returns are inputs of the
round.

Modules:

| module | file | contents |
|---|---|---|
| `Wrappers` | `wrappers.dfy` | `Option`, `Result` |
| `NumberTheory` | `number_theory.dfy` | `Pow`, `ModPow`, `ModularExponentiation`, Python's `math.gcd` and divisibility lemmas |
| `Fractions` | `fractions.dfy` | normalised `Fraction`, `LimitDenominator` |
| `Circuit` | `circuit.dfy` | `QuantumCircuit` (a gate list appended in place), `ShorCircuit`, the gate-list specification `OracleGates` and its lemmas |
| `PeriodFinding` | `period_finding.dfy` | threshold, phases, candidates, `OptimizedPeriodFinding` |
| `ShorRound` | `shor_round.dfy` | `Round` (specification) and `RunRound` (the loops), factor test, round lemmas |

## Model

| member | source | states |
|---|---|---|
| NumberTheory.ModularExponentiation | main.py:22-31 | The loop returns `base^exponent mod modulus` for a positive exponent. It returns the untouched 1 for exponent <= 0, even when the modulus is 1. For modulus > 1 the result lies in [0, modulus). The invariant keeps `result * b^e` congruent to `base^exponent`. |
| NumberTheory.PowModBase | main.py:25 | Reducing the base modulo m first (`base = base % modulus`) does not change `base^k mod m`. |
| NumberTheory.SquareStep | main.py:27-30 | One iteration (optional multiply, square, halve) keeps `result * b^e mod m` unchanged. |
| NumberTheory.PowSquare | main.py:29 | Squaring the base halves the exponent: `b^(2k) == (b*b)^k`. |
| NumberTheory.GcdIsGreatestCommonDivisor | main.py:100 | `gcd(x, N)` for N > 0 is a positive divisor of both x and N, and every common divisor divides it. This covers negative x, as for `x - 1` at line 111. |
| NumberTheory.NatGcdGreatest | main.py:111 | Every common divisor of a and b divides Euclid's gcd. |
| NumberTheory.ReducedCoprime | main.py:88 | Dividing both numbers by their gcd leaves coprime numbers, which is why `Fraction` is in lowest terms. |
| Fractions.MakeFraction | main.py:88 | `Fraction(p, q)` for q > 0 has the same value as p/q. It is in lowest terms with a denominator at most q, and it is non-negative for p >= 0. |
| Fractions.ConvergentLoop | main.py:89 | The continued-fraction loop of `limit_denominator` stops with convergent denominators q0 and q1 in [0, maxDen] and [1, maxDen] and a positive remainder. It terminates because q1*n + q0*d stays equal to the denominator. |
| Fractions.CfStep | main.py:89 | A step that does not stop keeps the loop invariant: the linear identity, coprime remainders and denominators within the bound. |
| Fractions.LimitDenominator | main.py:89 | The result is in lowest terms with a denominator in [1, maxDen]. It is the fraction itself when its denominator already fits. |
| Fractions.LimitDenominatorNearSixth | main.py:89 | 171/1024 limited to denominators up to 21 is 1/6: the convergent wins over the semiconvergent 3/17. |
| Circuit.BinDigits | main.py:58 | `len(bin(m)) - 2` is at least 1 (`bin(0)` is `'0b0'`). |
| Circuit.BitLengthBounds | main.py:58 | For N >= 1 the bit length n satisfies `2^(n-1) <= N < 2^n`. |
| Circuit.QubitBudgetCap | main.py:59 | `total_qubits` never exceeds 128, and it equals 3n + 2 exactly when n <= 42. |
| Circuit.ShorCircuit.constructor | main.py:56-59 | Stores N, n = `len(bin(N)) - 2` and `total_qubits = min(128, 3n + 2)`. |
| Circuit.ShorCircuit.CreateQuantumCircuits | main.py:61-68 | Returns a fresh circuit with 2n control, n target, 2 ancilla and 2n classical bits. Its gate list is exactly `OracleGates(a, N, n)`. |
| Circuit.ShorCircuit.BuildCircuit | main.py:70-82 | Appends `OracleGates(a, N, n)` to the circuit's gate list: H on each control qubit, then per control qubit i a block for a^(2^i) mod N, then the measurement. |
| Circuit.QuantumCircuit.ApplyH | main.py:72 | `circuit.h(q)` appends one H gate. |
| Circuit.QuantumCircuit.ApplyCX | main.py:77 | `circuit.cx(c, t)` appends one CX gate. |
| Circuit.QuantumCircuit.ApplyCCX | main.py:80 | `circuit.ccx(c1, c2, t)` appends one Toffoli gate. |
| Circuit.QuantumCircuit.ApplyMeasure | main.py:82 | `circuit.measure(qs, cs)` appends one measurement. |
| Circuit.HLayerContents | main.py:71-72 | The Hadamard layer is w gates, H on control qubit i at position i. |
| Circuit.CcxRunContents | main.py:78-80 | The Toffolis of a block are `ccx(anc0, ctrl_i, target_j)` for exactly the set bits j of the value (LSB first), in increasing j. |
| Circuit.BinDigitsBound | main.py:76 | A value below 2^L has at most L binary digits. So `bin(result)[2:]` of a value below N has at most n digits, the zero-filled string has exactly n digits, and every `target[j]` it selects exists. |
| Circuit.SetBitsPopCount | main.py:78-80 | The number of Toffolis equals the population count of the value. |
| Circuit.ControlledBlockShape | main.py:73-81 | Each block is `cx`, then one Toffoli per set bit of a^(2^i) mod N on a target index below n in increasing order, then `cx`. Its length is popcount + 2. |
| Circuit.BlocksGateKinds | main.py:73-81 | The blocks hold only CX and CCX gates, and the CX gates are controlled by control qubits already visited. |
| Circuit.OracleLayout | main.py:70-82 | The gate list starts with exactly 2n Hadamards in control order, has no Hadamard after them, and ends with its only measurement (control register into classical register). |
| Circuit.OracleInRange | main.py:62-82 | For N >= 1, every qubit and classical bit a gate names exists in the registers `create_quantum_circuits` allocates. |
| PeriodFinding.Kept | main.py:86-88 | A bitstring survives the noise filter exactly when some item with that bitstring has `50 * count >= total`. |
| PeriodFinding.BitsValue | main.py:88 | `int(bits, 2)` is below `2^len(bits)`. |
| PeriodFinding.Phase | main.py:88 | The phase is the exact fraction `int(bits,2) / 2^len(bits)` in lowest terms, in [0, 1). |
| PeriodFinding.Candidate | main.py:89 | The denominator of the limited phase lies in [1, N]. |
| PeriodFinding.Candidates | main.py:89 | c is a candidate exactly when some kept bitstring yields denominator c. |
| PeriodFinding.MinQualifying | main.py:90 | `min(..., default=None)` returns a candidate that is even and strictly between 1 and N, at most every such candidate, or None when there is none. |
| PeriodFinding.OptimizedPeriodFinding | main.py:84-90 | A period it returns is even and strictly between 1 and N. |
| PeriodFinding.PeriodFindingSpec | main.py:84-90 | The result is an error (`int('', 2)` raises) exactly when an empty bitstring is kept. Otherwise it is the least qualifying candidate of a kept bitstring, or None exactly when no kept bitstring gives one. |
| PeriodFinding.EmptyHistogramNoPeriod | main.py:84-90 | An empty histogram yields no period. |
| PeriodFinding.SameKeptSameResult | main.py:86-90 | Two histograms that keep the same bitstrings give the same result, whatever their counts and order. |
| PeriodFinding.KeptMinBound | main.py:90 | Keeping more bitstrings can only lower the period found. |
| PeriodFinding.TotalShotsAppend | main.py:86 | Appending an item adds its count to the total. |
| PeriodFinding.NoiseEntryIgnored | main.py:86-88 | Adding an item below the new threshold leaves the result unchanged, provided every previously kept item stays above the raised threshold. |
| PeriodFinding.NoiseCanChangePeriod | main.py:86-90 | The threshold is relative: with N = 3, adding a single sub-threshold shot drops a kept phase 1/2 and changes the period from 2 to none. |
| ShorRound.ProperDivisorPair | main.py:101-102 | A proper divisor f gives `(f, N // f)` with `f * (N // f) == N`. |
| ShorRound.FirstGcdFactor | main.py:99-102 | A factor found by the gcd check is a proper divisor of N. |
| ShorRound.FirstGcdFactorSpec | main.py:99-102 | The gcd check finds a factor exactly when some base shares a proper factor with N, and it is the gcd of the first such base. |
| ShorRound.FactorFromPeriod | main.py:110-113 | With x = a^(r//2) mod N, the test returns a proper divisor of N. It returns None exactly when neither gcd(x-1, N) nor gcd(x+1, N) is proper. |
| ShorRound.QuantumStep | main.py:105-113 | One iteration either passes the remaining iterations' outcome through or ends the round with an error or with a proper divisor of N. |
| ShorRound.QuantumPhase | main.py:105-113 | A factor the quantum half finds is a proper divisor of N. |
| ShorRound.QuantumPhaseFrom | main.py:105 | The outcome from iteration k on is iteration k followed by the rest. |
| ShorRound.Round | main.py:99-113 | A factor a round finds is a proper divisor of N. |
| ShorRound.RunRound | main.py:99-113 | The loops return exactly the pair `(f, N // f)` for the factor `Round` finds, or None. Any pair returned factors N. |
| ShorRound.TestPeriod | main.py:110-113 | The loop over the two gcds returns the pair for `FactorFromPeriod`, or None. Any pair returned factors N. |
| ShorRound.RoundFactorsN | main.py:99-113 | Whatever a round returns gives a factor pair of N. |
| ShorRound.GcdShortCircuit | main.py:99-104 | When any base shares a proper factor with N, the round's answer is the first such gcd, whatever the histograms. |
| ShorRound.EmptyHistogramSkipped | main.py:105-107 | A base with an empty histogram can be removed without changing the round's outcome. |
| ShorRound.FifteenByGcd | main.py:99-102 | N = 15 with base 5 gives factor 5 by the gcd check alone. |
| PeriodFinding.BitsValue171 | main.py:88 | `int('0010101011', 2)` is 171. |
| PeriodFinding.PhaseOfBin171 | main.py:88 | The 10-bit string 0010101011 reads as 171, with phase 171/1024. |
| ShorRound.TwentyOneWithBaseTwo | main.py:99-113 | For N = 21 and base 2, a histogram on bin 171 of 1024 gives period 6. Then gcd(7, 21) = 7 is tried first, so the round returns (7, 3). |

## Left out

- `OptimizedQuantumRings` (main.py:33-53): provider login, backend submission, retries with `time.sleep`, and the thread pool. These are I/O and concurrency. Their results are the `hists` parameter of the round; a histogram the retries gave up on is the empty one.
- The random bases (main.py:98). These come from a random generator and are the `bases` parameter.
- Elapsed time, the third value `run_shors_algorithm` returns, is left out, because it reads a clock.
- The outer `while True` and `except Exception: pass` (main.py:96-97, 114-115) are modelled for a single round only. Within the modelled steps, the only exception that can arise is period extraction's `ValueError` on an empty bitstring, and it ends the round with no factor. The `IndexError` that `target[j]` could raise is ruled out by `Circuit.OracleInRange`. Exceptions from `np.random.randint` and from the circuit library calls are not modelled.
- `main()` (main.py:117-143) is console input and output, and is left out.
- The semantics of the quantum gates and of the simulator are not modelled. The circuit is modelled only as its gate list.
- PeriodFinding.Phase: the source computes `int(bits,2) / 2**len` as a float before `Fraction(...)`. The model uses the exact rational. The two agree while the bitstring is at most 53 bits long; the float rounding beyond that is not modelled.
- PeriodFinding.AboveThreshold: `0.02 * total_shots` is modelled as the exact 1/50 (`50 * count >= total`). The float product 0.02 * total can differ from total / 50 in the last bit.
- PeriodFinding.OptimizedPeriodFinding: the histogram is the list of the dictionary's items in iteration order, not a map. Duplicate keys are allowed in the model, though a dict has none.
- Fractions.LimitDenominator: stated for non-negative numerators only, which is all that phases need. Its contract bounds the denominator and covers the fits-already case, but does not state that the result is the closest fraction with such a denominator. The comparison of the two bounds is written in CPython's integer form.
- `Fraction` and `limit_denominator` come from Python's standard library. They are modelled after CPython's algorithm; `fractions.py` is not part of this model.
- Circuit.ShorCircuit.CreateQuantumCircuits: requires N > 0. For N <= 0, `bin` and `%` with a non-positive modulus behave differently, and `main` only passes N >= 4.
- ShorRound.RunRound: requires N >= 1, for the same reason.

## Notes on the code's behaviour

- `total_qubits` is computed but never used. The registers are always 2n, n, 2 and 2n wide (`Circuit.ShorCircuit.CreateQuantumCircuits`).
- The 2% threshold is relative to the total, so one extra low-count item can drop a kept bitstring (`PeriodFinding.NoiseCanChangePeriod`). `PeriodFinding.NoiseEntryIgnored` states when such an item is ignored.
- `gcd(x - 1, N)` is tried first, so N = 21 with base 2 returns (7, 3) (`ShorRound.TwentyOneWithBaseTwo`).
