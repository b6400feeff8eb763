/**
 * `LargeNumberShorCircuit`: the register layout and the gate list of the
 * period-finding circuit for a base a modulo N. Only the circuit's structure
 * is modelled, as a sequence of gates over named registers; what the gates
 * do to a quantum state is not.
 */
module Circuit {
  import opened NumberTheory

  /** Process-wide qubit budget (`MAX_QUBITS`). */
  const MAX_QUBITS: nat := 128

  /** Number of digits Python's `bin` writes for m after the `0b` prefix (`bin(0) == '0b0'`). */
  function BinDigits(m: nat): (r: nat)
    ensures r >= 1
  {
    if m < 2 then 1 else 1 + BinDigits(m / 2)
  }

  /** `len(bin(N)) - 2`: the digits of |N|, plus one for the sign of a negative N. */
  function BitLength(N: int): nat
  {
    if N < 0 then BinDigits(-N) + 1 else BinDigits(N)
  }

  /** `min(MAX_QUBITS, 3 * n + 2)` */
  function QubitBudget(n: nat): nat
  {
    if MAX_QUBITS < 3 * n + 2 then MAX_QUBITS else 3 * n + 2
  }

  function Max(x: nat, y: nat): nat
  {
    if x < y then y else x
  }

  /** Bit j of v, least significant first (the j-th character of `reversed(bin(v)[2:])`). */
  function Bit(v: nat, j: nat): bool
  {
    if j == 0 then v % 2 == 1 else Bit(v / 2, j - 1)
  }

  /** Number of set bits of v. */
  function PopCount(v: nat): nat
  {
    if v == 0 then 0 else v % 2 + PopCount(v / 2)
  }

  /** A qubit, named by its register and its index in that register. */
  datatype Qubit = Control(index: nat) | Target(index: nat) | Ancilla(index: nat)

  datatype Gate =
    | H(qubit: Qubit)
    | CX(control: Qubit, target: Qubit)
    | CCX(control1: Qubit, control2: Qubit, target: Qubit)
    | Measure(qubits: seq<Qubit>, clbits: seq<nat>)

  /** A circuit whose gate list grows as gates are applied to it. */
  class QuantumCircuit {
    const controlWidth: nat
    const targetWidth: nat
    const ancillaWidth: nat
    const classicalWidth: nat
    var gates: seq<Gate>

    constructor (controlWidth: nat, targetWidth: nat, ancillaWidth: nat, classicalWidth: nat)
      ensures this.controlWidth == controlWidth && this.targetWidth == targetWidth
      ensures this.ancillaWidth == ancillaWidth && this.classicalWidth == classicalWidth
      ensures gates == []
    {
      this.controlWidth := controlWidth;
      this.targetWidth := targetWidth;
      this.ancillaWidth := ancillaWidth;
      this.classicalWidth := classicalWidth;
      gates := [];
    }

    method ApplyH(q: Qubit)
      modifies this
      ensures gates == old(gates) + [H(q)]
    {
      gates := gates + [H(q)];
    }

    method ApplyCX(c: Qubit, t: Qubit)
      modifies this
      ensures gates == old(gates) + [CX(c, t)]
    {
      gates := gates + [CX(c, t)];
    }

    method ApplyCCX(c1: Qubit, c2: Qubit, t: Qubit)
      modifies this
      ensures gates == old(gates) + [CCX(c1, c2, t)]
    {
      gates := gates + [CCX(c1, c2, t)];
    }

    method ApplyMeasure(qs: seq<Qubit>, cs: seq<nat>)
      modifies this
      ensures gates == old(gates) + [Measure(qs, cs)]
    {
      gates := gates + [Measure(qs, cs)];
    }
  }

  // ---------------------------------------------------------------------
  // The gate list, as a function of (a, N, n)
  // ---------------------------------------------------------------------

  /** A Hadamard gate on each of the first w control qubits, in order. */
  function HLayer(w: nat): seq<Gate>
  {
    if w == 0 then [] else HLayer(w - 1) + [H(Control(w - 1))]
  }

  /** The Toffoli gates for the set bits below `len` of v, controlled by ancilla 0 and control qubit i. */
  function CcxRun(i: nat, v: nat, len: nat): seq<Gate>
  {
    if len == 0 then []
    else CcxRun(i, v, len - 1) + (if Bit(v, len - 1) then [CCX(Ancilla(0), Control(i), Target(len - 1))] else [])
  }

  /** The block for control qubit i: toggle the ancilla, flip target bits of v, toggle back. */
  function ControlledBlock(i: nat, v: nat, width: nat): seq<Gate>
  {
    [CX(Control(i), Ancilla(0))] + CcxRun(i, v, width) + [CX(Control(i), Ancilla(0))]
  }

  /** The value precomputed for control qubit i: `modular_exponentiation(a, 2 ** i, N)`. */
  function OracleValue(a: int, N: int, i: nat): nat
    requires N > 0
  {
    Pow(a, Pow2(i)) % N
  }

  /** The blocks of the first k control qubits; bit strings are zero-filled to n digits. */
  function Blocks(a: int, N: int, n: nat, k: nat): seq<Gate>
    requires N > 0
  {
    if k == 0 then []
    else
      var v := OracleValue(a, N, k - 1);
      Blocks(a, N, n, k - 1) + ControlledBlock(k - 1, v, Max(BinDigits(v), n))
  }

  function ControlQubits(w: nat): seq<Qubit>
  {
    seq(w, k requires 0 <= k < w => Control(k))
  }

  function ClassicalBits(w: nat): seq<nat>
  {
    seq(w, k requires 0 <= k < w => k as nat)
  }

  /** Everything `_build_circuit` appends for base a, modulus N and bit length n. */
  function OracleGates(a: int, N: int, n: nat): seq<Gate>
    requires N > 0
  {
    HLayer(2 * n) + Blocks(a, N, n, 2 * n) + [Measure(ControlQubits(2 * n), ClassicalBits(2 * n))]
  }

  // ---------------------------------------------------------------------
  // The circuit generator
  // ---------------------------------------------------------------------

  class ShorCircuit {
    const N: int
    const n: nat
    const totalQubits: nat

    /** `__init__`: n is the bit length of N; `total_qubits` is computed and never used. */
    constructor (N: int)
      ensures this.N == N && n == BitLength(N) && totalQubits == QubitBudget(n)
    {
      this.N := N;
      n := BitLength(N);
      totalQubits := QubitBudget(BitLength(N));
    }

    /**
     * `create_quantum_circuits`: registers of 2n control, n target, 2
     * ancilla and 2n classical bits (never capped by `totalQubits`), filled
     * by `_build_circuit`.
     */
    method CreateQuantumCircuits(a: int) returns (circuit: QuantumCircuit)
      requires N > 0
      ensures fresh(circuit)
      ensures circuit.controlWidth == 2 * n && circuit.targetWidth == n
      ensures circuit.ancillaWidth == 2 && circuit.classicalWidth == 2 * n
      ensures circuit.gates == OracleGates(a, N, n)
    {
      circuit := new QuantumCircuit(2 * n, n, 2, 2 * n);
      BuildCircuit(circuit, a);
    }

    /** `_build_circuit`: appends the Hadamard layer, one block per control qubit, and the measurement. */
    method BuildCircuit(circuit: QuantumCircuit, a: int)
      requires N > 0
      requires circuit.controlWidth == 2 * n && circuit.targetWidth == n && circuit.classicalWidth == 2 * n
      modifies circuit
      ensures circuit.gates == old(circuit.gates) + OracleGates(a, N, n)
    {
      for i := 0 to circuit.controlWidth
        invariant circuit.gates == old(circuit.gates) + HLayer(i)
      {
        circuit.ApplyH(Control(i));
      }
      ghost var prefix := circuit.gates;
      for i := 0 to circuit.controlWidth
        invariant circuit.gates == prefix + Blocks(a, N, n, i)
      {
        var power := Pow2(i);
        var result := ModularExponentiation(a, power, N);
        assert result == OracleValue(a, N, i);
        var width := Max(BinDigits(result), circuit.targetWidth);
        ghost var before := circuit.gates;
        circuit.ApplyCX(Control(i), Ancilla(0));
        for j := 0 to width
          invariant circuit.gates == before + [CX(Control(i), Ancilla(0))] + CcxRun(i, result, j)
        {
          if Bit(result, j) {
            circuit.ApplyCCX(Ancilla(0), Control(i), Target(j));
          }
        }
        circuit.ApplyCX(Control(i), Ancilla(0));
      }
      circuit.ApplyMeasure(ControlQubits(circuit.controlWidth), ClassicalBits(circuit.classicalWidth));
    }
  }

  // ---------------------------------------------------------------------
  // Properties of the gate list
  // ---------------------------------------------------------------------

  /** The bit length n satisfies 2^(n-1) <= N < 2^n. */
  lemma {:induction false} BitLengthBounds(N: int)
    requires N >= 1
    ensures BitLength(N) >= 1 && Pow2(BitLength(N) - 1) <= N < Pow2(BitLength(N))
  {
    if N >= 2 {
      BitLengthBounds(N / 2);
    }
  }

  /** The budget never exceeds MAX_QUBITS, and equals the circuit's 3n + 2 qubits exactly when those fit. */
  lemma QubitBudgetCap(n: nat)
    ensures QubitBudget(n) <= MAX_QUBITS
    ensures QubitBudget(n) == 3 * n + 2 <==> n <= 42
  {
  }

  /** The list opens with one Hadamard gate per control qubit, in order. */
  lemma {:induction false} HLayerContents(w: nat)
    ensures |HLayer(w)| == w
    ensures forall i :: 0 <= i < w ==> HLayer(w)[i] == H(Control(i))
  {
    if w > 0 {
      HLayerContents(w - 1);
    }
  }

  /** Bits at or above L are clear in a value below 2^L. */
  lemma {:induction false} HighBitsClear(v: nat, L: nat, j: nat)
    requires v < Pow2(L) && j >= L
    ensures !Bit(v, j)
  {
    if j > 0 {
      HighBitsClear(v / 2, if L > 0 then L - 1 else 0, j - 1);
    }
  }

  /** A value below 2^L has at most L binary digits, so zero-filling to L digits gives exactly L. */
  lemma {:induction false} BinDigitsBound(v: nat, L: nat)
    requires L >= 1 && v < Pow2(L)
    ensures BinDigits(v) <= L
  {
    if v >= 2 {
      BinDigitsBound(v / 2, L - 1);
    }
  }

  /** The run holds exactly the set bits below len, each as a Toffoli on its target qubit, in increasing order. */
  lemma {:induction false} CcxRunContents(i: nat, v: nat, len: nat)
    ensures forall k :: 0 <= k < |CcxRun(i, v, len)| ==>
      var g := CcxRun(i, v, len)[k];
      g.CCX? && g.control1 == Ancilla(0) && g.control2 == Control(i) && g.target.Target?
      && g.target.index < len && Bit(v, g.target.index)
    ensures forall j :: 0 <= j < len && Bit(v, j) ==> CCX(Ancilla(0), Control(i), Target(j)) in CcxRun(i, v, len)
    ensures forall k1, k2 :: 0 <= k1 < k2 < |CcxRun(i, v, len)| ==>
      CcxRun(i, v, len)[k1].target.index < CcxRun(i, v, len)[k2].target.index
  {
    if len > 0 {
      CcxRunContents(i, v, len - 1);
    }
  }

  /** Number of set bits of v below position L. */
  function SetBitsBelow(v: nat, L: nat): nat
  {
    if L == 0 then 0 else SetBitsBelow(v, L - 1) + (if Bit(v, L - 1) then 1 else 0)
  }

  lemma {:induction false} CcxRunLength(i: nat, v: nat, len: nat)
    ensures |CcxRun(i, v, len)| == SetBitsBelow(v, len)
  {
    if len > 0 {
      CcxRunLength(i, v, len - 1);
    }
  }

  lemma {:induction false} SetBitsShift(v: nat, L: nat)
    requires L >= 1
    ensures SetBitsBelow(v, L) == v % 2 + SetBitsBelow(v / 2, L - 1)
  {
    if L > 1 {
      SetBitsShift(v, L - 1);
    }
  }

  /** Below 2^L, counting the set bits under position L gives the popcount. */
  lemma {:induction false} SetBitsPopCount(v: nat, L: nat)
    requires v < Pow2(L)
    ensures SetBitsBelow(v, L) == PopCount(v)
  {
    if L > 0 {
      SetBitsShift(v, L);
      SetBitsPopCount(v / 2, L - 1);
    }
  }

  /**
   * The block for control qubit i with value v < 2^n is cx(ctrl_i, anc0),
   * then one ccx(anc0, ctrl_i, target[j]) per set bit j of v in increasing
   * j, every j below n, then cx(ctrl_i, anc0); it holds popcount(v) Toffolis.
   */
  lemma ControlledBlockShape(i: nat, v: nat, n: nat)
    requires n >= 1 && v < Pow2(n)
    ensures var b := ControlledBlock(i, v, Max(BinDigits(v), n));
      && |b| == PopCount(v) + 2
      && b[0] == CX(Control(i), Ancilla(0)) && b[|b| - 1] == CX(Control(i), Ancilla(0))
      && (forall k :: 1 <= k < |b| - 1 ==>
            b[k].CCX? && b[k].control1 == Ancilla(0) && b[k].control2 == Control(i)
            && b[k].target.Target? && b[k].target.index < n && Bit(v, b[k].target.index))
      && (forall j: nat :: Bit(v, j) ==> j < n && CCX(Ancilla(0), Control(i), Target(j)) in b)
      && (forall k1, k2 :: 1 <= k1 < k2 < |b| - 1 ==> b[k1].target.index < b[k2].target.index)
  {
    BinDigitsBound(v, n);
    assert Max(BinDigits(v), n) == n;
    var run := CcxRun(i, v, n);
    var b := ControlledBlock(i, v, n);
    CcxRunContents(i, v, n);
    CcxRunLength(i, v, n);
    SetBitsPopCount(v, n);
    assert forall k :: 1 <= k < |b| - 1 ==> b[k] == run[k - 1];
    forall j: nat | Bit(v, j)
      ensures j < n && CCX(Ancilla(0), Control(i), Target(j)) in b
    {
      if j >= n {
        HighBitsClear(v, n, j);
      }
      assert CCX(Ancilla(0), Control(i), Target(j)) in run;
    }
  }

  /** Every qubit and classical bit a gate names exists in the registers of a circuit for bit length n. */
  predicate QubitInRange(q: Qubit, n: nat)
  {
    match q
    case Control(i) => i < 2 * n
    case Target(j) => j < n
    case Ancilla(k) => k < 2
  }

  predicate GateInRange(g: Gate, n: nat)
  {
    match g
    case H(q) => QubitInRange(q, n)
    case CX(c, t) => QubitInRange(c, n) && QubitInRange(t, n)
    case CCX(c1, c2, t) => QubitInRange(c1, n) && QubitInRange(c2, n) && QubitInRange(t, n)
    case Measure(qs, cs) =>
      |qs| == |cs| && (forall q :: q in qs ==> QubitInRange(q, n)) && (forall c :: c in cs ==> c < 2 * n)
  }

  /** The blocks hold only CX and CCX gates, on control qubits below k. */
  lemma {:induction false} BlocksGateKinds(a: int, N: int, n: nat, k: nat)
    requires N > 0
    ensures forall g :: g in Blocks(a, N, n, k) ==>
      (g.CX? || g.CCX?) && (g.CX? ==> g.control.Control? && g.control.index < k)
  {
    if k > 0 {
      BlocksGateKinds(a, N, n, k - 1);
      var v := OracleValue(a, N, k - 1);
      CcxRunContents(k - 1, v, Max(BinDigits(v), n));
    }
  }

  /**
   * The gate list starts with exactly 2n Hadamard gates, one on each control
   * qubit in order, and ends with its only measurement, of the control
   * register into the classical register bit for bit.
   */
  lemma OracleLayout(a: int, N: int, n: nat)
    requires N > 0
    ensures var g := OracleGates(a, N, n);
      && |g| >= 2 * n + 1
      && (forall i :: 0 <= i < 2 * n ==> g[i] == H(Control(i)))
      && (forall k :: 2 * n <= k < |g| ==> !g[k].H?)
      && g[|g| - 1] == Measure(ControlQubits(2 * n), ClassicalBits(2 * n))
      && (forall k :: 0 <= k < |g| - 1 ==> !g[k].Measure?)
  {
    var hs, bs := HLayer(2 * n), Blocks(a, N, n, 2 * n);
    var g := OracleGates(a, N, n);
    HLayerContents(2 * n);
    BlocksGateKinds(a, N, n, 2 * n);
    forall k | 2 * n <= k < |g| - 1
      ensures g[k] == bs[k - 2 * n] && g[k] in bs
    {
    }
  }

  /** The Toffolis and CXs of the first k blocks name only existing qubits when n is N's bit length. */
  lemma {:induction false} BlocksInRange(a: int, N: int, k: nat)
    requires N >= 1 && k <= 2 * BitLength(N)
    ensures forall g :: g in Blocks(a, N, BitLength(N), k) ==> GateInRange(g, BitLength(N))
  {
    if k > 0 {
      var n := BitLength(N);
      BlocksInRange(a, N, k - 1);
      var v := OracleValue(a, N, k - 1);
      BitLengthBounds(N);
      ControlledBlockShape(k - 1, v, n);
    }
  }

  /**
   * Every gate of the circuit for N refers to a qubit inside its register:
   * in particular every target index j of a Toffoli is below n, because the
   * precomputed value is below N < 2^n, so `target[j]` never fails.
   */
  lemma OracleInRange(a: int, N: int)
    requires N >= 1
    ensures forall g :: g in OracleGates(a, N, BitLength(N)) ==> GateInRange(g, BitLength(N))
  {
    var n := BitLength(N);
    HLayerContents(2 * n);
    BlocksInRange(a, N, 2 * n);
    var m := Measure(ControlQubits(2 * n), ClassicalBits(2 * n));
    assert GateInRange(m, n);
  }
}
