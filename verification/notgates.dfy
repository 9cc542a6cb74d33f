/** The multi-qubit NOT gates `quantum_not_gate_matrix` and
    `reverse_quantum_not_gate_matrix`: both are transpositions of two
    neighbouring basis states, so each flips the last qubit exactly when the
    other qubits hold a fixed pattern.

    The proofs that combine several matrix facts start with `hide *`: they
    need only the stated facts, and keeping the matrix definitions out of
    view keeps the solver from expanding every comprehension involved. */
module NotGates {
  import opened Complex
  import opened Arith
  import opened Matrices
  import opened Basis
  import opened Gates
  import opened Controlled

  /** `quantum_not_gate_matrix(n)`: an empty array for n = 0, Pauli X for
      n = 1, and otherwise the identity on the half where the leading qubit
      is 0 and the (n-1)-qubit gate on the half where it is 1. The source
      returns the CNOT constant for n = 2, which is what the general branch
      computes there (`QuantumNotConstants`). */
  function QuantumNot(n: nat): (m: Matrix)
    ensures n == 0 ==> m == []
    ensures n >= 1 ==> Square(m, Pow2(n))
  {
    if n == 0 then []
    else if n == 1 then PauliX
    else BlockDiag(Identity(Pow2(n - 1)), QuantumNot(n - 1))
  }

  /** One recursion step of the NOT gate. */
  lemma NotUnfold(n: nat)
    requires n >= 2
    ensures Pow2(n) == 2 * Pow2(n - 1) && Pow2(n - 1) >= 2
    ensures QuantumNot(n) == BlockDiag(Identity(Pow2(n - 1)), QuantumNot(n - 1))
  {
    Pow2Step(n - 1);
  }

  /** On one qubit the top two states are the only two. */
  lemma OneQubitNot(n: nat)
    requires n == 1
    ensures Pow2(n) == 2 && QuantumNot(n) == PauliX
    ensures QuantumNot(n) == Transposition(Pow2(n), Pow2(n) - 2, Pow2(n) - 1)
  {
    PauliXPermutation();
  }

  /** The index maps of the upper-block and lower-block transpositions once
      stacked into a register twice the size. */
  lemma StackHigh(h: nat)
    requires h >= 2
    ensures Stack(Straight(h), Exchange(h, h - 2, h - 1)) == Exchange(2 * h, 2 * h - 2, 2 * h - 1)
  {
  }

  lemma StackLow(h: nat)
    requires h >= 2
    ensures Stack(Exchange(h, h - 2, h - 1), Straight(h)) == Exchange(2 * h, h - 2, h - 1)
  {
  }

  /** The identity on the lower half next to a transposition of the top two
      states of the upper half is the transposition of the top two states
      of the whole register. */
  lemma UpperTransposition(d: nat, h: nat, t: Matrix)
    requires h >= 2 && d == 2 * h && t == Transposition(h, h - 2, h - 1)
    ensures Square(Identity(h), h) && Square(t, h)
    ensures BlockDiag(Identity(h), t) == Transposition(d, d - 2, d - 1)
  {
    IdentityPermutation(h);
    BlockDiagPermutation(h, Straight(h), Exchange(h, h - 2, h - 1));
    StackHigh(h);
  }

  /** The identity on the upper half next to a transposition of the top two
      states of the lower half. */
  lemma LowerTransposition(d: nat, h: nat, t: Matrix)
    requires h >= 2 && d == 2 * h && t == Transposition(h, h - 2, h - 1)
    ensures Square(Identity(h), h) && Square(t, h)
    ensures BlockDiag(t, Identity(h)) == Transposition(d, h - 2, h - 1)
  {
    IdentityPermutation(h);
    BlockDiagPermutation(h, Exchange(h, h - 2, h - 1), Straight(h));
    StackLow(h);
  }

  /** Every NOT gate on n >= 1 qubits is the permutation matrix exchanging
      the last two basis states |1…10⟩ and |1…11⟩ and fixing all others. */
  lemma {:induction false} QuantumNotIsTransposition(n: nat)
    requires n >= 1
    ensures Pow2(n) >= 2 && QuantumNot(n) == Transposition(Pow2(n), Pow2(n) - 2, Pow2(n) - 1)
  {
    hide *;
    if n == 1 {
      OneQubitNot(n);
    } else {
      QuantumNotIsTransposition(n - 1);
      NotUnfold(n);
      UpperTransposition(Pow2(n), Pow2(n - 1), QuantumNot(n - 1));
    }
  }

  /** The one- and two-qubit NOT gates are the Pauli X and CNOT constants,
      as the source's early returns for n = 1 and n = 2 give them. */
  lemma QuantumNotConstants()
    ensures QuantumNot(1) == PauliX
    ensures QuantumNot(2) == CnotMatrix
  {
    OneQubitNot(1);
    NotUnfold(2);
    OneQubitIdentityIsIdentity();
  }

  /** A transposition of the top two of d states, on |c, b⟩: b flips exactly
      when c is the largest control value. */
  lemma TopTranspositionAction(d: nat, h: nat, c: int, b: int)
    requires d == 2 * h && h >= 1 && 0 <= c < h && 0 <= b < 2
    ensures MatMul(Transposition(d, d - 2, d - 1), BasisVec(Ket, d, 2 * c + b)) ==
      BasisVec(Ket, d, 2 * c + (if c == h - 1 then 1 - b else b))
  {
    TranspositionIsInvolution(d, d - 2, d - 1);
    PermutationOnBasis(d, Exchange(d, d - 2, d - 1), 2 * c + b);
  }

  /** On a basis state |c, b⟩ with control part c and target bit b, the NOT
      gate flips b exactly when every control qubit is 1. */
  lemma QuantumNotAction(n: nat, c: int, b: int)
    requires n >= 1 && 0 <= c < Pow2(n - 1) && 0 <= b < 2
    ensures Pow2(n) == 2 * Pow2(n - 1)
    ensures MatMul(QuantumNot(n), BasisVec(Ket, Pow2(n), 2 * c + b)) ==
      BasisVec(Ket, Pow2(n), 2 * c + (if c == Pow2(n - 1) - 1 then 1 - b else b))
  {
    hide *;
    QuantumNotIsTransposition(n);
    Pow2Step(n);
    TopTranspositionAction(Pow2(n), Pow2(n - 1), c, b);
  }

  /** Applying the NOT gate twice restores every state. */
  lemma QuantumNotSelfInverse(n: nat)
    requires n >= 1
    ensures MatMul(QuantumNot(n), QuantumNot(n)) == Identity(Pow2(n))
  {
    hide *;
    QuantumNotIsTransposition(n);
    TranspositionInvolution(Pow2(n), Pow2(n) - 2, Pow2(n) - 1);
  }

  /** For n ≥ 1 the NOT gate is its own adjoint and unitary. */
  lemma QuantumNotUnitary(n: nat)
    requires n >= 1
    ensures Adjoint(QuantumNot(n)) == QuantumNot(n) && Unitary(QuantumNot(n))
  {
    hide *;
    QuantumNotIsTransposition(n);
    TranspositionUnitary(Pow2(n), Pow2(n) - 2, Pow2(n) - 1);
  }

  /** `reverse_quantum_not_gate_matrix(n)`: as `QuantumNot` for n < 2;
      otherwise the (n-1)-qubit NOT gate acts on the half where the leading
      qubit is 0 and the identity on the half where it is 1. For n = 2 the
      source writes the same sum out with `np.identity(2)` and Pauli X,
      which are `Identity(2)` and `QuantumNot(1)`. */
  function ReverseNot(n: nat): (m: Matrix)
    ensures n == 0 ==> m == []
    ensures n >= 1 ==> Square(m, Pow2(n))
  {
    if n == 0 then []
    else if n == 1 then PauliX
    else MatAdd(Kron(LowerProjector, Identity(Pow2(n - 1))), Kron(UpperProjector, QuantumNot(n - 1)))
  }

  /** The reversed gate is the block-diagonal matrix with the smaller NOT
      gate in the half where the leading qubit is 0. */
  lemma ReverseNotIsBlockDiag(n: nat)
    requires n >= 2
    ensures ReverseNot(n) == BlockDiag(QuantumNot(n - 1), Identity(Pow2(n - 1)))
  {
    var h := Pow2(n - 1);
    MatAddCommutes(Kron(LowerProjector, Identity(h)), Kron(UpperProjector, QuantumNot(n - 1)));
  }

  /** The reversed gate exchanges |01…10⟩ and |01…11⟩: the states whose
      leading qubit is 0 and whose other control qubits are all 1. */
  lemma ReverseNotIsTransposition(n: nat)
    requires n >= 2
    ensures Pow2(n - 1) >= 2 && Pow2(n) == 2 * Pow2(n - 1)
    ensures ReverseNot(n) == Transposition(Pow2(n), Pow2(n - 1) - 2, Pow2(n - 1) - 1)
  {
    hide *;
    ReverseNotIsBlockDiag(n);
    QuantumNotIsTransposition(n - 1);
    Pow2Step(n);
    LowerTransposition(Pow2(n), Pow2(n - 1), QuantumNot(n - 1));
  }

  /** A transposition of the top two states of the lower half, on |c, b⟩:
      b flips exactly when c is the largest control value of that half. */
  lemma MiddleTranspositionAction(d: nat, h: nat, q: nat, c: int, b: int)
    requires d == 2 * h && h == 2 * q && q >= 1 && 0 <= c < h && 0 <= b < 2
    ensures MatMul(Transposition(d, h - 2, h - 1), BasisVec(Ket, d, 2 * c + b)) ==
      BasisVec(Ket, d, 2 * c + (if c == q - 1 then 1 - b else b))
  {
    TranspositionIsInvolution(d, h - 2, h - 1);
    PermutationOnBasis(d, Exchange(d, h - 2, h - 1), 2 * c + b);
  }

  /** On |c, b⟩ the reversed gate flips b exactly when c is 01…1, i.e. the
      leading qubit is 0 and every other control qubit is 1. */
  lemma ReverseNotAction(n: nat, c: int, b: int)
    requires n >= 2 && 0 <= c < Pow2(n - 1) && 0 <= b < 2
    ensures Pow2(n) == 2 * Pow2(n - 1)
    ensures MatMul(ReverseNot(n), BasisVec(Ket, Pow2(n), 2 * c + b)) ==
      BasisVec(Ket, Pow2(n), 2 * c + (if c == Pow2(n - 2) - 1 then 1 - b else b))
  {
    hide *;
    ReverseNotIsTransposition(n);
    Pow2Step(n - 1);
    MiddleTranspositionAction(Pow2(n), Pow2(n - 1), Pow2(n - 2), c, b);
  }

  /** On one qubit the reversed gate is Pauli X, the exchange of 0 and 1. */
  lemma ReverseNotOne()
    ensures Pow2(1) == 2 && ReverseNot(1) == Transposition(2, 0, 1)
  {
    PauliXPermutation();
  }

  /** Applying the reversed gate twice restores every state. */
  lemma ReverseNotSelfInverse(n: nat)
    requires n >= 1
    ensures MatMul(ReverseNot(n), ReverseNot(n)) == Identity(Pow2(n))
  {
    hide *;
    if n == 1 {
      ReverseNotOne();
      TranspositionInvolution(2, 0, 1);
    } else {
      hide *;
      ReverseNotIsTransposition(n);
      TranspositionInvolution(Pow2(n), Pow2(n - 1) - 2, Pow2(n - 1) - 1);
    }
  }

  /** For n ≥ 1 the reversed gate is its own adjoint and unitary. */
  lemma ReverseNotUnitary(n: nat)
    requires n >= 1
    ensures Adjoint(ReverseNot(n)) == ReverseNot(n) && Unitary(ReverseNot(n))
  {
    hide *;
    if n == 1 {
      ReverseNotOne();
      TranspositionUnitary(2, 0, 1);
    } else {
      ReverseNotIsTransposition(n);
      TranspositionUnitary(Pow2(n), Pow2(n - 1) - 2, Pow2(n - 1) - 1);
    }
  }
}
