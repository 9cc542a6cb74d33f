/** The controlled gates `CU_Gate`, `CNOT_Gate`, `CY_Gate` and `CZ_Gate`,
    built from outer products of the bra/ket primitives, and their relation
    to the block-diagonal constants. */
module Controlled {
  import opened Complex
  import opened Arith
  import opened Matrices
  import opened Results
  import opened Basis
  import opened Gates

  /** `np.kron(get_bra(k), get_ket(k))`: numpy's kron of a row with a
      column is the projector |k⟩⟨k|. */
  const ZeroProjector: Matrix := Kron(Bra0, Ket0)

  const OneProjector: Matrix := Kron(Bra1, Ket1)

  lemma ProjectorsAreUnits()
    ensures ZeroProjector == Unit(2, 0, 0) && OneProjector == Unit(2, 1, 1)
  {
    OuterBraKet(2, 0, 0);
    OuterBraKet(2, 1, 1);
  }

  /** `CU_Gate(U)`: |0⟩⟨0| ⊗ |0⟩⟨0| + |0⟩⟨0| ⊗ |1⟩⟨1| + |1⟩⟨1| ⊗ U. The sum
      of a 4×4 array with the kron of a 2×2 array and U only broadcasts when
      U is 2×2; numpy raises ValueError otherwise. */
  function CUGate(u: Matrix): (r: Result<Matrix>)
    ensures r.Ok? <==> IsMat(u, 2, 2)
    ensures r.Ok? ==> IsMat(r.value, 4, 4)
  {
    if !IsMat(u, 2, 2) then Err(ValueError)
    else
      ProjectorsAreUnits();
      Ok(MatAdd(MatAdd(Kron(ZeroProjector, ZeroProjector), Kron(ZeroProjector, OneProjector)),
                Kron(OneProjector, u)))
  }

  /** |0⟩⟨0| is diag(1, 0). */
  lemma UpperUnit()
    ensures Unit(2, 0, 0) == UpperProjector
  {
    ProjectorEntries();
    UnitEntry(2, 0, 0, 0, 0);
    UnitEntry(2, 0, 0, 0, 1);
    UnitEntry(2, 0, 0, 1, 0);
    UnitEntry(2, 0, 0, 1, 1);
    Mat2Eq(Unit(2, 0, 0), UpperProjector);
  }

  /** |1⟩⟨1| is diag(0, 1). */
  lemma LowerUnit()
    ensures Unit(2, 1, 1) == LowerProjector
  {
    ProjectorEntries();
    UnitEntry(2, 1, 1, 0, 0);
    UnitEntry(2, 1, 1, 0, 1);
    UnitEntry(2, 1, 1, 1, 0);
    UnitEntry(2, 1, 1, 1, 1);
    Mat2Eq(Unit(2, 1, 1), LowerProjector);
  }

  /** |0⟩⟨0| + |1⟩⟨1| = I₂. */
  lemma UnitsResolveIdentity()
    ensures MatAdd(Unit(2, 0, 0), Unit(2, 1, 1)) == OneQubitIdentity
  {
    var s := MatAdd(Unit(2, 0, 0), Unit(2, 1, 1));
    forall i, j | 0 <= i < 2 && 0 <= j < 2
      ensures s[i][j] == Indicator(i == j)
    {
      MatAddEntry(Unit(2, 0, 0), Unit(2, 1, 1), i, j);
      UnitEntry(2, 0, 0, i, j);
      UnitEntry(2, 1, 1, i, j);
      AddIndicators(i == 0 && j == 0, i == 1 && j == 1);
      if i == j {
      } else {
      }
    }
    Mat2Eq(s, OneQubitIdentity);
  }

  /** `CU_Gate(U)` is diag(1, 0) ⊗ I₂ + diag(0, 1) ⊗ U: U acts exactly when
      the leading (control) qubit is 1. */
  lemma CUGateIsBlockDiag(u: Matrix)
    requires IsMat(u, 2, 2)
    ensures CUGate(u) == Ok(BlockDiag(OneQubitIdentity, u))
  {
    ProjectorsAreUnits();
    UpperUnit();
    LowerUnit();
    UnitsResolveIdentity();
    KronAddRight(Unit(2, 0, 0), Unit(2, 0, 0), Unit(2, 1, 1));
  }

  /** `CNOT_Gate()`: the controlled Pauli X, which is the numeric constant
      `CNOT_gate`. */
  function CnotGate(): (r: Result<Matrix>)
    ensures r == Ok(CnotMatrix)
  {
    CUGateIsBlockDiag(PauliX);
    CUGate(PauliXGate())
  }

  /** `CY_Gate()`: the controlled Pauli Y, which is the numeric constant
      `CY_gate`. */
  function CyGate(): (r: Result<Matrix>)
    ensures r == Ok(CyMatrix)
  {
    CUGateIsBlockDiag(PauliY);
    CUGate(PauliYGate())
  }

  /** `CZ_Gate()`: the controlled Pauli Z, which is the numeric constant
      `CZ_gate`. */
  function CzGate(): (r: Result<Matrix>)
    ensures r == Ok(CzMatrix)
  {
    CUGateIsBlockDiag(PauliZ);
    CUGate(PauliZGate())
  }

  /** The one-qubit identity constant is its own adjoint and its own square. */
  lemma OneQubitIdentityUnitary()
    ensures Adjoint(OneQubitIdentity) == OneQubitIdentity
    ensures MatMul(OneQubitIdentity, OneQubitIdentity) == OneQubitIdentity
  {
    OneQubitIdentityIsIdentity();
    IdentityPermutation(2);
    assert Straight(2) == Exchange(2, 0, 0);
    TranspositionUnitary(2, 0, 0);
  }

  /** `CU_Gate(U)` of a unitary U is unitary, and of a self-adjoint U is
      self-adjoint: the adjoint and the product go block by block. */
  lemma CUGateUnitary(u: Matrix)
    requires IsMat(u, 2, 2) && Unitary(u)
    ensures CUGate(u).Ok? && Unitary(CUGate(u).value)
    ensures Adjoint(u) == u ==> Adjoint(CUGate(u).value) == CUGate(u).value
  {
    var i2 := OneQubitIdentity;
    CUGateIsBlockDiag(u);
    OneQubitIdentityUnitary();
    OneQubitIdentityIsIdentity();
    BlockDiagAdjoint(i2, u);
    BlockDiagMul(i2, u, i2, Adjoint(u));
    BlockDiagIdentity(2);
  }

  /** CNOT, CY and CZ are each their own adjoint and unitary, so each is its
      own inverse. */
  lemma ControlledPaulisUnitary()
    ensures Adjoint(CnotMatrix) == CnotMatrix && Unitary(CnotMatrix)
    ensures Adjoint(CyMatrix) == CyMatrix && Unitary(CyMatrix)
    ensures Adjoint(CzMatrix) == CzMatrix && Unitary(CzMatrix)
    ensures MatMul(CnotMatrix, CnotMatrix) == Identity(4)
    ensures MatMul(CyMatrix, CyMatrix) == Identity(4)
    ensures MatMul(CzMatrix, CzMatrix) == Identity(4)
  {
    PauliXUnitary();
    PauliYUnitary();
    PauliZUnitary();
    CUGateUnitary(PauliX);
    CUGateUnitary(PauliY);
    CUGateUnitary(PauliZ);
    CUGateIsBlockDiag(PauliX);
    CUGateIsBlockDiag(PauliY);
    CUGateIsBlockDiag(PauliZ);
  }

  /** A permutation matrix of an involution p sends |x⟩ to |p[x]⟩. */
  lemma PermutationOnBasis(d: nat, p: seq<int>, x: int)
    requires IsInvolution(d, p) && 0 <= x < d
    ensures MatMul(Permutation(d, p), BasisVec(Ket, d, x)) == BasisVec(Ket, d, p[x])
  {
    var v := BasisVec(Ket, d, x);
    PermutationRows(d, p, v);
    var w := seq(d, i requires 0 <= i < d => v[p[i]]);
    forall i | 0 <= i < d
      ensures w[i] == BasisVec(Ket, d, p[x])[i]
    {
      assert (p[i] == x) == (i == p[x]);
    }
  }

  /** Exclusive or of two bits. */
  function Xor(a: int, b: int): int
  {
    if a == b then 0 else 1
  }

  /** CNOT maps |a, b⟩ to |a, a ⊕ b⟩; the control a is the leading
      (more significant) qubit. */
  lemma CnotAction(a: int, b: int)
    requires 0 <= a < 2 && 0 <= b < 2
    ensures MatMul(CnotMatrix, BasisVec(Ket, 4, 2 * a + b)) == BasisVec(Ket, 4, 2 * a + Xor(a, b))
  {
    CnotIsTransposition();
    TranspositionIsInvolution(4, 2, 3);
    PermutationOnBasis(4, Exchange(4, 2, 3), 2 * a + b);
  }
}
