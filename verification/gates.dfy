/** The exact gates of the circuit class: the Pauli matrices, the controlled
    gates, the swap gate, the multi-qubit NOT gates and the identity, each in
    the two forms the class offers (a numeric constant and an outer-product
    construction over the bra/ket builders), with every gate identified as a
    permutation matrix where it is one. */
module Gates {
  import opened Complex
  import opened Arith
  import opened Matrices
  import opened Results
  import opened Basis

  /* ---------------------------------------------------------------------
     Numeric constants
     --------------------------------------------------------------------- */

  const OneQubitIdentity: Matrix := [[One, Zero], [Zero, One]]

  const TwoQubitIdentity: Matrix :=
    [[One, Zero, Zero, Zero], [Zero, One, Zero, Zero], [Zero, Zero, One, Zero], [Zero, Zero, Zero, One]]

  const PauliX: Matrix := [[Zero, One], [One, Zero]]

  const PauliY: Matrix := [[Zero, MinusI], [I, Zero]]

  const PauliZ: Matrix := [[One, Zero], [Zero, MinusOne]]

  const SwapMatrix: Matrix :=
    [[One, Zero, Zero, Zero], [Zero, Zero, One, Zero], [Zero, One, Zero, Zero], [Zero, Zero, Zero, One]]

  /** `np.diag([1, 0])` and `np.diag([0, 1])`: the projectors on |0⟩ and |1⟩. */
  const UpperProjector: Matrix := Diag([One, Zero])

  const LowerProjector: Matrix := Diag([Zero, One])

  /** A square non-empty matrix of the given size. */
  predicate Square(m: Matrix, d: nat)
  {
    d > 0 && IsMat(m, d, d)
  }

  /** `np.kron(np.diag([1, 0]), top) + np.kron(np.diag([0, 1]), bottom)`:
      top acts when the leading qubit is 0, bottom when it is 1. */
  function BlockDiag(top: Matrix, bottom: Matrix): (m: Matrix)
    requires Square(top, |top|) && Square(bottom, |top|)
    ensures Square(m, 2 * |top|)
  {
    MatAdd(Kron(UpperProjector, top), Kron(LowerProjector, bottom))
  }

  const CnotMatrix: Matrix := BlockDiag(OneQubitIdentity, PauliX)

  const CyMatrix: Matrix := BlockDiag(OneQubitIdentity, PauliY)

  const CzMatrix: Matrix := BlockDiag(OneQubitIdentity, PauliZ)

  lemma ProjectorEntries()
    ensures UpperProjector[0][0] == One && UpperProjector[0][1] == Zero
    ensures UpperProjector[1][0] == Zero && UpperProjector[1][1] == Zero
    ensures LowerProjector[0][0] == Zero && LowerProjector[0][1] == Zero
    ensures LowerProjector[1][0] == Zero && LowerProjector[1][1] == One
  {
  }

  /** Which half of a two-block axis of block size k an index lies in,
      and its offset inside that half. */
  function Half(i: int, k: int): int
  {
    if i < k then 0 else 1
  }

  function Offset(i: int, k: int): int
  {
    if i < k then i else i - k
  }

  /** Entry (i, j) of a 2×2 matrix tensored with a k×k one. */
  lemma KronHalves(p: Matrix, m: Matrix, i: int, j: int)
    requires Square(p, 2) && Square(m, |m|)
    requires 0 <= i < 2 * |m| && 0 <= j < 2 * |m|
    ensures 0 <= Offset(i, |m|) < |m| && 0 <= Offset(j, |m|) < |m|
    ensures Kron(p, m)[i][j] == Mul(p[Half(i, |m|)][Half(j, |m|)], m[Offset(i, |m|)][Offset(j, |m|)])
  {
    KronAt(p, m, i, j);
    HalfSplit(i, |m|);
    HalfSplit(j, |m|);
  }

  lemma BlockDiagParts(top: Matrix, bottom: Matrix, i: int, j: int)
    requires Square(top, |top|) && Square(bottom, |top|)
    requires 0 <= i < 2 * |top| && 0 <= j < 2 * |top|
    ensures 0 <= Offset(i, |top|) < |top| && 0 <= Offset(j, |top|) < |top|
    ensures BlockDiag(top, bottom)[i][j] ==
      Add(Mul(UpperProjector[Half(i, |top|)][Half(j, |top|)], top[Offset(i, |top|)][Offset(j, |top|)]),
          Mul(LowerProjector[Half(i, |top|)][Half(j, |top|)], bottom[Offset(i, |top|)][Offset(j, |top|)]))
  {
    KronHalves(UpperProjector, top, i, j);
    KronHalves(LowerProjector, bottom, i, j);
    MatAddEntry(Kron(UpperProjector, top), Kron(LowerProjector, bottom), i, j);
  }

  /** The block form: top in the upper-left block, bottom in the lower-right
      one, zero elsewhere. */
  lemma BlockDiagEntry(top: Matrix, bottom: Matrix, i: int, j: int)
    requires Square(top, |top|) && Square(bottom, |top|)
    requires 0 <= i < 2 * |top| && 0 <= j < 2 * |top|
    ensures i < |top| && j < |top| ==> BlockDiag(top, bottom)[i][j] == top[i][j]
    ensures i >= |top| && j >= |top| ==> BlockDiag(top, bottom)[i][j] == bottom[i - |top|][j - |top|]
    ensures (i < |top|) != (j < |top|) ==> BlockDiag(top, bottom)[i][j] == Zero
  {
    var k := |top|;
    BlockDiagParts(top, bottom, i, j);
    ProjectorEntries();
    SelectorSums(top[Offset(i, k)][Offset(j, k)], bottom[Offset(i, k)][Offset(j, k)]);
  }

  /** p on the first half and q, shifted, on the second. */
  function Stack(p: seq<int>, q: seq<int>): (r: seq<int>)
    requires |p| == |q|
  {
    p + seq(|q|, i requires 0 <= i < |q| => |p| + q[i])
  }

  lemma StackEntry(p: seq<int>, q: seq<int>, i: int)
    requires |p| == |q| && 0 <= i < 2 * |p|
    ensures |Stack(p, q)| == 2 * |p|
    ensures Stack(p, q)[i] == if i < |p| then p[i] else |p| + q[i - |p|]
  {
  }

  lemma BlockDiagPermutationEntry(k: nat, p: seq<int>, q: seq<int>, i: int, j: int)
    requires k > 0 && |p| == k && |q| == k
    requires forall i :: 0 <= i < k ==> 0 <= p[i] < k && 0 <= q[i] < k
    requires 0 <= i < 2 * k && 0 <= j < 2 * k
    ensures BlockDiag(Permutation(k, p), Permutation(k, q))[i][j] == Permutation(2 * k, Stack(p, q))[i][j]
  {
    if i < k {
      UpperPermutationEntry(k, p, q, i, j);
    } else {
      LowerPermutationEntry(k, p, q, i, j);
    }
  }

  lemma UpperPermutationEntry(k: nat, p: seq<int>, q: seq<int>, i: int, j: int)
    requires k > 0 && |p| == k && |q| == k
    requires forall i :: 0 <= i < k ==> 0 <= p[i] < k
    requires 0 <= i < k && 0 <= j < 2 * k
    ensures BlockDiag(Permutation(k, p), Permutation(k, q))[i][j] == Permutation(2 * k, Stack(p, q))[i][j]
  {
    hide Permutation, Stack, BlockDiag;
    var s := Stack(p, q);
    StackEntry(p, q, i);
    BlockDiagEntry(Permutation(k, p), Permutation(k, q), i, j);
    PermutationEntry(2 * k, s, i, j);
    if j < k {
      PermutationEntry(k, p, i, j);
    }
  }

  lemma LowerPermutationEntry(k: nat, p: seq<int>, q: seq<int>, i: int, j: int)
    requires k > 0 && |p| == k && |q| == k
    requires forall i :: 0 <= i < k ==> 0 <= q[i] < k
    requires k <= i < 2 * k && 0 <= j < 2 * k
    ensures BlockDiag(Permutation(k, p), Permutation(k, q))[i][j] == Permutation(2 * k, Stack(p, q))[i][j]
  {
    hide Permutation, Stack, BlockDiag;
    var s := Stack(p, q);
    StackEntry(p, q, i);
    BlockDiagEntry(Permutation(k, p), Permutation(k, q), i, j);
    PermutationEntry(2 * k, s, i, j);
    if j >= k {
      PermutationEntry(k, q, i - k, j - k);
    }
  }

  /** Block-diagonal composition of permutation matrices. */
  lemma BlockDiagPermutation(k: nat, p: seq<int>, q: seq<int>)
    requires k > 0 && |p| == k && |q| == k
    requires forall i :: 0 <= i < k ==> 0 <= p[i] < k && 0 <= q[i] < k
    ensures BlockDiag(Permutation(k, p), Permutation(k, q)) == Permutation(2 * k, Stack(p, q))
  {
    var m := BlockDiag(Permutation(k, p), Permutation(k, q));
    var e := Permutation(2 * k, Stack(p, q));
    forall i, j | 0 <= i < 2 * k && 0 <= j < 2 * k
      ensures m[i][j] == e[i][j]
    {
      BlockDiagPermutationEntry(k, p, q, i, j);
    }
    MatEq(m, e, 2 * k, 2 * k);
  }

  lemma PauliXPermutation()
    ensures PauliX == Permutation(2, Exchange(2, 0, 1))
    ensures PauliX == Transposition(2, 0, 1)
  {
    var e := Exchange(2, 0, 1);
    forall i, j | 0 <= i < 2 && 0 <= j < 2
      ensures PauliX[i][j] == Permutation(2, e)[i][j]
    {
      PermutationEntry(2, e, i, j);
      assert i == 0 || i == 1;
      assert j == 0 || j == 1;
    }
    MatEq(PauliX, Permutation(2, e), 2, 2);
  }

  lemma OneQubitIdentityIsIdentity()
    ensures OneQubitIdentity == Identity(2)
    ensures TwoQubitIdentity == Identity(4)
  {
    forall i, j | 0 <= i < 2 && 0 <= j < 2
      ensures OneQubitIdentity[i][j] == Identity(2)[i][j]
    {
      IdentityEntry(2, i, j);
      assert i == 0 || i == 1;
      assert j == 0 || j == 1;
    }
    MatEq(OneQubitIdentity, Identity(2), 2, 2);
    forall i, j | 0 <= i < 4 && 0 <= j < 4
      ensures TwoQubitIdentity[i][j] == Identity(4)[i][j]
    {
      IdentityEntry(4, i, j);
      assert i == 0 || i == 1 || i == 2 || i == 3;
      assert j == 0 || j == 1 || j == 2 || j == 3;
    }
    MatEq(TwoQubitIdentity, Identity(4), 4, 4);
  }

  /** The constant CNOT gate exchanges |10⟩ and |11⟩ and fixes |00⟩, |01⟩. */
  lemma CnotIsTransposition()
    ensures CnotMatrix == Transposition(4, 2, 3)
  {
    OneQubitIdentityIsIdentity();
    IdentityPermutation(2);
    PauliXPermutation();
    BlockDiagPermutation(2, Straight(2), Exchange(2, 0, 1));
    assert Stack(Straight(2), Exchange(2, 0, 1)) == Exchange(4, 2, 3);
  }

  /** The constant swap gate exchanges |01⟩ and |10⟩. */
  lemma SwapIsTransposition()
    ensures SwapMatrix == Transposition(4, 1, 2)
  {
    var e := Exchange(4, 1, 2);
    forall i, j | 0 <= i < 4 && 0 <= j < 4
      ensures SwapMatrix[i][j] == Permutation(4, e)[i][j]
    {
      PermutationEntry(4, e, i, j);
      assert i == 0 || i == 1 || i == 2 || i == 3;
      assert j == 0 || j == 1 || j == 2 || j == 3;
    }
    MatEq(SwapMatrix, Permutation(4, e), 4, 4);
  }

  /* ---------------------------------------------------------------------
     Outer products over the bra/ket primitives
     --------------------------------------------------------------------- */

  lemma OuterKetBraEntry(d: nat, x: int, y: int, i: int, j: int)
    requires d > 0 && 0 <= i < d && 0 <= j < d
    ensures Kron(BasisVec(Ket, d, x), BasisVec(Bra, d, y))[i][j] == Indicator(i == x && j == y)
  {
    KronAt(BasisVec(Ket, d, x), BasisVec(Bra, d, y), i, j);
    DivModUnique(i, 1, i, 0);
    DivModUnique(j, d, 0, j);
    BasisVecEntry(d, x, i);
    BasisVecEntry(d, y, j);
    MulIndicators(i == x, j == y);
  }

  lemma OuterBraKetEntry(d: nat, x: int, y: int, i: int, j: int)
    requires d > 0 && 0 <= i < d && 0 <= j < d
    ensures Kron(BasisVec(Bra, d, y), BasisVec(Ket, d, x))[i][j] == Indicator(i == x && j == y)
  {
    KronAt(BasisVec(Bra, d, y), BasisVec(Ket, d, x), i, j);
    DivModUnique(i, d, 0, i);
    DivModUnique(j, 1, j, 0);
    BasisVecEntry(d, x, i);
    BasisVecEntry(d, y, j);
    MulIndicators(j == y, i == x);
  }

  /** `np.kron(ket, bra)`: the column |x⟩ against the row ⟨y|. */
  lemma OuterKetBra(d: nat, x: int, y: int)
    requires d > 0
    ensures Kron(BasisVec(Ket, d, x), BasisVec(Bra, d, y)) == Unit(d, x, y)
  {
    var k := Kron(BasisVec(Ket, d, x), BasisVec(Bra, d, y));
    forall i, j | 0 <= i < d && 0 <= j < d
      ensures k[i][j] == Unit(d, x, y)[i][j]
    {
      OuterKetBraEntry(d, x, y, i, j);
    }
    MatEq(k, Unit(d, x, y), d, d);
  }

  /** `np.kron(bra, ket)`: numpy's kron of a row with a column is the same
      outer product |x⟩⟨y|. */
  lemma OuterBraKet(d: nat, x: int, y: int)
    requires d > 0
    ensures Kron(BasisVec(Bra, d, y), BasisVec(Ket, d, x)) == Unit(d, x, y)
  {
    var k := Kron(BasisVec(Bra, d, y), BasisVec(Ket, d, x));
    forall i, j | 0 <= i < d && 0 <= j < d
      ensures k[i][j] == Unit(d, x, y)[i][j]
    {
      OuterBraKetEntry(d, x, y, i, j);
    }
    MatEq(k, Unit(d, x, y), d, d);
  }

  const Ket0: Matrix := Primitive(Ket, 0)

  const Ket1: Matrix := Primitive(Ket, 1)

  const Bra0: Matrix := Primitive(Bra, 0)

  const Bra1: Matrix := Primitive(Bra, 1)

  /** `get_ket(0)`, `get_ket(1)`, `get_bra(0)` and `get_bra(1)` are the
      primitives the outer-product gates are written with. */
  lemma PrimitivesBuilt(side: Side, bit: int)
    requires bit == 0 || bit == 1
    ensures Build(side, [IntArg(bit)], "") == Ok(Primitive(side, bit))
  {
    BuildSingleArg(side, IntArg(bit));
  }

  /** `Pauli_X_Gate()`: ⟨0| ⊗ |1⟩ + |0⟩ ⊗ ⟨1|, which is the numeric
      constant `Pauli_X_gate`. */
  function PauliXGate(): (m: Matrix)
    ensures m == PauliX
  {
    PauliXSum();
    MatAdd(Kron(Bra0, Ket1), Kron(Ket0, Bra1))
  }

  /** `Pauli_Y_Gate()`: i·(|1⟩ ⊗ ⟨0| − |0⟩ ⊗ ⟨1|), which is the numeric
      constant `Pauli_Y_gate`. */
  function PauliYGate(): (m: Matrix)
    ensures m == PauliY
  {
    PauliYSum();
    MatScale(I, MatSub(Kron(Ket1, Bra0), Kron(Ket0, Bra1)))
  }

  /** `Pauli_Z_Gate()`: |0⟩ ⊗ ⟨0| − |1⟩ ⊗ ⟨1|, which is the numeric
      constant `Pauli_Z_gate`. */
  function PauliZGate(): (m: Matrix)
    ensures m == PauliZ
  {
    PauliZSum();
    MatSub(Kron(Ket0, Bra0), Kron(Ket1, Bra1))
  }

  lemma PauliXEntry(i: int, j: int)
    requires 0 <= i < 2 && 0 <= j < 2
    ensures MatAdd(Unit(2, 1, 0), Unit(2, 0, 1))[i][j] == PauliX[i][j]
  {
    MatAddEntry(Unit(2, 1, 0), Unit(2, 0, 1), i, j);
    UnitEntry(2, 1, 0, i, j);
    UnitEntry(2, 0, 1, i, j);
    AddIndicators(i == 1 && j == 0, i == 0 && j == 1);
    if i == j {
    } else {
    }
  }

  /** The outer-product sum of Pauli X equals the numeric constant. */
  lemma PauliXSum()
    ensures MatAdd(Kron(Bra0, Ket1), Kron(Ket0, Bra1)) == PauliX
  {
    OuterBraKet(2, 1, 0);
    OuterKetBra(2, 0, 1);
    var u := MatAdd(Unit(2, 1, 0), Unit(2, 0, 1));
    assert MatAdd(Kron(Bra0, Ket1), Kron(Ket0, Bra1)) == u;
    forall i, j | 0 <= i < 2 && 0 <= j < 2
      ensures u[i][j] == PauliX[i][j]
    {
      PauliXEntry(i, j);
    }
    MatEq(u, PauliX, 2, 2);
  }

  lemma PauliYEntry(i: int, j: int)
    requires 0 <= i < 2 && 0 <= j < 2
    ensures MatScale(I, MatSub(Unit(2, 1, 0), Unit(2, 0, 1)))[i][j] == PauliY[i][j]
  {
    var s := MatSub(Unit(2, 1, 0), Unit(2, 0, 1));
    MatScaleEntry(I, s, i, j);
    MatSubEntry(Unit(2, 1, 0), Unit(2, 0, 1), i, j);
    UnitEntry(2, 1, 0, i, j);
    UnitEntry(2, 0, 1, i, j);
    RotatedDifference(i == 1 && j == 0, i == 0 && j == 1);
    if i == 1 && j == 0 {
    } else if i == 0 && j == 1 {
    } else if i == 0 {
    } else {
    }
  }

  /** The outer-product sum of Pauli Y equals the numeric constant. */
  lemma PauliYSum()
    ensures MatScale(I, MatSub(Kron(Ket1, Bra0), Kron(Ket0, Bra1))) == PauliY
  {
    OuterKetBra(2, 1, 0);
    OuterKetBra(2, 0, 1);
    var u := MatScale(I, MatSub(Unit(2, 1, 0), Unit(2, 0, 1)));
    assert MatScale(I, MatSub(Kron(Ket1, Bra0), Kron(Ket0, Bra1))) == u;
    forall i, j | 0 <= i < 2 && 0 <= j < 2
      ensures u[i][j] == PauliY[i][j]
    {
      PauliYEntry(i, j);
    }
    MatEq(u, PauliY, 2, 2);
  }

  lemma PauliZEntry(i: int, j: int)
    requires 0 <= i < 2 && 0 <= j < 2
    ensures MatSub(Unit(2, 0, 0), Unit(2, 1, 1))[i][j] == PauliZ[i][j]
  {
    MatSubEntry(Unit(2, 0, 0), Unit(2, 1, 1), i, j);
    UnitEntry(2, 0, 0, i, j);
    UnitEntry(2, 1, 1, i, j);
    if i != j {
      assert Sub(Indicator(false), Indicator(false)) == Zero;
    } else if i == 0 {
      assert Sub(Indicator(true), Indicator(false)) == One;
    } else {
      assert Sub(Indicator(false), Indicator(true)) == MinusOne;
    }
  }

  /** The outer-product sum of Pauli Z equals the numeric constant. */
  lemma PauliZSum()
    ensures MatSub(Kron(Ket0, Bra0), Kron(Ket1, Bra1)) == PauliZ
  {
    OuterKetBra(2, 0, 0);
    OuterKetBra(2, 1, 1);
    var u := MatSub(Unit(2, 0, 0), Unit(2, 1, 1));
    assert MatSub(Kron(Ket0, Bra0), Kron(Ket1, Bra1)) == u;
    forall i, j | 0 <= i < 2 && 0 <= j < 2
      ensures u[i][j] == PauliZ[i][j]
    {
      PauliZEntry(i, j);
    }
    MatEq(u, PauliZ, 2, 2);
  }

  /* ---------------------------------------------------------------------
     Unitarity: each Pauli gate is its own adjoint and its own inverse
     --------------------------------------------------------------------- */

  /** A 2×2 matrix equal to its conjugate transpose, entry by entry, is
      self-adjoint. */
  lemma SelfAdjoint2(g: Matrix)
    requires IsMat(g, 2, 2)
    requires Conj(g[0][0]) == g[0][0] && Conj(g[1][1]) == g[1][1]
    requires Conj(g[1][0]) == g[0][1] && Conj(g[0][1]) == g[1][0]
    ensures Adjoint(g) == g
  {
    Mat2Eq(Adjoint(g), g);
  }

  /** A 2×2 matrix whose square has the entries of I₂ is an involution. */
  lemma Involution2(g: Matrix)
    requires IsMat(g, 2, 2)
    requires Add(Add(Zero, Mul(g[0][0], g[0][0])), Mul(g[0][1], g[1][0])) == One
    requires Add(Add(Zero, Mul(g[0][0], g[0][1])), Mul(g[0][1], g[1][1])) == Zero
    requires Add(Add(Zero, Mul(g[1][0], g[0][0])), Mul(g[1][1], g[1][0])) == Zero
    requires Add(Add(Zero, Mul(g[1][0], g[0][1])), Mul(g[1][1], g[1][1])) == One
    ensures MatMul(g, g) == Identity(2)
  {
    MatMul2Entry(g, g, 0, 0);
    MatMul2Entry(g, g, 0, 1);
    MatMul2Entry(g, g, 1, 0);
    MatMul2Entry(g, g, 1, 1);
    OneQubitIdentityIsIdentity();
    Mat2Eq(MatMul(g, g), OneQubitIdentity);
  }

  /** `Pauli_X_gate` is unitary: X^† = X and X · X^† = I₂. */
  lemma PauliXUnitary()
    ensures Adjoint(PauliX) == PauliX
    ensures Unitary(PauliX) && MatMul(PauliX, PauliX) == Identity(2)
  {
    PauliXPermutation();
    TranspositionUnitary(2, 0, 1);
  }

  lemma PauliYSelfAdjoint()
    ensures Adjoint(PauliY) == PauliY
  {
    ConjUnits();
    hide Conj;
    SelfAdjoint2(PauliY);
  }

  lemma PauliYInvolution()
    ensures MatMul(PauliY, PauliY) == Identity(2)
  {
    Involution2(PauliY);
  }

  /** `Pauli_Y_gate` is unitary: Y^† = Y and Y · Y^† = I₂. */
  lemma PauliYUnitary()
    ensures Adjoint(PauliY) == PauliY
    ensures Unitary(PauliY) && MatMul(PauliY, PauliY) == Identity(2)
  {
    PauliYSelfAdjoint();
    PauliYInvolution();
  }

  lemma PauliZSelfAdjoint()
    ensures Adjoint(PauliZ) == PauliZ
  {
    ConjUnits();
    hide Conj;
    SelfAdjoint2(PauliZ);
  }

  lemma PauliZInvolution()
    ensures MatMul(PauliZ, PauliZ) == Identity(2)
  {
    Involution2(PauliZ);
  }

  /** `Pauli_Z_gate` is unitary: Z^† = Z and Z · Z^† = I₂. */
  lemma PauliZUnitary()
    ensures Adjoint(PauliZ) == PauliZ
    ensures Unitary(PauliZ) && MatMul(PauliZ, PauliZ) == Identity(2)
  {
    PauliZSelfAdjoint();
    PauliZInvolution();
  }
  /** Entry (i, j) of an adjoint is the conjugate of entry (j, i). */
  lemma AdjointEntry(m: Matrix, i: int, j: int)
    requires IsMat(m, |m|, Cols(m)) && 0 <= i < Cols(m) && 0 <= j < |m|
    ensures Adjoint(m)[i][j] == Conj(m[j][i])
  {
  }

  lemma BlockDiagAdjointEntry(top: Matrix, bottom: Matrix, i: int, j: int)
    requires Square(top, |top|) && Square(bottom, |top|)
    requires 0 <= i < 2 * |top| && 0 <= j < 2 * |top|
    ensures Square(Adjoint(top), |top|) && Square(Adjoint(bottom), |top|)
    ensures Adjoint(BlockDiag(top, bottom))[i][j] == BlockDiag(Adjoint(top), Adjoint(bottom))[i][j]
  {
    hide Conj, BlockDiag, Adjoint, Kron, MatAdd;
    var k := |top|;
    AdjointEntry(BlockDiag(top, bottom), i, j);
    BlockDiagEntry(top, bottom, j, i);
    BlockDiagEntry(Adjoint(top), Adjoint(bottom), i, j);
    if i < k && j < k {
      AdjointEntry(top, i, j);
    } else if i >= k && j >= k {
      AdjointEntry(bottom, i - k, j - k);
    } else {
      ConjUnits();
    }
  }

  /** The adjoint of a block-diagonal matrix is taken block by block. */
  lemma BlockDiagAdjoint(top: Matrix, bottom: Matrix)
    requires Square(top, |top|) && Square(bottom, |top|)
    ensures Square(Adjoint(top), |top|) && Square(Adjoint(bottom), |top|)
    ensures Adjoint(BlockDiag(top, bottom)) == BlockDiag(Adjoint(top), Adjoint(bottom))
  {
    var k := |top|;
    forall i, j | 0 <= i < 2 * k && 0 <= j < 2 * k
      ensures Adjoint(BlockDiag(top, bottom))[i][j] == BlockDiag(Adjoint(top), Adjoint(bottom))[i][j]
    {
      BlockDiagAdjointEntry(top, bottom, i, j);
    }
    MatEq(Adjoint(BlockDiag(top, bottom)), BlockDiag(Adjoint(top), Adjoint(bottom)), 2 * k, 2 * k);
  }

  /** Entry (i, j) of a product of two 2-qubit block-diagonal matrices. */
  lemma BlockDiagMulEntry(a: Matrix, b: Matrix, c: Matrix, d: Matrix, i: int, j: int)
    requires IsMat(a, 2, 2) && IsMat(b, 2, 2) && IsMat(c, 2, 2) && IsMat(d, 2, 2)
    requires 0 <= i < 4 && 0 <= j < 4
    ensures MatMul(BlockDiag(a, b), BlockDiag(c, d))[i][j] == BlockDiag(MatMul(a, c), MatMul(b, d))[i][j]
  {
    hide BlockDiag, MatMul, Kron, MatAdd, Mul, Add;
    var l, r := BlockDiag(a, b), BlockDiag(c, d);
    MatMul4Entry(l, r, i, j);
    BlockDiagEntry(a, b, i, 0);
    BlockDiagEntry(a, b, i, 1);
    BlockDiagEntry(a, b, i, 2);
    BlockDiagEntry(a, b, i, 3);
    BlockDiagEntry(c, d, 0, j);
    BlockDiagEntry(c, d, 1, j);
    BlockDiagEntry(c, d, 2, j);
    BlockDiagEntry(c, d, 3, j);
    BlockDiagEntry(MatMul(a, c), MatMul(b, d), i, j);
    ZeroLaws(Zero);
    if i < 2 && j < 2 {
      MatMul2Entry(a, c, i, j);
      ZeroLaws(MatMul(a, c)[i][j]);
    } else if i >= 2 && j >= 2 {
      MatMul2Entry(b, d, i - 2, j - 2);
    } else if i < 2 {
      ZeroLaws(a[i][0]);
      ZeroLaws(a[i][1]);
      ZeroLaws(d[0][j - 2]);
      ZeroLaws(d[1][j - 2]);
    } else {
      ZeroLaws(b[i - 2][0]);
      ZeroLaws(b[i - 2][1]);
      ZeroLaws(c[0][j]);
      ZeroLaws(c[1][j]);
    }
  }

  /** Two 2-qubit block-diagonal matrices multiply block by block. */
  lemma BlockDiagMul(a: Matrix, b: Matrix, c: Matrix, d: Matrix)
    requires IsMat(a, 2, 2) && IsMat(b, 2, 2) && IsMat(c, 2, 2) && IsMat(d, 2, 2)
    ensures MatMul(BlockDiag(a, b), BlockDiag(c, d)) == BlockDiag(MatMul(a, c), MatMul(b, d))
  {
    forall i, j | 0 <= i < 4 && 0 <= j < 4
      ensures MatMul(BlockDiag(a, b), BlockDiag(c, d))[i][j] == BlockDiag(MatMul(a, c), MatMul(b, d))[i][j]
    {
      BlockDiagMulEntry(a, b, c, d, i, j);
    }
    MatEq(MatMul(BlockDiag(a, b), BlockDiag(c, d)), BlockDiag(MatMul(a, c), MatMul(b, d)), 4, 4);
  }

  lemma BlockDiagIdentityEntry(k: nat, i: int, j: int)
    requires k > 0 && 0 <= i < 2 * k && 0 <= j < 2 * k
    ensures Square(Identity(k), k)
    ensures BlockDiag(Identity(k), Identity(k))[i][j] == Identity(2 * k)[i][j]
  {
    hide BlockDiag, Kron, MatAdd, Identity;
    BlockDiagEntry(Identity(k), Identity(k), i, j);
    IdentityEntry(2 * k, i, j);
    if i < k && j < k {
      IdentityEntry(k, i, j);
    } else if i >= k && j >= k {
      IdentityEntry(k, i - k, j - k);
    }
  }

  /** Two identity blocks make the identity of twice the size. */
  lemma BlockDiagIdentity(k: nat)
    requires k > 0
    ensures BlockDiag(Identity(k), Identity(k)) == Identity(2 * k)
  {
    forall i, j | 0 <= i < 2 * k && 0 <= j < 2 * k
      ensures BlockDiag(Identity(k), Identity(k))[i][j] == Identity(2 * k)[i][j]
    {
      BlockDiagIdentityEntry(k, i, j);
    }
    MatEq(BlockDiag(Identity(k), Identity(k)), Identity(2 * k), 2 * k, 2 * k);
  }
}
