/** Dense matrices over the Gaussian integers with the numpy operations the
    gate algebra uses: Kronecker product (`np.kron`), sum, scaling, matrix
    product (`np.dot`), diagonal extraction and construction (`np.diag`),
    identity (`np.identity`) and permutation matrices. */
module Matrices {
  import opened Complex
  import opened Arith

  /** Row-major; a column vector is an n×1 matrix and a row vector a 1×n one. */
  type Matrix = seq<seq<Cx>>

  predicate IsMat(m: Matrix, r: nat, c: nat)
  {
    |m| == r && forall i :: 0 <= i < r ==> |m[i]| == c
  }

  function Cols(m: Matrix): nat
  {
    if |m| == 0 then 0 else |m[0]|
  }

  /** A non-empty rectangular array. */
  predicate Shaped(m: Matrix)
  {
    |m| > 0 && |m[0]| > 0 && IsMat(m, |m|, |m[0]|)
  }

  /** Every entry outside the diagonal is zero. */
  predicate IsDiagonal(m: Matrix)
  {
    IsMat(m, |m|, |m|) &&
    forall i, j :: 0 <= i < |m| && 0 <= j < |m| && i != j ==> m[i][j] == Zero
  }

  function Zeros(r: nat, c: nat): (z: Matrix)
    ensures IsMat(z, r, c)
  {
    seq(r, i => seq(c, j => Zero))
  }

  function Identity(d: nat): (m: Matrix)
    ensures IsMat(m, d, d)
  {
    seq(d, i => seq(d, j => Indicator(i == j)))
  }

  /** `np.diag` of a one-dimensional array: the square matrix carrying it. */
  function Diag(v: seq<Cx>): (m: Matrix)
    ensures IsMat(m, |v|, |v|) && IsDiagonal(m)
  {
    seq(|v|, i requires 0 <= i < |v| => seq(|v|, j requires 0 <= j < |v| => if i == j then v[i] else Zero))
  }

  /** `np.diag` of a square array: its diagonal. */
  function DiagOf(m: Matrix): (v: seq<Cx>)
    requires IsMat(m, |m|, |m|)
    ensures |v| == |m|
  {
    seq(|m|, i requires 0 <= i < |m| => m[i][i])
  }

  /** A one-dimensional array turned into a column (`np.array([v]).T`). */
  function Column(v: seq<Cx>): (m: Matrix)
    ensures IsMat(m, |v|, 1)
  {
    seq(|v|, i requires 0 <= i < |v| => [v[i]])
  }

  function ColumnOf(m: Matrix, j: nat): (v: seq<Cx>)
    requires IsMat(m, |m|, Cols(m)) && j < Cols(m)
    ensures |v| == |m|
  {
    seq(|m|, k requires 0 <= k < |m| => m[k][j])
  }

  function MatAdd(a: Matrix, b: Matrix): (m: Matrix)
    requires IsMat(a, |a|, Cols(a)) && IsMat(b, |a|, Cols(a))
    ensures IsMat(m, |a|, Cols(a))
  {
    seq(|a|, i requires 0 <= i < |a| =>
      seq(Cols(a), j requires 0 <= j < Cols(a) => Add(a[i][j], b[i][j])))
  }

  function MatScale(s: Cx, a: Matrix): (m: Matrix)
    requires IsMat(a, |a|, Cols(a))
    ensures IsMat(m, |a|, Cols(a))
  {
    seq(|a|, i requires 0 <= i < |a| =>
      seq(Cols(a), j requires 0 <= j < Cols(a) => Mul(s, a[i][j])))
  }

  function MatSub(a: Matrix, b: Matrix): (m: Matrix)
    requires IsMat(a, |a|, Cols(a)) && IsMat(b, |a|, Cols(a))
    ensures IsMat(m, |a|, Cols(a))
  {
    seq(|a|, i requires 0 <= i < |a| =>
      seq(Cols(a), j requires 0 <= j < Cols(a) => Sub(a[i][j], b[i][j])))
  }

  function KronEntry(a: Matrix, b: Matrix, i: int, j: int): Cx
    requires Shaped(a) && Shaped(b)
    requires 0 <= i < |a| * |b| && 0 <= j < Cols(a) * Cols(b)
  {
    DivBelow(i, |a|, |b|);
    DivBelow(j, Cols(a), Cols(b));
    Mul(a[i / |b|][j / Cols(b)], b[i % |b|][j % Cols(b)])
  }

  /** `np.kron(a, b)`: the left factor indexes the blocks, so it is the
      more significant one. */
  function Kron(a: Matrix, b: Matrix): (k: Matrix)
    requires Shaped(a) && Shaped(b)
    ensures IsMat(k, |a| * |b|, Cols(a) * Cols(b)) && Shaped(k)
  {
    seq(|a| * |b|, i requires 0 <= i < |a| * |b| =>
      seq(Cols(a) * Cols(b), j requires 0 <= j < Cols(a) * Cols(b) => KronEntry(a, b, i, j)))
  }

  /** Entry (i, j) of a ⊗ b: block (i / rows(b), j / cols(b)) of a scales
      entry (i % rows(b), j % cols(b)) of b. */
  lemma KronAt(a: Matrix, b: Matrix, i: int, j: int)
    requires Shaped(a) && Shaped(b)
    requires 0 <= i < |a| * |b| && 0 <= j < Cols(a) * Cols(b)
    ensures 0 <= i / |b| < |a| && 0 <= j / Cols(b) < Cols(a)
    ensures Kron(a, b)[i][j] == Mul(a[i / |b|][j / Cols(b)], b[i % |b|][j % Cols(b)])
  {
    DivBelow(i, |a|, |b|);
    DivBelow(j, Cols(a), Cols(b));
  }

  /** Entry (p·rows(b) + r, q·cols(b) + s) of a ⊗ b is a[p][q]·b[r][s]. */
  lemma KronBlock(a: Matrix, b: Matrix, p: int, q: int, r: int, s: int)
    requires Shaped(a) && Shaped(b)
    requires 0 <= p < |a| && 0 <= q < Cols(a) && 0 <= r < |b| && 0 <= s < Cols(b)
    ensures 0 <= p * |b| + r < |a| * |b| && 0 <= q * Cols(b) + s < Cols(a) * Cols(b)
    ensures Kron(a, b)[p * |b| + r][q * Cols(b) + s] == Mul(a[p][q], b[r][s])
  {
    DivModUnique(p * |b| + r, |b|, p, r);
    DivModUnique(q * Cols(b) + s, Cols(b), q, s);
    MulMonotone(p, |a| - 1, |b|);
    MulMonotone(q, Cols(a) - 1, Cols(b));
  }

  function Sum(s: seq<Cx>): Cx
  {
    if |s| == 0 then Zero else Add(Sum(s[..|s| - 1]), s[|s| - 1])
  }

  function Dot(u: seq<Cx>, v: seq<Cx>): Cx
    requires |u| == |v|
  {
    Sum(seq(|u|, k requires 0 <= k < |u| => Mul(u[k], v[k])))
  }

  /** `np.dot` of two matrices. */
  function MatMul(a: Matrix, b: Matrix): (m: Matrix)
    requires IsMat(a, |a|, |b|) && IsMat(b, |b|, Cols(b))
    ensures IsMat(m, |a|, Cols(b))
  {
    seq(|a|, i requires 0 <= i < |a| =>
      seq(Cols(b), j requires 0 <= j < Cols(b) => Dot(a[i], ColumnOf(b, j))))
  }

  /** `np.dot` of a one-dimensional array with a matrix. */
  function VecMat(v: seq<Cx>, m: Matrix): (w: seq<Cx>)
    requires IsMat(m, |v|, Cols(m))
    ensures |w| == Cols(m)
  {
    seq(Cols(m), j requires 0 <= j < Cols(m) => Dot(v, ColumnOf(m, j)))
  }

  lemma {:induction false} SumZeros(s: seq<Cx>)
    requires forall k :: 0 <= k < |s| ==> s[k] == Zero
    ensures Sum(s) == Zero
  {
    if |s| > 0 {
      SumZeros(s[..|s| - 1]);
    }
  }

  /** A sum with a single non-zero term is that term. */
  lemma {:induction false} SumOneHot(s: seq<Cx>, p: int)
    requires 0 <= p < |s|
    requires forall k :: 0 <= k < |s| && k != p ==> s[k] == Zero
    ensures Sum(s) == s[p]
  {
    var init := s[..|s| - 1];
    if p == |s| - 1 {
      SumZeros(init);
    } else {
      SumOneHot(init, p);
    }
  }

  lemma DotOneHot(u: seq<Cx>, v: seq<Cx>, p: int)
    requires |u| == |v| && 0 <= p < |u|
    requires forall k :: 0 <= k < |u| && k != p ==> u[k] == Zero || v[k] == Zero
    ensures Dot(u, v) == Mul(u[p], v[p])
  {
    var s := seq(|u|, k requires 0 <= k < |u| => Mul(u[k], v[k]));
    SumOneHot(s, p);
  }

  lemma MatEq(a: Matrix, b: Matrix, r: nat, c: nat)
    requires IsMat(a, r, c) && IsMat(b, r, c)
    requires forall i, j :: 0 <= i < r && 0 <= j < c ==> a[i][j] == b[i][j]
    ensures a == b
  {
    forall i | 0 <= i < r
      ensures a[i] == b[i]
    {
      assert forall j :: 0 <= j < c ==> a[i][j] == b[i][j];
    }
  }

  /** Exchanges x and y and fixes every other index. */
  function Swapped(i: int, x: int, y: int): int
  {
    if i == x then y else if i == y then x else i
  }

  /** The permutation matrix with a 1 at (i, p[i]) in every row i. */
  function Permutation(d: nat, p: seq<int>): (m: Matrix)
    requires |p| == d
    ensures IsMat(m, d, d)
  {
    seq(d, i requires 0 <= i < d => seq(d, j requires 0 <= j < d => Indicator(j == p[i])))
  }

  /** The identity map of [0, d). */
  function Straight(d: nat): (r: seq<int>)
    ensures |r| == d
  {
    seq(d, i => i)
  }

  /** The transposition of x and y, as an index map on [0, d). */
  function Exchange(d: nat, x: int, y: int): (r: seq<int>)
    ensures |r| == d
  {
    seq(d, i => Swapped(i, x, y))
  }

  /** The permutation matrix that exchanges indices x and y only. */
  function Transposition(d: nat, x: int, y: int): (m: Matrix)
    ensures IsMat(m, d, d)
  {
    Permutation(d, Exchange(d, x, y))
  }

  /** Left-multiplying by a permutation matrix reorders the rows. */
  lemma PermutationRows(d: nat, p: seq<int>, m: Matrix)
    requires |p| == d && IsMat(m, d, Cols(m))
    requires forall i :: 0 <= i < d ==> 0 <= p[i] < d
    ensures MatMul(Permutation(d, p), m) == seq(d, i requires 0 <= i < d => m[p[i]])
  {
    var P := Permutation(d, p);
    var lhs := MatMul(P, m);
    var rhs := seq(d, i requires 0 <= i < d => m[p[i]]);
    forall i, j | 0 <= i < d && 0 <= j < Cols(m)
      ensures lhs[i][j] == rhs[i][j]
    {
      assert forall k :: 0 <= k < d ==> P[i][k] == Indicator(k == p[i]);
      DotOneHot(P[i], ColumnOf(m, j), p[i]);
    }
    MatEq(lhs, rhs, d, Cols(m));
  }

  /** A transposition matrix is its own inverse. */
  lemma TranspositionInvolution(d: nat, x: int, y: int)
    requires 0 <= x < d && 0 <= y < d
    ensures MatMul(Transposition(d, x, y), Transposition(d, x, y)) == Identity(d)
  {
    var p := Exchange(d, x, y);
    var T := Transposition(d, x, y);
    PermutationRows(d, p, T);
    MatEq(MatMul(T, T), Identity(d), d, d);
  }

  /** Right-multiplying a row by a transposition matrix exchanges two entries. */
  lemma VecMatTransposition(v: seq<Cx>, x: int, y: int)
    requires 0 <= x < |v| && 0 <= y < |v|
    ensures VecMat(v, Transposition(|v|, x, y)) == seq(|v|, j requires 0 <= j < |v| => v[Swapped(j, x, y)])
  {
    var T := Transposition(|v|, x, y);
    var w := VecMat(v, T);
    forall j | 0 <= j < |v|
      ensures w[j] == v[Swapped(j, x, y)]
    {
      var col := ColumnOf(T, j);
      assert forall k :: 0 <= k < |v| ==> col[k] == Indicator(j == Swapped(k, x, y));
      DotOneHot(v, col, Swapped(j, x, y));
    }
  }

  /** p maps [0, d) into itself and undoes itself. */
  predicate IsInvolution(d: nat, p: seq<int>)
  {
    |p| == d && (forall i :: 0 <= i < d ==> 0 <= p[i] < d) &&
    forall i :: 0 <= i < d ==> p[p[i]] == i
  }

  /** The permutation matrix of an involution is its own inverse. */
  lemma PermutationSelfInverse(d: nat, p: seq<int>)
    requires IsInvolution(d, p)
    ensures MatMul(Permutation(d, p), Permutation(d, p)) == Identity(d)
  {
    var P := Permutation(d, p);
    PermutationRows(d, p, P);
    MatEq(MatMul(P, P), Identity(d), d, d);
  }

  /** Right-multiplying a row by an involution's matrix permutes its entries. */
  lemma VecMatInvolution(v: seq<Cx>, p: seq<int>)
    requires IsInvolution(|v|, p)
    ensures VecMat(v, Permutation(|v|, p)) == seq(|v|, j requires 0 <= j < |v| => v[p[j]])
  {
    var P := Permutation(|v|, p);
    var w := VecMat(v, P);
    forall j | 0 <= j < |v|
      ensures w[j] == v[p[j]]
    {
      var col := ColumnOf(P, j);
      assert forall k :: 0 <= k < |v| ==> col[k] == Indicator(j == p[k]);
      DotOneHot(v, col, p[j]);
    }
  }

  /** The identity matrix is the permutation matrix of the identity map. */
  lemma IdentityPermutation(d: nat)
    ensures Identity(d) == Permutation(d, Straight(d))
  {
    MatEq(Identity(d), Permutation(d, Straight(d)), d, d);
  }

  lemma TranspositionIsInvolution(d: nat, x: int, y: int)
    requires 0 <= x < d && 0 <= y < d
    ensures IsInvolution(d, Exchange(d, x, y))
  {
  }

  /** The d×d matrix with a single 1 at (x, y): the outer product |x⟩⟨y|. */
  function Unit(d: nat, x: int, y: int): (m: Matrix)
    ensures IsMat(m, d, d)
  {
    seq(d, i => seq(d, j => Indicator(i == x && j == y)))
  }

  lemma PermutationEntry(d: nat, p: seq<int>, i: int, j: int)
    requires |p| == d && 0 <= i < d && 0 <= j < d
    ensures Permutation(d, p)[i][j] == Indicator(j == p[i])
  {
  }

  lemma IdentityEntry(d: nat, i: int, j: int)
    requires 0 <= i < d && 0 <= j < d
    ensures Identity(d)[i][j] == Indicator(i == j)
  {
  }

  lemma UnitEntry(d: nat, x: int, y: int, i: int, j: int)
    requires 0 <= i < d && 0 <= j < d
    ensures Unit(d, x, y)[i][j] == Indicator(i == x && j == y)
  {
  }

  lemma MatAddEntry(a: Matrix, b: Matrix, i: int, j: int)
    requires IsMat(a, |a|, Cols(a)) && IsMat(b, |a|, Cols(a))
    requires 0 <= i < |a| && 0 <= j < Cols(a)
    ensures MatAdd(a, b)[i][j] == Add(a[i][j], b[i][j])
  {
  }

  lemma MatSubEntry(a: Matrix, b: Matrix, i: int, j: int)
    requires IsMat(a, |a|, Cols(a)) && IsMat(b, |a|, Cols(a))
    requires 0 <= i < |a| && 0 <= j < Cols(a)
    ensures MatSub(a, b)[i][j] == Sub(a[i][j], b[i][j])
  {
  }

  lemma MatScaleEntry(s: Cx, a: Matrix, i: int, j: int)
    requires IsMat(a, |a|, Cols(a))
    requires 0 <= i < |a| && 0 <= j < Cols(a)
    ensures MatScale(s, a)[i][j] == Mul(s, a[i][j])
  {
  }

  /** Equality of 2×2 matrices from their four entries. */
  /** The conjugate transpose G^†: entry (i, j) is the conjugate of G[j][i]. */
  function Adjoint(m: Matrix): (r: Matrix)
    requires IsMat(m, |m|, Cols(m))
    ensures IsMat(r, Cols(m), |m|)
  {
    seq(Cols(m), i requires 0 <= i < Cols(m) =>
      seq(|m|, j requires 0 <= j < |m| => Conj(m[j][i])))
  }

  /** G · G^† = I: a square matrix whose conjugate transpose is its inverse. */
  predicate Unitary(m: Matrix)
  {
    IsMat(m, |m|, |m|) && MatMul(m, Adjoint(m)) == Identity(|m|)
  }

  /** A transposition matrix is real and symmetric, so it is its own
      adjoint, and with its adjoint it multiplies to the identity. */
  lemma TranspositionUnitary(d: nat, x: int, y: int)
    requires 0 <= x < d && 0 <= y < d
    ensures Adjoint(Transposition(d, x, y)) == Transposition(d, x, y)
    ensures Unitary(Transposition(d, x, y))
  {
    var t := Transposition(d, x, y);
    forall i, j | 0 <= i < d && 0 <= j < d
      ensures Adjoint(t)[i][j] == t[i][j]
    {
      TranspositionSymmetric(d, x, y, i, j);
    }
    MatEq(Adjoint(t), t, d, d);
    TranspositionInvolution(d, x, y);
  }

  lemma TranspositionSymmetric(d: nat, x: int, y: int, i: int, j: int)
    requires 0 <= x < d && 0 <= y < d && 0 <= i < d && 0 <= j < d
    ensures Adjoint(Transposition(d, x, y))[i][j] == Transposition(d, x, y)[i][j]
  {
    hide Conj, Indicator;
    var e := Exchange(d, x, y);
    var t := Transposition(d, x, y);
    PermutationEntry(d, e, i, j);
    PermutationEntry(d, e, j, i);
    assert (j == e[i]) == (i == e[j]);
    assert Adjoint(t)[i][j] == Conj(t[j][i]);
    ConjIndicator(i == e[j]);
  }

  /** The entries of a product of two 2×2 matrices. */
  lemma MatMul2Entry(a: Matrix, b: Matrix, i: int, j: int)
    requires IsMat(a, 2, 2) && IsMat(b, 2, 2) && 0 <= i < 2 && 0 <= j < 2
    ensures MatMul(a, b)[i][j] == Add(Add(Zero, Mul(a[i][0], b[0][j])), Mul(a[i][1], b[1][j]))
  {
    hide Mul, Add;
    var c := ColumnOf(b, j);
    assert MatMul(a, b)[i][j] == Dot(a[i], c);
    assert c[0] == b[0][j] && c[1] == b[1][j];
    var s := seq(2, k requires 0 <= k < 2 => Mul(a[i][k], c[k]));
    assert Dot(a[i], c) == Sum(s);
    assert s[..1][..0] == [];
    assert Sum(s[..1]) == Add(Zero, s[0]);
  }

  /** The entries of a product of two 4×4 matrices. */
  lemma MatMul4Entry(a: Matrix, b: Matrix, i: int, j: int)
    requires IsMat(a, 4, 4) && IsMat(b, 4, 4) && 0 <= i < 4 && 0 <= j < 4
    ensures MatMul(a, b)[i][j] ==
      Add(Add(Add(Add(Zero, Mul(a[i][0], b[0][j])), Mul(a[i][1], b[1][j])), Mul(a[i][2], b[2][j])), Mul(a[i][3], b[3][j]))
  {
    hide Mul, Add;
    var c := ColumnOf(b, j);
    assert MatMul(a, b)[i][j] == Dot(a[i], c);
    assert c[0] == b[0][j] && c[1] == b[1][j] && c[2] == b[2][j] && c[3] == b[3][j];
    var s := seq(4, k requires 0 <= k < 4 => Mul(a[i][k], c[k]));
    assert Dot(a[i], c) == Sum(s);
    assert s[..3][..2] == s[..2] && s[..2][..1] == s[..1] && s[..1][..0] == [];
    assert Sum(s[..1]) == Add(Zero, s[0]);
    assert Sum(s[..2]) == Add(Sum(s[..1]), s[1]);
    assert Sum(s[..3]) == Add(Sum(s[..2]), s[2]);
  }

  lemma Mat2Eq(a: Matrix, b: Matrix)
    requires IsMat(a, 2, 2) && IsMat(b, 2, 2)
    requires a[0][0] == b[0][0] && a[0][1] == b[0][1]
    requires a[1][0] == b[1][0] && a[1][1] == b[1][1]
    ensures a == b
  {
    assert a[0] == b[0];
    assert a[1] == b[1];
  }

  lemma KronAddRightEntry(a: Matrix, b: Matrix, c: Matrix, i: int, j: int)
    requires Shaped(a) && Shaped(b) && IsMat(c, |b|, Cols(b))
    requires 0 <= i < |a| * |b| && 0 <= j < Cols(a) * Cols(b)
    ensures Kron(a, MatAdd(b, c))[i][j] == MatAdd(Kron(a, b), Kron(a, c))[i][j]
  {
    var bc := MatAdd(b, c);
    KronAt(a, bc, i, j);
    KronAt(a, b, i, j);
    KronAt(a, c, i, j);
    MatAddEntry(b, c, i % |b|, j % Cols(b));
    MatAddEntry(Kron(a, b), Kron(a, c), i, j);
    MulDistributes(a[i / |b|][j / Cols(b)], b[i % |b|][j % Cols(b)], c[i % |b|][j % Cols(b)]);
  }

  /** The Kronecker product distributes over a sum on the right. */
  lemma KronAddRight(a: Matrix, b: Matrix, c: Matrix)
    requires Shaped(a) && Shaped(b) && IsMat(c, |b|, Cols(b))
    ensures Kron(a, MatAdd(b, c)) == MatAdd(Kron(a, b), Kron(a, c))
  {
    var l, r := Kron(a, MatAdd(b, c)), MatAdd(Kron(a, b), Kron(a, c));
    forall i, j | 0 <= i < |a| * |b| && 0 <= j < Cols(a) * Cols(b)
      ensures l[i][j] == r[i][j]
    {
      KronAddRightEntry(a, b, c, i, j);
    }
    MatEq(l, r, |a| * |b|, Cols(a) * Cols(b));
  }

  /** Matrix addition commutes. */
  lemma MatAddCommutes(a: Matrix, b: Matrix)
    requires IsMat(a, |a|, Cols(a)) && IsMat(b, |a|, Cols(a))
    ensures MatAdd(a, b) == MatAdd(b, a)
  {
    forall i, j | 0 <= i < |a| && 0 <= j < Cols(a)
      ensures MatAdd(a, b)[i][j] == MatAdd(b, a)[i][j]
    {
      MatAddEntry(a, b, i, j);
      MatAddEntry(b, a, i, j);
    }
    MatEq(MatAdd(a, b), MatAdd(b, a), |a|, Cols(a));
  }

  /** The index map of P ⊗ I(k) for a permutation p of [0, m): block i / k
      goes to block p[i / k] and the offset i % k is kept. */
  function Blocked(p: seq<int>, k: nat): (r: seq<int>)
    requires k > 0
    ensures |r| == |p| * k
  {
    seq(|p| * k, i requires 0 <= i < |p| * k => (DivBelow(i, |p|, k); p[i / k] * k + i % k))
  }

  /** Entry (i, j) of P ⊗ I(k) for the permutation matrix P of p. */
  lemma KronPermutationEntry(m: nat, p: seq<int>, k: nat, i: int, j: int)
    requires |p| == m && m > 0 && k > 0 && 0 <= i < m * k && 0 <= j < m * k
    ensures Shaped(Permutation(m, p)) && Shaped(Identity(k))
    ensures Kron(Permutation(m, p), Identity(k))[i][j] == Indicator(j == Blocked(p, k)[i])
  {
    var P := Permutation(m, p);
    assert Shaped(P) && Shaped(Identity(k));
    DivBelow(i, m, k);
    assert Blocked(p, k)[i] == p[i / k] * k + i % k;
    hide Kron, KronEntry, Permutation, Identity, Mul, Indicator, Blocked;
    KronAt(P, Identity(k), i, j);
    var q, r := i / k, i % k;
    PermutationEntry(m, p, q, j / k);
    IdentityEntry(k, r, j % k);
    MulIndicators(j / k == p[q], j % k == r);
    DivModIff(j, k, p[q], r);
  }

  /** P ⊗ I(k) is the permutation matrix of the blocked map. */
  lemma KronPermutation(m: nat, p: seq<int>, k: nat)
    requires |p| == m && m > 0 && k > 0
    ensures Shaped(Permutation(m, p)) && Shaped(Identity(k))
    ensures Kron(Permutation(m, p), Identity(k)) == Permutation(m * k, Blocked(p, k))
  {
    var K := Kron(Permutation(m, p), Identity(k));
    var h := Permutation(m * k, Blocked(p, k));
    KronPermutationEntry(m, p, k, 0, 0);
    forall i, j | 0 <= i < m * k && 0 <= j < m * k
      ensures K[i][j] == h[i][j]
    {
      KronPermutationEntry(m, p, k, i, j);
      PermutationEntry(m * k, Blocked(p, k), i, j);
    }
    MatEq(K, h, m * k, m * k);
  }
}
