/** The outer-product identity gate `identity_gate`: the list built by
    `identity_gate_helper` holds the projectors |k⟩⟨k| of an n-qubit
    register, and their sum is `np.identity(2^n)`. */
module OuterIdentity {
  import opened Complex
  import opened Arith
  import opened Matrices
  import opened Results
  import opened Basis
  import opened Gates

  /** `np.kron(get_ket(k), get_bra(k))`: the one-qubit projector |k⟩⟨k|. */
  const ZeroProduct: Matrix := Kron(Ket0, Bra0)

  const OneProduct: Matrix := Kron(Ket1, Bra1)

  lemma ProductsAreUnits()
    ensures ZeroProduct == Unit(2, 0, 0) && OneProduct == Unit(2, 1, 1)
  {
    OuterKetBra(2, 0, 0);
    OuterKetBra(2, 1, 1);
  }

  predicate AllShaped(qs: seq<Matrix>)
  {
    forall k :: 0 <= k < |qs| ==> Shaped(qs[k])
  }

  /** |0⟩⟨0| for bit 0 and |1⟩⟨1| for bit 1. */
  function Product(bit: int): (m: Matrix)
    ensures Shaped(m)
  {
    ProductsAreUnits();
    if bit == 0 then ZeroProduct else OneProduct
  }

  /** The loop of `identity_gate_helper`: every q of the smaller list is
      replaced, in order, by q ⊗ |0⟩⟨0| and q ⊗ |1⟩⟨1|. */
  function Refine(qs: seq<Matrix>): (r: seq<Matrix>)
    requires AllShaped(qs)
    ensures |r| == 2 * |qs|
  {
    if |qs| == 0 then []
    else
      TailShaped(qs);
      [Kron(qs[0], Product(0)), Kron(qs[0], Product(1))] + Refine(qs[1..])
  }

  /** Entry t of the refined list refines entry t / 2 of the smaller one by
      the projector of bit t % 2. */
  lemma {:induction false} RefineEntry(qs: seq<Matrix>, t: int)
    requires AllShaped(qs) && 0 <= t < 2 * |qs|
    ensures Refine(qs)[t] == Kron(qs[t / 2], Product(t % 2))
  {
    if t < 2 {
      RefineHead(qs, t);
      assert t / 2 == 0 && t % 2 == t;
    } else {
      RefineShift(qs, t);
      TailHalf(qs, t);
      RefineEntry(qs[1..], t - 2);
    }
  }

  lemma RefineHead(qs: seq<Matrix>, t: int)
    requires AllShaped(qs) && 0 <= t < 2 && |qs| > 0
    ensures Refine(qs)[t] == Kron(qs[0], Product(t))
  {
  }

  /** Past the first pair, the refined list is the refinement of the tail. */
  lemma RefineShift(qs: seq<Matrix>, t: int)
    requires AllShaped(qs) && 2 <= t < 2 * |qs|
    ensures AllShaped(qs[1..])
    ensures Refine(qs)[t] == Refine(qs[1..])[t - 2]
  {
    RefineUnfold(qs);
    var pair := [Kron(qs[0], Product(0)), Kron(qs[0], Product(1))];
    hide *;
    PastPair(pair, Refine(qs[1..]), t);
  }

  lemma PastPair<T>(a: seq<T>, b: seq<T>, t: int)
    requires |a| == 2 && 2 <= t < 2 + |b|
    ensures (a + b)[t] == b[t - 2]
  {
  }

  lemma RefineUnfold(qs: seq<Matrix>)
    requires AllShaped(qs) && |qs| > 0
    ensures AllShaped(qs[1..])
    ensures Refine(qs) == [Kron(qs[0], Product(0)), Kron(qs[0], Product(1))] + Refine(qs[1..])
  {
    TailShaped(qs);
  }

  lemma TailShaped(qs: seq<Matrix>)
    requires AllShaped(qs) && |qs| > 0
    ensures AllShaped(qs[1..])
  {
    assert forall k :: 1 <= k < |qs| ==> qs[k] == qs[1..][k - 1];
  }

  /** Halving past the first pair is halving in the tail. */
  lemma TailHalf(qs: seq<Matrix>, t: int)
    requires 2 <= t < 2 * |qs|
    ensures qs[1..][(t - 2) / 2] == qs[t / 2] && (t - 2) % 2 == t % 2
  {
  }

  /** |a⟩⟨b| ⊗ |c⟩⟨e| = |a·n + c⟩⟨b·n + e|. */
  lemma KronUnits(m: nat, a: int, b: int, n: nat, c: int, e: int)
    requires 0 <= a < m && 0 <= b < m && 0 <= c < n && 0 <= e < n
    ensures Kron(Unit(m, a, b), Unit(n, c, e)) == Unit(m * n, a * n + c, b * n + e)
  {
    var k := Kron(Unit(m, a, b), Unit(n, c, e));
    forall i, j | 0 <= i < m * n && 0 <= j < m * n
      ensures k[i][j] == Unit(m * n, a * n + c, b * n + e)[i][j]
    {
      KronUnitsEntry(m, a, b, n, c, e, i, j);
    }
    MatEq(k, Unit(m * n, a * n + c, b * n + e), m * n, m * n);
  }

  lemma KronUnitsEntry(m: nat, a: int, b: int, n: nat, c: int, e: int, i: int, j: int)
    requires 0 <= a < m && 0 <= b < m && 0 <= c < n && 0 <= e < n
    requires 0 <= i < m * n && 0 <= j < m * n
    ensures Kron(Unit(m, a, b), Unit(n, c, e))[i][j] == Indicator(i == a * n + c && j == b * n + e)
  {
    KronAt(Unit(m, a, b), Unit(n, c, e), i, j);
    UnitEntry(m, a, b, i / n, j / n);
    UnitEntry(n, c, e, i % n, j % n);
    MulIndicators(i / n == a && j / n == b, i % n == c && j % n == e);
    IndexSplit(i, n, a, c);
    IndexSplit(j, n, b, e);
  }

  /** The projectors |k⟩⟨k| of a d-dimensional register, in index order. */
  function Projectors(d: nat, count: nat): (r: seq<Matrix>)
    ensures |r| == count
  {
    seq(count, k => Unit(d, k, k))
  }

  /** `identity_gate_helper(n)`. From n = 1 the recursion bottoms out; from
      n < 1 it never reaches the base case and Python raises RecursionError. */
  function IdentityTerms(n: int): (r: Result<seq<Matrix>>)
    ensures r.Ok? <==> n >= 1
    ensures n >= 1 ==> r.Ok? && r.value == Projectors(Pow2(n), Pow2(n))
    decreases n
  {
    if n < 1 then Err(RecursionError)
    else if n == 1 then
      BaseProjectors();
      Ok([ZeroProduct, OneProduct])
    else
      var qs := IdentityTerms(n - 1).value;
      TermsStep(n, qs);
      Ok(Refine(qs))
  }

  /** One step of the helper's recursion, from n - 1 qubits to n. */
  lemma TermsStep(n: int, qs: seq<Matrix>)
    requires n >= 2 && qs == Projectors(Pow2(n - 1), Pow2(n - 1))
    ensures AllShaped(qs) && Refine(qs) == Projectors(Pow2(n), Pow2(n))
  {
    hide *;
    var m: nat := n - 1;
    RefineProjectors(m);
    assert m + 1 == n;
  }

  /** The helper's base list holds the two one-qubit projectors. */
  lemma BaseProjectors()
    ensures [ZeroProduct, OneProduct] == Projectors(Pow2(1), Pow2(1))
  {
    ProductsAreUnits();
    assert Pow2(1) == 2;
    var p := Projectors(2, 2);
    assert p[0] == Unit(2, 0, 0) && p[1] == Unit(2, 1, 1);
  }

  /** Refining the projectors of 2^n dimensions gives those of 2^(n+1). */
  lemma RefineProjectors(n: nat)
    ensures AllShaped(Projectors(Pow2(n), Pow2(n)))
    ensures Refine(Projectors(Pow2(n), Pow2(n))) == Projectors(Pow2(n + 1), Pow2(n + 1))
  {
    var h := Pow2(n);
    var qs := Projectors(h, h);
    var r := Refine(qs);
    var e := Projectors(2 * h, 2 * h);
    assert Pow2(n + 1) == 2 * h;
    forall t | 0 <= t < 2 * h
      ensures r[t] == e[t]
    {
      RefineEntry(qs, t);
      RefinedProjector(h, t);
    }
  }

  /** Entry t of the refined list is |t⟩⟨t|. */
  lemma RefinedProjector(h: nat, t: int)
    requires 0 <= t < 2 * h
    ensures AllShaped(Projectors(h, h))
    ensures Kron(Projectors(h, h)[t / 2], Product(t % 2)) == Unit(2 * h, t, t)
  {
    ProductsAreUnits();
    var k, b := t / 2, t % 2;
    assert t == k * 2 + b && 0 <= k < h && 2 * h == h * 2;
    assert Product(b) == Unit(2, b, b);
    assert Projectors(h, h)[k] == Unit(h, k, k);
    KronUnits(h, k, k, 2, b, b);
    hide *;
  }

  /** Python's `sum` over a list of d×d arrays. It starts from the integer
      0, which broadcasts to the zero matrix. */
  function SumMatrices(ms: seq<Matrix>, d: nat): (s: Matrix)
    requires forall k :: 0 <= k < |ms| ==> IsMat(ms[k], d, d)
    ensures IsMat(s, d, d)
  {
    if |ms| == 0 then Zeros(d, d)
    else MatAdd(SumMatrices(ms[..|ms| - 1], d), ms[|ms| - 1])
  }

  /** The diagonal matrix with ones at the first `count` diagonal places. */
  function LeadingOnes(d: nat, count: int): (m: Matrix)
    ensures IsMat(m, d, d)
  {
    seq(d, i => seq(d, j => Indicator(i == j && i < count)))
  }

  /** The first `count` projectors sum to the identity on the first `count`
      indices. */
  lemma {:induction false} SumProjectors(d: nat, count: nat)
    requires count <= d
    ensures SumMatrices(Projectors(d, count), d) == LeadingOnes(d, count)
  {
    var s := SumMatrices(Projectors(d, count), d);
    if count == 0 {
      MatEq(s, LeadingOnes(d, 0), d, d);
    } else {
      var k := count - 1;
      assert Projectors(d, count)[..k] == Projectors(d, k);
      SumProjectors(d, k);
      assert s == MatAdd(LeadingOnes(d, k), Unit(d, k, k));
      forall i, j | 0 <= i < d && 0 <= j < d
        ensures s[i][j] == LeadingOnes(d, count)[i][j]
      {
        LeadingOnesStep(d, k, i, j);
      }
      MatEq(s, LeadingOnes(d, count), d, d);
    }
  }

  lemma LeadingOnesEntry(d: nat, k: int, i: int, j: int)
    requires 0 <= i < d && 0 <= j < d
    ensures LeadingOnes(d, k)[i][j] == Indicator(i == j && i < k)
  {
  }

  lemma LeadingOnesPlusUnit(d: nat, k: int, i: int, j: int)
    requires 0 <= i < d && 0 <= j < d
    ensures MatAdd(LeadingOnes(d, k), Unit(d, k, k))[i][j] ==
      Add(Indicator(i == j && i < k), Indicator(i == k && j == k))
  {
    LeadingOnesEntry(d, k, i, j);
    UnitEntry(d, k, k, i, j);
    MatAddEntry(LeadingOnes(d, k), Unit(d, k, k), i, j);
  }

  /** Adding |k⟩⟨k| extends the leading ones by one place. */
  lemma LeadingOnesStep(d: nat, k: int, i: int, j: int)
    requires 0 <= i < d && 0 <= j < d
    ensures MatAdd(LeadingOnes(d, k), Unit(d, k, k))[i][j] == LeadingOnes(d, k + 1)[i][j]
  {
    LeadingOnesPlusUnit(d, k, i, j);
    LeadingOnesEntry(d, k + 1, i, j);
    AddIndicators(i == j && i < k, i == k && j == k);
    OneMorePlace(i, j, k);
  }

  lemma OneMorePlace(i: int, j: int, k: int)
    ensures ((i == j && i < k) || (i == k && j == k)) == (i == j && i < k + 1)
  {
    if i == k {
    } else {
    }
  }

  /** `identity_gate(n)`: the sum of the helper's list. */
  function IdentityGate(n: int): (r: Result<Matrix>)
    ensures r.Ok? <==> n >= 1
    ensures n >= 1 ==> IsMat(r.value, Pow2(n), Pow2(n))
  {
    var terms :- IdentityTerms(n);
    Ok(SumMatrices(terms, Pow2(n)))
  }

  /** The outer-product identity gate is the identity matrix of the register,
      `identityGate(n)`, for every n >= 1; any other n raises RecursionError. */
  lemma IdentityGateIsIdentity(n: int)
    ensures n >= 1 ==> IdentityGate(n) == Ok(Identity(Pow2(n)))
    ensures n < 1 ==> IdentityGate(n) == Err(RecursionError)
  {
    if n >= 1 {
      var d := Pow2(n);
      SumProjectors(d, d);
      MatEq(LeadingOnes(d, d), Identity(d), d, d);
    }
  }

  /** The outer-product gates of one and two qubits equal the numeric constants. */
  lemma IdentityGateConstants()
    ensures IdentityGate(1) == Ok(OneQubitIdentity)
    ensures IdentityGate(2) == Ok(TwoQubitIdentity)
  {
    IdentityGateIsIdentity(1);
    IdentityGateIsIdentity(2);
    OneQubitIdentityIsIdentity();
    assert Pow2(2) == 4;
  }
}
