/** The controlled modular multipliers of the Shor example, `c_amod15` and
    `c_amodb`: a 4-qubit register matrix is put through a fixed sequence of
    swap gates and a flip of the leading qubit, once per power.

    The register starts as |0000⟩⟨0000| and every swap gate only reads the
    diagonal of its input, so the whole construction reduces to three
    matrices: the start, |1000⟩⟨0000| after one flip, and the zero matrix
    once a swap has read the empty diagonal of that. */
module ModMult {
  import opened Complex
  import opened Arith
  import opened Matrices
  import opened Results
  import opened Gates
  import opened Registers
  import opened AppliedSwap

  /** Which of the four blocks of one round run: each is guarded by its
      own `if`, so a multiplier may run several. */
  datatype Blocks = Blocks(ascending: bool, descending: bool, crossed: bool, flipped: bool)

  /** The qubit pairs of the three swap blocks, in the order they are
      applied. */
  const Ascending: seq<(int, int)> := [(0, 1), (1, 2), (2, 3)]
  const Descending: seq<(int, int)> := [(2, 3), (1, 2), (0, 1)]
  const Crossed: seq<(int, int)> := [(1, 3), (0, 2)]

  /** The multipliers `c_amod15` accepts. */
  predicate Amod15Accepts(a: int)
  {
    a == 2 || a == 7 || a == 8 || a == 11 || a == 13
  }

  function Amod15Blocks(a: int): Blocks
  {
    Blocks(a == 2 || a == 13, a == 7 || a == 8, a == 11, a == 7 || a == 11 || a == 13)
  }

  /** The multipliers `c_amodb` accepts. The source compares `a` with the
      float `(b - 1) / 2`; an integer equals it exactly when 2a = b - 1,
      and equals `(b - 1) / 2 + 1` exactly when 2a = b + 1. */
  predicate AmodbAccepts(a: int, b: int)
  {
    a == 2 || 2 * a == b - 1 || 2 * a == b + 1 || a == b - 4 || a == b - 2
  }

  function AmodbBlocks(a: int, b: int): Blocks
  {
    Blocks(a == 2 || a == b - 2, 2 * a == b - 1 || 2 * a == b + 1, a == b - 4,
           2 * a == b - 1 || a == b - 4 || a == b - 2)
  }

  /** Every pair names positions 2·q0 + 1 and 2·q1 inside a 16-entry
      diagonal. */
  predicate PairsFit(pairs: seq<(int, int)>)
  {
    forall k :: 0 <= k < |pairs| ==> 0 <= pairs[k].0 < 8 && 0 < pairs[k].1 < 8
  }

  /** `applied_swap_gate(m, q0, q1)` for each pair in turn; with the
      positions inside the diagonal no call fails. */
  function SwapSteps(m: Matrix, pairs: seq<(int, int)>): (r: Matrix)
    requires IsMat(m, 16, 16) && PairsFit(pairs)
    ensures IsMat(r, 16, 16)
    decreases |pairs|
  {
    if |pairs| == 0 then m
    else
      var q0, q1 := pairs[0].0, pairs[0].1;
      SingleSwapPair(m, [q0, q1]);
      SwapSteps(AppliedSwapGate(m, [q0, q1]).value, pairs[1..])
  }

  /** `np.dot(np.kron(X, np.identity(16 / 2)), m)`: the rows of m are
      re-read with the leading qubit flipped. */
  function FlipLeading(m: Matrix): (r: Matrix)
    requires IsMat(m, 16, 16)
    ensures IsMat(r, 16, 16)
  {
    MatMul(Kron(PauliX, Identity(|m| / |PauliX|)), m)
  }

  /** One pass of the `for iteration in range(power)` body. */
  function Round(c: Blocks, m: Matrix): (r: Matrix)
    requires IsMat(m, 16, 16)
    ensures IsMat(r, 16, 16)
  {
    AscendingFits();
    var m1 := if c.ascending then SwapSteps(m, Ascending) else m;
    var m2 := if c.descending then SwapSteps(m1, Descending) else m1;
    var m3 := if c.crossed then SwapSteps(m2, Crossed) else m2;
    if c.flipped then FlipLeading(m3) else m3
  }

  function Rounds(c: Blocks, m: Matrix, k: nat): (r: Matrix)
    requires IsMat(m, 16, 16)
    ensures IsMat(r, 16, 16)
    decreases k
  {
    if k == 0 then m else Rounds(c, Round(c, m), k - 1)
  }

  /** `range(power)` is empty for every power below 1. */
  function Repeats(power: int): nat
  {
    if power <= 0 then 0 else power
  }

  /** The common body of both multipliers once `a` has been accepted: the
      register `get_qubit_matrix(4)` put through `power` rounds. */
  function Multiplier(c: Blocks, power: int): (r: Matrix)
    ensures IsMat(r, 16, 16)
  {
    assert Pow2(4) == 16;
    Rounds(c, GetQubitMatrix(4, []).value, Repeats(power))
  }

  /** `c_amod15(a, power)`. */
  function CAmod15(a: int, power: int): (r: Result<Matrix>)
    ensures r.Err? <==> !Amod15Accepts(a)
    ensures r.Err? ==> r.error == ValueError
    ensures r.Ok? ==> IsMat(r.value, 16, 16)
  {
    if !Amod15Accepts(a) then Err(ValueError)
    else Ok(Multiplier(Amod15Blocks(a), power))
  }

  /** `c_amodb(a, power, b)`. */
  function CAmodb(a: int, power: int, b: int): (r: Result<Matrix>)
    ensures r.Err? <==> !AmodbAccepts(a, b)
    ensures r.Err? ==> r.error == ValueError
    ensures r.Ok? ==> IsMat(r.value, 16, 16)
  {
    if !AmodbAccepts(a, b) then Err(ValueError)
    else Ok(Multiplier(AmodbBlocks(a, b), power))
  }

  // ---------------------------------------------------------------------
  // The three matrices the construction visits

  /** |0000⟩⟨0000|, the register before any round. */
  function Origin(): Matrix
  {
    Unit(16, 0, 0)
  }

  /** |1000⟩⟨0000|, the register after one flip of the leading qubit. */
  function Flipped(): Matrix
  {
    Unit(16, 8, 0)
  }

  /** The 16-entry vector with a 1 at index 0. */
  function Spike(): (v: seq<Cx>)
    ensures |v| == 16
  {
    seq(16, j => Indicator(j == 0))
  }

  /** `get_qubit_matrix(4)` with no arguments is |0000⟩⟨0000|. */
  lemma StartIsOrigin()
    ensures Pow2(4) == 16
    ensures GetQubitMatrix(4, []) == Ok(Origin())
  {
    assert Pow2(4) == 16;
    var r := GetQubitMatrix(4, []);
    assert r.Ok?;
    forall i, j | 0 <= i < 16 && 0 <= j < 16
      ensures r.value[i][j] == Origin()[i][j]
    {
      assert !Hit([], 16, i);
    }
    MatEq(r.value, Origin(), 16, 16);
  }

  lemma OriginReading()
    ensures RealDiagonal(Origin()) == Spike()
    ensures Diag(Spike()) == Origin()
  {
    var v := RealDiagonal(Origin());
    forall j | 0 <= j < 16
      ensures v[j] == Spike()[j]
    {
      assert Origin()[j][j] == Indicator(j == 0);
    }
    forall i, j | 0 <= i < 16 && 0 <= j < 16
      ensures Diag(Spike())[i][j] == Origin()[i][j]
    {
      assert Origin()[i][j] == Indicator(i == 0 && j == 0);
      if i == j {
        assert Diag(Spike())[i][j] == Spike()[i];
      } else {
        assert Diag(Spike())[i][j] == Zero;
      }
    }
    MatEq(Diag(Spike()), Origin(), 16, 16);
  }

  /** A swap of two positions other than 0 leaves the spike in place. */
  lemma SpikeFixed(a: int, b: int)
    requires 0 < a < 16 && 0 < b < 16
    ensures seq(16, j requires 0 <= j < 16 => Spike()[Swapped(j, a, b)]) == Spike()
  {
  }

  /** A swap gate on |0000⟩⟨0000| with qubits inside the register changes
      nothing: the one non-zero diagonal entry sits at index 0, which no
      position 2·q0 + 1 or 2·q1 with q1 > 0 reaches. */
  lemma SwapKeepsOrigin(q0: int, q1: int)
    requires 0 <= q0 < 8 && 0 < q1 < 8
    ensures AppliedSwapGate(Origin(), [q0, q1]) == Ok(Origin())
  {
    assert IsMat(Origin(), 16, 16) && Cols(Origin()) == 16;
    assert InAxis(2 * q0 + 1, 16) && InAxis(2 * q1, 16);
    assert Wrap(2 * q0 + 1, 16) == 2 * q0 + 1 && Wrap(2 * q1, 16) == 2 * q1;
    hide *;
    SingleSwapPair(Origin(), [q0, q1]);
    OriginReading();
    SpikeFixed(2 * q0 + 1, 2 * q1);
  }

  /** No diagonal entry of m is non-zero. */
  predicate Hollow(m: Matrix)
    requires IsMat(m, 16, 16)
  {
    forall i :: 0 <= i < 16 ==> m[i][i].re == 0
  }

  lemma HollowReading(m: Matrix, a: int, b: int)
    requires IsMat(m, 16, 16) && Hollow(m) && 0 <= a < 16 && 0 <= b < 16
    ensures Diag(seq(16, j requires 0 <= j < 16 => RealDiagonal(m)[Swapped(j, a, b)])) == Zeros(16, 16)
  {
    var v := RealDiagonal(m);
    var w := seq(16, j requires 0 <= j < 16 => v[Swapped(j, a, b)]);
    assert forall j :: 0 <= j < 16 ==> w[j] == Zero;
    MatEq(Diag(w), Zeros(16, 16), 16, 16);
  }

  /** A swap gate only reads the real diagonal: with none there, the gate
      gives the zero matrix. */
  lemma SwapClearsHollow(m: Matrix, q0: int, q1: int)
    requires IsMat(m, 16, 16) && Hollow(m)
    requires 0 <= q0 < 8 && 0 < q1 < 8
    ensures AppliedSwapGate(m, [q0, q1]) == Ok(Zeros(16, 16))
  {
    assert Cols(m) == 16;
    assert InAxis(2 * q0 + 1, 16) && InAxis(2 * q1, 16);
    assert Wrap(2 * q0 + 1, 16) == 2 * q0 + 1 && Wrap(2 * q1, 16) == 2 * q1;
    hide *;
    SingleSwapPair(m, [q0, q1]);
    HollowReading(m, 2 * q0 + 1, 2 * q1);
  }

  lemma FlippedHollow()
    ensures Hollow(Flipped()) && Hollow(Zeros(16, 16))
  {
    forall i | 0 <= i < 16
      ensures Flipped()[i][i] == Zero
    {
      assert Flipped()[i][i] == Indicator(i == 8 && i == 0);
    }
  }

  /** The row map of `kron(X, I8)`: the leading qubit of the row index
      flips. */
  function FlipIndex(i: int): int
  {
    if i < 8 then i + 8 else i - 8
  }

  lemma FlipBlocked(i: int)
    requires 0 <= i < 16
    ensures Blocked(Exchange(2, 0, 1), 8)[i] == FlipIndex(i)
  {
    DivBelow(i, 2, 8);
    if i < 8 {
      DivModUnique(i, 8, 0, i);
    } else {
      DivModUnique(i, 8, 1, i - 8);
    }
  }

  /** The flip re-reads row i of m at the index with the leading qubit
      flipped. */
  lemma FlipRows(m: Matrix)
    requires IsMat(m, 16, 16)
    ensures FlipLeading(m) == seq(16, i requires 0 <= i < 16 => m[FlipIndex(i)])
  {
    var p := Blocked(Exchange(2, 0, 1), 8);
    assert |m| / |PauliX| == 8;
    PauliXPermutation();
    KronPermutation(2, Exchange(2, 0, 1), 8);
    forall i | 0 <= i < 16
      ensures p[i] == FlipIndex(i) && 0 <= p[i] < 16
    {
      FlipBlocked(i);
    }
    PermutationRows(16, p, m);
  }

  lemma FlipOrigin()
    ensures FlipLeading(Origin()) == Flipped()
  {
    FlipRows(Origin());
    MatEq(FlipLeading(Origin()), Flipped(), 16, 16);
  }

  lemma FlipZeros()
    ensures FlipLeading(Zeros(16, 16)) == Zeros(16, 16)
  {
    FlipRows(Zeros(16, 16));
    MatEq(FlipLeading(Zeros(16, 16)), Zeros(16, 16), 16, 16);
  }

  // ---------------------------------------------------------------------
  // What the rounds compute

  lemma AscendingFits()
    ensures PairsFit(Ascending) && PairsFit(Descending) && PairsFit(Crossed)
  {
  }

  /** Swap gates never move the entry at index 0. */
  lemma {:induction false} SwapStepsOrigin(pairs: seq<(int, int)>)
    requires PairsFit(pairs)
    ensures SwapSteps(Origin(), pairs) == Origin()
    decreases |pairs|
  {
    if |pairs| > 0 {
      SwapKeepsOrigin(pairs[0].0, pairs[0].1);
      SwapStepsOrigin(pairs[1..]);
    }
  }

  /** Once any swap has read a matrix without a diagonal, only zeros are
      left. */
  lemma {:induction false} SwapStepsHollow(m: Matrix, pairs: seq<(int, int)>)
    requires IsMat(m, 16, 16) && Hollow(m) && PairsFit(pairs) && |pairs| > 0
    ensures SwapSteps(m, pairs) == Zeros(16, 16)
    decreases |pairs|
  {
    SwapClearsHollow(m, pairs[0].0, pairs[0].1);
    FlippedHollow();
    if |pairs| > 1 {
      SwapStepsHollow(Zeros(16, 16), pairs[1..]);
    }
  }

  lemma SwapStepsZeros(pairs: seq<(int, int)>)
    requires PairsFit(pairs)
    ensures SwapSteps(Zeros(16, 16), pairs) == Zeros(16, 16)
  {
    if |pairs| > 0 {
      FlippedHollow();
      SwapStepsHollow(Zeros(16, 16), pairs);
    }
  }

  /** Every flipping round also runs a swap block: true of both whitelists. */
  predicate Swaps(c: Blocks)
  {
    c.flipped ==> c.ascending || c.descending || c.crossed
  }

  /** One round on the start register: unchanged, or flipped to
      |1000⟩⟨0000| when the round flips. */
  lemma RoundOrigin(c: Blocks)
    ensures Round(c, Origin()) == if c.flipped then Flipped() else Origin()
  {
    AscendingFits();
    SwapStepsOrigin(Ascending);
    SwapStepsOrigin(Descending);
    SwapStepsOrigin(Crossed);
    FlipOrigin();
  }

  /** One round on the zero matrix leaves it zero. */
  lemma RoundZeros(c: Blocks)
    ensures Round(c, Zeros(16, 16)) == Zeros(16, 16)
  {
    AscendingFits();
    SwapStepsZeros(Ascending);
    SwapStepsZeros(Descending);
    SwapStepsZeros(Crossed);
    FlipZeros();
  }

  /** A round that swaps clears |1000⟩⟨0000|: its one entry is off the
      diagonal. */
  lemma RoundFlipped(c: Blocks)
    requires c.flipped && Swaps(c)
    ensures Round(c, Flipped()) == Zeros(16, 16)
  {
    AscendingFits();
    FlippedHollow();
    var m1 := if c.ascending then SwapSteps(Flipped(), Ascending) else Flipped();
    if c.ascending {
      SwapStepsHollow(Flipped(), Ascending);
    }
    var m2 := if c.descending then SwapSteps(m1, Descending) else m1;
    if c.descending {
      if c.ascending {
        SwapStepsZeros(Descending);
      } else {
        SwapStepsHollow(Flipped(), Descending);
      }
    }
    assert m2 == Zeros(16, 16) || (m2 == Flipped() && !c.ascending && !c.descending);
    if c.crossed {
      if m2 == Flipped() {
        SwapStepsHollow(Flipped(), Crossed);
      } else {
        SwapStepsZeros(Crossed);
      }
    }
    FlipZeros();
  }

  /** The first of k rounds. */
  lemma RoundsStep(c: Blocks, m: Matrix, k: nat)
    requires IsMat(m, 16, 16) && k > 0
    ensures Rounds(c, m, k) == Rounds(c, Round(c, m), k - 1)
  {
  }

  lemma {:induction false} RoundsZeros(c: Blocks, k: nat)
    ensures Rounds(c, Zeros(16, 16), k) == Zeros(16, 16)
    decreases k
  {
    if k > 0 {
      RoundZeros(c);
      RoundsZeros(c, k - 1);
    }
  }

  /** The value after k rounds from the start register: the start when the
      rounds never flip; otherwise the flipped register after one round
      and zero after two or more. */
  lemma {:induction false} RoundsFromOrigin(c: Blocks, k: nat)
    requires Swaps(c)
    ensures Rounds(c, Origin(), k) ==
      if !c.flipped || k == 0 then Origin() else if k == 1 then Flipped() else Zeros(16, 16)
    decreases k
  {
    if k > 0 {
      RoundsStep(c, Origin(), k);
      RoundOrigin(c);
      hide Rounds, Round;
      if !c.flipped {
        RoundsFromOrigin(c, k - 1);
      } else if k > 1 {
        RoundsStep(c, Flipped(), k - 1);
        RoundFlipped(c);
        RoundsZeros(c, k - 2);
      }
    }
  }

  /** Both multipliers, once `a` is accepted: `power` rounds from
      `get_qubit_matrix(4)`. */
  lemma MultiplierValue(c: Blocks, power: int)
    requires Swaps(c)
    ensures Multiplier(c, power) ==
      if !c.flipped || power <= 0 then Unit(16, 0, 0)
      else if power == 1 then Unit(16, 8, 0)
      else Zeros(16, 16)
  {
    StartIsOrigin();
    RoundsFromOrigin(c, Repeats(power));
  }

  /** For a = 2 and a = 8 the register is never changed: every swap misses
      index 0 and neither multiplier flips. */
  lemma Amod15Fixed(a: int, power: int)
    requires a == 2 || a == 8
    ensures CAmod15(a, power) == Ok(Unit(16, 0, 0))
  {
    MultiplierValue(Amod15Blocks(a), power);
  }

  /** For a = 7, 11 and 13 one round flips the register to |1000⟩⟨0000|
      and any further round clears it. */
  lemma Amod15Flips(a: int, power: int)
    requires a == 7 || a == 11 || a == 13
    ensures CAmod15(a, power) ==
      Ok(if power <= 0 then Unit(16, 0, 0) else if power == 1 then Unit(16, 8, 0) else Zeros(16, 16))
  {
    MultiplierValue(Amod15Blocks(a), power);
  }

  /** The general multiplier on an accepted a: the start register, the
      flipped register or zero, by whether a is in a flipping class. */
  lemma AmodbValue(a: int, power: int, b: int)
    requires AmodbAccepts(a, b)
    ensures var flips := 2 * a == b - 1 || a == b - 4 || a == b - 2;
      CAmodb(a, power, b) ==
        Ok(if !flips || power <= 0 then Unit(16, 0, 0)
           else if power == 1 then Unit(16, 8, 0)
           else Zeros(16, 16))
  {
    MultiplierValue(AmodbBlocks(a, b), power);
  }

  /** With modulus 15 the general multiplier accepts the same a and runs
      the same blocks as `c_amod15`. */
  lemma AmodbAt15(a: int, power: int)
    ensures AmodbAccepts(a, 15) <==> Amod15Accepts(a)
    ensures CAmodb(a, power, 15) == CAmod15(a, power)
  {
    if Amod15Accepts(a) {
      assert AmodbBlocks(a, 15) == Amod15Blocks(a);
    }
  }
}
