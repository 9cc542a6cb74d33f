/** The outer-product swap gate `Swap_Gate`, built from two-character symbol
    strings, and the action of the swap constant on two-qubit basis states. */
module SwapGate {
  import opened Complex
  import opened Arith
  import opened Matrices
  import opened Results
  import opened Basis
  import opened Gates
  import opened Controlled

  /** A symbol string passed as the only positional argument builds the same
      vector as the string passed by keyword: the basis vector at the
      string's value read with its first character least significant. */
  lemma StringArgument(side: Side, s: string)
    requires |s| > 0 && IsBitString(s)
    ensures ArgsShaped([StrArg(s)])
    ensures LsbValue(s) < Pow2(|s|)
    ensures Build(side, [StrArg(s)], "") == Ok(BasisVec(side, Pow2(|s|), LsbValue(s)))
    ensures Build(side, [StrArg(s)], "") == Ok(BitStringFold(side, s))
  {
    BuildSingleArg(side, StrArg(s));
    assert FromString(side, s) == Build(side, [], s);
    BuildStringOnly(side, s);
    BitStringBasis(side, s);
  }

  /** `np.kron(get_ket(s), get_bra(t))` for two bit strings of one length:
      the outer product |s⟩⟨t| with both strings read first-bit-least. */
  function Outer(s: string, t: string): (m: Matrix)
    requires |s| > 0 && |s| == |t| && IsBitString(s) && IsBitString(t)
    ensures m == Unit(Pow2(|s|), LsbValue(s), LsbValue(t))
  {
    BitStringBasis(Ket, s);
    BitStringBasis(Bra, t);
    OuterKetBra(Pow2(|s|), LsbValue(s), LsbValue(t));
    Kron(BitStringFold(Ket, s), BitStringFold(Bra, t))
  }

  /** The four two-qubit symbol strings and the indices they denote. */
  lemma TwoBitValues()
    ensures IsBitString("00") && IsBitString("01") && IsBitString("10") && IsBitString("11")
    ensures LsbValue("00") == 0 && LsbValue("01") == 2
    ensures LsbValue("10") == 1 && LsbValue("11") == 3
  {
    assert "00"[..1] == "0" && "01"[..1] == "0" && "10"[..1] == "1" && "11"[..1] == "1";
    assert "0"[..0] == "" && "1"[..0] == "";
  }

  /** `Swap_Gate()`: |00⟩⟨00| + |10⟩⟨01| + |01⟩⟨10| + |11⟩⟨11|, with every
      ket and bra built from a two-character symbol string. It is the
      numeric constant `swap_gate`, the permutation matrix exchanging |01⟩
      and |10⟩. */
  function SwapGate(): (m: Matrix)
    ensures m == SwapMatrix
    ensures m == Transposition(4, 1, 2)
  {
    TwoBitValues();
    SwapUnits();
    var m := MatAdd(MatAdd(MatAdd(Outer("00", "00"), Outer("10", "01")), Outer("01", "10")), Outer("11", "11"));
    assert m == FourUnits(4, 0, 0, 1, 2, 2, 1, 3, 3);
    m
  }

  /** The sum of four units at positions in distinct rows. */
  function FourUnits(d: nat, x0: int, y0: int, x1: int, y1: int, x2: int, y2: int, x3: int, y3: int): (m: Matrix)
    ensures IsMat(m, d, d)
  {
    MatAdd(MatAdd(MatAdd(Unit(d, x0, y0), Unit(d, x1, y1)), Unit(d, x2, y2)), Unit(d, x3, y3))
  }

  /** Entry (i, j) of a sum of four units in distinct rows is 1 exactly
      when (i, j) is one of their positions. */
  lemma FourUnitsEntry(d: nat, x0: int, y0: int, x1: int, y1: int, x2: int, y2: int, x3: int, y3: int, i: int, j: int)
    requires x0 != x1 && x0 != x2 && x0 != x3 && x1 != x2 && x1 != x3 && x2 != x3
    requires 0 <= i < d && 0 <= j < d
    ensures FourUnits(d, x0, y0, x1, y1, x2, y2, x3, y3)[i][j]
      == Indicator((i == x0 && j == y0) || (i == x1 && j == y1) || (i == x2 && j == y2) || (i == x3 && j == y3))
  {
    var a, b, c, e := Unit(d, x0, y0), Unit(d, x1, y1), Unit(d, x2, y2), Unit(d, x3, y3);
    UnitEntry(d, x0, y0, i, j);
    UnitEntry(d, x1, y1, i, j);
    UnitEntry(d, x2, y2, i, j);
    UnitEntry(d, x3, y3, i, j);
    MatAddEntry(a, b, i, j);
    MatAddEntry(MatAdd(a, b), c, i, j);
    MatAddEntry(MatAdd(MatAdd(a, b), c), e, i, j);
    var p, q, r, t := i == x0 && j == y0, i == x1 && j == y1, i == x2 && j == y2, i == x3 && j == y3;
    AddIndicators(p, q);
    AddIndicators(p || q, r);
    AddIndicators(p || q || r, t);
  }

  /** The four positions of the swap gate's ones are the graph of the
      exchange of 1 and 2. */
  lemma SwapPositions(i: int, j: int)
    requires 0 <= i < 4 && 0 <= j < 4
    ensures ((i == 0 && j == 0) || (i == 1 && j == 2) || (i == 2 && j == 1) || (i == 3 && j == 3))
      == (j == Swapped(i, 1, 2))
  {
    if i == 0 {
    } else if i == 1 {
    } else if i == 2 {
    } else {
    }
  }

  /** The four units of the swap gate's outer products form the numeric
      constant, the permutation matrix exchanging 1 and 2. */
  lemma SwapUnits()
    ensures FourUnits(4, 0, 0, 1, 2, 2, 1, 3, 3) == SwapMatrix
    ensures FourUnits(4, 0, 0, 1, 2, 2, 1, 3, 3) == Transposition(4, 1, 2)
  {
    var e := Exchange(4, 1, 2);
    var u := FourUnits(4, 0, 0, 1, 2, 2, 1, 3, 3);
    forall i, j | 0 <= i < 4 && 0 <= j < 4
      ensures u[i][j] == Transposition(4, 1, 2)[i][j]
    {
      FourUnitsEntry(4, 0, 0, 1, 2, 2, 1, 3, 3, i, j);
      SwapPositions(i, j);
      PermutationEntry(4, e, i, j);
    }
    MatEq(u, Transposition(4, 1, 2), 4, 4);
    SwapIsTransposition();
  }

  /** The builder calls `Swap_Gate` makes produce the vectors `Outer` uses. */
  lemma SwapBuildersAgree(s: string, t: string)
    requires |s| == 2 && |t| == 2 && IsBitString(s) && IsBitString(t)
    ensures ArgsShaped([StrArg(s)]) && ArgsShaped([StrArg(t)])
    ensures GetKet([StrArg(s)], "") == Ok(BitStringFold(Ket, s))
    ensures GetBra([StrArg(t)], "") == Ok(BitStringFold(Bra, t))
  {
    StringArgument(Ket, s);
    StringArgument(Bra, t);
  }

  /** The swap gate maps |a, b⟩ to |b, a⟩. */
  lemma SwapAction(a: int, b: int)
    requires 0 <= a < 2 && 0 <= b < 2
    ensures MatMul(SwapMatrix, BasisVec(Ket, 4, 2 * a + b)) == BasisVec(Ket, 4, 2 * b + a)
  {
    SwapIsTransposition();
    TranspositionIsInvolution(4, 1, 2);
    PermutationOnBasis(4, Exchange(4, 1, 2), 2 * a + b);
  }

  /** Swapping twice restores every two-qubit state. */
  lemma SwapSelfInverse()
    ensures MatMul(SwapMatrix, SwapMatrix) == Identity(4)
  {
    SwapIsTransposition();
    TranspositionInvolution(4, 1, 2);
  }

  /** `swap_gate` is its own adjoint and unitary. */
  lemma SwapUnitary()
    ensures Adjoint(SwapMatrix) == SwapMatrix && Unitary(SwapMatrix)
  {
    SwapIsTransposition();
    TranspositionUnitary(4, 1, 2);
  }
}
