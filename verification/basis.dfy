/** The bra/ket builders `get_bra` and `get_ket`. Both walk their positional
    arguments from last to first and their symbol string from first to last,
    tensoring each new factor on the LEFT of what was built so far; the
    symbol-string block finally goes left of the argument block. Hence the
    first positional argument is the most significant factor, while the
    first character of the symbol string is the least significant one. */
module Basis {
  import opened Complex
  import opened Arith
  import opened Matrices
  import opened Results
  import opened Registers

  /** `get_bra` builds rows, `get_ket` columns; otherwise they agree line for line. */
  datatype Side = Bra | Ket

  /** A positional argument: a Python int, a symbol string, or a numpy array. */
  datatype Arg = IntArg(v: int) | StrArg(s: string) | ArrArg(m: Matrix)

  /** ⟨a| as a 1×d row or |a⟩ as a d×1 column (all zero when a is outside [0, d)). */
  function BasisVec(side: Side, d: nat, a: int): (m: Matrix)
    ensures side == Ket ==> IsMat(m, d, 1)
    ensures side == Bra ==> IsMat(m, 1, d)
  {
    match side
    case Ket => seq(d, i => [Indicator(i == a)])
    case Bra => [seq(d, j => Indicator(j == a))]
  }

  lemma BasisVecEntry(d: nat, a: int, i: int)
    requires 0 <= i < d
    ensures BasisVec(Ket, d, a)[i][0] == Indicator(i == a)
    ensures BasisVec(Bra, d, a)[0][i] == Indicator(i == a)
  {
    assert BasisVec(Ket, d, a)[i] == [Indicator(i == a)];
    assert BasisVec(Bra, d, a)[0] == seq(d, j => Indicator(j == a));
  }

  /** The two-entry primitives ⟨0|, ⟨1|, |0⟩, |1⟩. */
  function Primitive(side: Side, bit: int): Matrix
  {
    BasisVec(side, 2, bit)
  }

  predicate ArgsShaped(args: seq<Arg>)
  {
    forall k :: 0 <= k < |args| && args[k].ArrArg? ==> Shaped(args[k].m)
  }

  /** `np.kron(x, acc)` where None stands for the initial Python scalar 1. */
  function KronOnto(x: Matrix, acc: Option<Matrix>): (r: Matrix)
    requires Shaped(x) && (acc.Some? ==> Shaped(acc.value))
    ensures Shaped(r)
  {
    match acc
    case None => x
    case Some(m) => Kron(x, m)
  }

  /** The loop `while qubits_to_bits(k) < v: k += 1`, started at k. */
  function QubitsFor(v: int, k: nat): (r: nat)
    requires k >= 1
    ensures r >= k && Pow2(r) >= v
    ensures r == k || Pow2(r - 1) < v
    decreases if Pow2(k) < v then v - Pow2(k) else 0
  {
    if Pow2(k) < v then QubitsFor(v, k + 1) else k
  }

  /** An integer argument: 0 and 1 give the primitives; any other value v is
      written into `get_qubit_vector(k, v)` for the smallest k >= 1 with
      2^k >= v (a column, for bras too). */
  function IntValue(side: Side, v: int): (r: Result<Matrix>)
    ensures r.Ok? ==> Shaped(r.value)
  {
    if v == 0 then Ok(Primitive(side, 0))
    else if v == 1 then Ok(Primitive(side, 1))
    else GetQubitVector(QubitsFor(v, 1), [v])
  }

  predicate IsSymbol(c: char)
  {
    c == '0' || c == '1' || c == '+' || c == '-'
  }

  predicate IsBitString(s: string)
  {
    forall k :: 0 <= k < |s| ==> s[k] == '0' || s[k] == '1'
  }

  /** The symbol loop over a non-empty string: each character's primitive
      is tensored on the left. A character outside {0, 1, +, -} raises
      ValueError; '+' and '-' carry 1/sqrt(2) entries and leave this exact
      model. */
  function SymbolString(side: Side, s: string): (r: Result<Matrix>)
    requires |s| > 0
    ensures r.Ok? ==> Shaped(r.value)
    ensures r.Err? <==> !IsBitString(s)
    ensures r.Err? ==> (r.error == ValueError <==> exists k :: 0 <= k < |s| && !IsSymbol(s[k]))
  {
    if exists k :: 0 <= k < |s| && !IsSymbol(s[k]) then Err(ValueError)
    else if !IsBitString(s) then Err(NotExact)
    else Ok(BitStringFold(side, s))
  }

  function BitStringFold(side: Side, s: string): (m: Matrix)
    requires |s| > 0 && IsBitString(s)
    ensures Shaped(m)
  {
    var q := Primitive(side, if s[|s| - 1] == '1' then 1 else 0);
    if |s| == 1 then q else Kron(q, BitStringFold(side, s[..|s| - 1]))
  }

  /** The positional-argument loop: later arguments are processed first and
      the earliest argument ends up leftmost. */
  function ArgsFold(side: Side, args: seq<Arg>): (r: Result<Option<Matrix>>)
    requires ArgsShaped(args)
    ensures r.Ok? ==> (r.value.Some? <==> |args| > 0)
    ensures r.Ok? && r.value.Some? ==> Shaped(r.value.value)
  {
    if |args| == 0 then Ok(None)
    else
      assert ArgsShaped(args[1..]) by {
        forall k | 0 <= k < |args[1..]| && args[1..][k].ArrArg?
          ensures Shaped(args[1..][k].m)
        {
          assert args[1..][k] == args[k + 1];
        }
      }
      var rest :- ArgsFold(side, args[1..]);
      var x :- ArgValue(side, args[0]);
      Ok(Some(KronOnto(x, rest)))
  }

  function ArgValue(side: Side, a: Arg): (r: Result<Matrix>)
    requires a.ArrArg? ==> Shaped(a.m)
    ensures r.Ok? ==> Shaped(r.value)
  {
    match a
    case ArrArg(m) => Ok(m)
    case StrArg(s) => FromString(side, s)
    case IntArg(v) => IntValue(side, v)
  }

  /** The symbol-string block tensored left of the argument block; with
      neither, the default ⟨0| / |0⟩. */
  function WithString(side: Side, acc: Option<Matrix>, s: string): (r: Result<Matrix>)
    requires acc.Some? ==> Shaped(acc.value)
    ensures r.Ok? ==> Shaped(r.value)
  {
    if |s| != 0 then
      var t :- SymbolString(side, s);
      Ok(KronOnto(t, acc))
    else
      match acc
      case None => Ok(Primitive(side, 0))
      case Some(m) => Ok(m)
  }

  /** `get_ket(qubit_string=s)` / `get_bra(qubit_string=s)`, the call a
      string positional argument makes. */
  function FromString(side: Side, s: string): (r: Result<Matrix>)
    ensures r.Ok? ==> Shaped(r.value)
  {
    WithString(side, None, s)
  }

  /** `get_bra(*args, qubit_string=s)` and `get_ket(*args, qubit_string=s)`. */
  function Build(side: Side, args: seq<Arg>, s: string): (r: Result<Matrix>)
    requires ArgsShaped(args)
    ensures r.Ok? ==> Shaped(r.value) && IsBitString(s)
    ensures ArgsFold(side, args).Err? ==> r == Err(ArgsFold(side, args).error)
  {
    var acc :- ArgsFold(side, args);
    WithString(side, acc, s)
  }

  /** What `get_ket` / `get_bra` return: over bits, the basis vector at the
      combined index (⟨0| / |0⟩ when given nothing); a character outside the
      four symbols, once the positional arguments have built, is a
      ValueError. */
  lemma BuildOutcomes(side: Side, args: seq<Arg>, s: string)
    requires ArgsShaped(args)
    ensures AllBits(args) && IsBitString(s) ==>
      Build(side, args, s) == Ok(if |args| + |s| == 0 then BasisVec(side, 2, 0)
                                 else BasisVec(side, Pow2(|s| + |args|), BitsIndex(args, s)))
    ensures ArgsFold(side, args).Ok? && (exists k :: 0 <= k < |s| && !IsSymbol(s[k])) ==>
      Build(side, args, s) == Err(ValueError)
  {
    if AllBits(args) && IsBitString(s) {
      BuildOnBits(side, args, s);
    }
    if ArgsFold(side, args).Ok? {
      UnsupportedSymbol(side, args, s);
    }
  }

  /** `get_ket(*args, qubit_string=s)`. */
  function GetKet(args: seq<Arg>, s: string): (r: Result<Matrix>)
    requires ArgsShaped(args)
    ensures r.Ok? ==> Shaped(r.value) && IsBitString(s)
    ensures AllBits(args) && IsBitString(s) ==>
      r == Ok(if |args| + |s| == 0 then BasisVec(Ket, 2, 0)
              else BasisVec(Ket, Pow2(|s| + |args|), BitsIndex(args, s)))
    ensures ArgsFold(Ket, args).Ok? && (exists k :: 0 <= k < |s| && !IsSymbol(s[k])) ==> r == Err(ValueError)
  {
    BuildOutcomes(Ket, args, s);
    Build(Ket, args, s)
  }

  /** `get_bra(*args, qubit_string=s)`. */
  function GetBra(args: seq<Arg>, s: string): (r: Result<Matrix>)
    requires ArgsShaped(args)
    ensures r.Ok? ==> Shaped(r.value) && IsBitString(s)
    ensures AllBits(args) && IsBitString(s) ==>
      r == Ok(if |args| + |s| == 0 then BasisVec(Bra, 2, 0)
              else BasisVec(Bra, Pow2(|s| + |args|), BitsIndex(args, s)))
    ensures ArgsFold(Bra, args).Ok? && (exists k :: 0 <= k < |s| && !IsSymbol(s[k])) ==> r == Err(ValueError)
  {
    BuildOutcomes(Bra, args, s);
    Build(Bra, args, s)
  }

  // ---------------------------------------------------------------------
  // What the builders compute on bits.

  /** A bit string read as binary with its FIRST character least significant. */
  function LsbValue(s: string): nat
  {
    if |s| == 0 then 0
    else LsbValue(s[..|s| - 1]) + (if s[|s| - 1] == '1' then Pow2(|s| - 1) else 0)
  }

  predicate AllBits(args: seq<Arg>)
  {
    forall k :: 0 <= k < |args| ==> args[k] == IntArg(0) || args[k] == IntArg(1)
  }

  /** Bit arguments read as binary with the FIRST argument most significant. */
  function MsbValue(args: seq<Arg>): nat
    requires AllBits(args)
  {
    if |args| == 0 then 0
    else (if args[0] == IntArg(1) then Pow2(|args| - 1) else 0) + MsbValue(args[1..])
  }

  lemma {:induction false} LsbBound(s: string)
    ensures LsbValue(s) < Pow2(|s|)
  {
    if |s| > 0 {
      LsbBound(s[..|s| - 1]);
    }
  }

  lemma {:induction false} MsbBound(args: seq<Arg>)
    requires AllBits(args)
    ensures MsbValue(args) < Pow2(|args|)
  {
    if |args| > 0 {
      MsbBound(args[1..]);
    }
  }

  /** ⟨a| ⊗ ⟨b| = ⟨a·n + b| and |a⟩ ⊗ |b⟩ = |a·n + b⟩. */
  lemma KronBasis(side: Side, m: nat, a: int, n: nat, b: int)
    requires 0 <= a < m && 0 <= b < n
    ensures Kron(BasisVec(side, m, a), BasisVec(side, n, b)) == BasisVec(side, m * n, a * n + b)
  {
    if side == Ket {
      KronBasisKet(m, a, n, b);
    } else {
      KronBasisBra(m, a, n, b);
    }
  }

  /** numpy's `kron` is associative on basis vectors: both groupings give
      the basis vector of size m·n·p at index (a·n + b)·p + c. */
  lemma KronBasisAssociative(side: Side, m: nat, a: int, n: nat, b: int, p: nat, c: int)
    requires 0 <= a < m && 0 <= b < n && 0 <= c < p
    ensures Kron(Kron(BasisVec(side, m, a), BasisVec(side, n, b)), BasisVec(side, p, c)) ==
      Kron(BasisVec(side, m, a), Kron(BasisVec(side, n, b), BasisVec(side, p, c)))
    ensures Kron(Kron(BasisVec(side, m, a), BasisVec(side, n, b)), BasisVec(side, p, c)) ==
      BasisVec(side, m * n * p, (a * n + b) * p + c)
  {
    hide *;
    KronBasis(side, m, a, n, b);
    IndexBound(a, m, b, n);
    KronBasis(side, m * n, a * n + b, p, c);
    KronBasis(side, n, b, p, c);
    IndexBound(b, n, c, p);
    KronBasis(side, m, a, n * p, b * p + c);
    JoinNests(m, a, n, b, p, c);
  }

  lemma KronBasisKet(m: nat, a: int, n: nat, b: int)
    requires 0 <= a < m && 0 <= b < n
    ensures Kron(BasisVec(Ket, m, a), BasisVec(Ket, n, b)) == BasisVec(Ket, m * n, a * n + b)
  {
    var A, B := BasisVec(Ket, m, a), BasisVec(Ket, n, b);
    var k := Kron(A, B);
    var e := BasisVec(Ket, m * n, a * n + b);
    assert |A| == m && |B| == n && Cols(A) == 1 && Cols(B) == 1;
    assert IsMat(k, m * n, 1);
    forall i | 0 <= i < m * n
      ensures k[i][0] == e[i][0]
    {
      KronKetEntry(m, a, n, b, i);
    }
    MatEq(k, e, m * n, 1);
  }

  lemma KronBasisBra(m: nat, a: int, n: nat, b: int)
    requires 0 <= a < m && 0 <= b < n
    ensures Kron(BasisVec(Bra, m, a), BasisVec(Bra, n, b)) == BasisVec(Bra, m * n, a * n + b)
  {
    var A, B := BasisVec(Bra, m, a), BasisVec(Bra, n, b);
    var k := Kron(A, B);
    var e := BasisVec(Bra, m * n, a * n + b);
    assert |A| == 1 && |B| == 1 && Cols(A) == m && Cols(B) == n;
    assert IsMat(k, 1, m * n);
    forall j | 0 <= j < m * n
      ensures k[0][j] == e[0][j]
    {
      KronBraEntry(m, a, n, b, j);
    }
    MatEq(k, e, 1, m * n);
  }

  lemma KronKetEntry(m: nat, a: int, n: nat, b: int, i: int)
    requires 0 <= a < m && 0 <= b < n && 0 <= i < m * n
    ensures Kron(BasisVec(Ket, m, a), BasisVec(Ket, n, b))[i][0] == Indicator(i == a * n + b)
  {
    var A, B := BasisVec(Ket, m, a), BasisVec(Ket, n, b);
    DivBelow(i, m, n);
    assert Kron(A, B)[i][0] == Mul(A[i / n][0], B[i % n][0]);
    IndexSplit(i, n, a, b);
  }

  lemma KronBraEntry(m: nat, a: int, n: nat, b: int, j: int)
    requires 0 <= a < m && 0 <= b < n && 0 <= j < m * n
    ensures Kron(BasisVec(Bra, m, a), BasisVec(Bra, n, b))[0][j] == Indicator(j == a * n + b)
  {
    var A, B := BasisVec(Bra, m, a), BasisVec(Bra, n, b);
    DivBelow(j, m, n);
    assert Kron(A, B)[0][j] == Mul(A[0][j / n], B[0][j % n]);
    IndexSplit(j, n, a, b);
  }

  lemma IndexSplit(i: int, n: int, a: int, b: int)
    requires n > 0 && 0 <= b < n
    ensures (i / n == a && i % n == b) <==> i == a * n + b
  {
    if i == a * n + b {
      DivModUnique(i, n, a, b);
    }
  }

  /** A bit string yields the basis vector at its LSB-first value. */
  lemma {:induction false} BitStringBasis(side: Side, s: string)
    requires |s| > 0 && IsBitString(s)
    ensures LsbValue(s) < Pow2(|s|)
    ensures BitStringFold(side, s) == BasisVec(side, Pow2(|s|), LsbValue(s))
  {
    LsbBound(s);
    var c := if s[|s| - 1] == '1' then 1 else 0;
    if |s| > 1 {
      var init := s[..|s| - 1];
      assert IsBitString(init) by {
        assert forall k :: 0 <= k < |init| ==> init[k] == s[k];
      }
      BitStringBasis(side, init);
      KronBasis(side, 2, c, Pow2(|init|), LsbValue(init));
    }
  }

  /** Bit arguments yield the basis vector at their MSB-first value. */
  lemma {:induction false} BitArgsBasis(side: Side, args: seq<Arg>)
    requires |args| > 0 && AllBits(args)
    ensures ArgsShaped(args)
    ensures MsbValue(args) < Pow2(|args|)
    ensures ArgsFold(side, args) == Ok(Some(BasisVec(side, Pow2(|args|), MsbValue(args))))
  {
    hide *;
    MsbBound(args);
    MsbStep(args);
    BitsShaped(args);
    if |args| == 1 {
      SingleBitArg(side, args);
    } else {
      var rest := args[1..];
      var c := if args[0] == IntArg(1) then 1 else 0;
      var n := Pow2(|rest|);
      BitsShaped(rest);
      BitArgsBasis(side, rest);
      ArgsFoldStep(side, args, BasisVec(side, n, MsbValue(rest)));
      KronBasis(side, 2, c, n, MsbValue(rest));
    }
  }

  lemma BitsShaped(args: seq<Arg>)
    requires AllBits(args)
    ensures ArgsShaped(args)
  {
  }

  lemma SingleBitArg(side: Side, args: seq<Arg>)
    requires |args| == 1 && AllBits(args)
    ensures ArgsShaped(args)
    ensures ArgsFold(side, args) == Ok(Some(BasisVec(side, Pow2(|args|), MsbValue(args))))
  {
    assert args[1..] == [];
  }

  /** Dropping the first bit argument: the rest are bits, and the first
      contributes c · 2^(|args| - 1) to the MSB-first value. */
  lemma MsbStep(args: seq<Arg>)
    requires |args| > 0 && AllBits(args)
    ensures AllBits(args[1..])
    ensures Pow2(|args|) == 2 * Pow2(|args| - 1)
    ensures MsbValue(args) == (if args[0] == IntArg(1) then 1 else 0) * Pow2(|args| - 1) + MsbValue(args[1..])
  {
    var rest := args[1..];
    assert forall k :: 0 <= k < |rest| ==> rest[k] == args[k + 1];
  }

  /** One step of the argument fold on a bit: the bit's basis vector is
      tensored left of what the remaining arguments fold to. */
  lemma ArgsFoldStep(side: Side, args: seq<Arg>, m: Matrix)
    requires |args| > 1 && AllBits(args) && ArgsShaped(args) && ArgsShaped(args[1..])
    requires ArgsFold(side, args[1..]) == Ok(Some(m))
    ensures Shaped(m)
    ensures ArgsFold(side, args) == Ok(Some(Kron(BasisVec(side, 2, if args[0] == IntArg(1) then 1 else 0), m)))
  {
    assert args[0] == IntArg(0) || args[0] == IntArg(1);
  }

  /** The column `get_qubit_vector(k, [v])` is |v⟩ read with Python indexing. */
  lemma SingleQubitVector(k: nat, v: int)
    requires InAxis(v, Pow2(k))
    ensures GetQubitVector(k, [v]) == Ok(BasisVec(Ket, Pow2(k), Wrap(v, Pow2(k))))
  {
    var d := Pow2(k);
    var r := GetQubitVector(k, [v]).value;
    var e := BasisVec(Ket, d, Wrap(v, d));
    forall i | 0 <= i < d
      ensures r[i][0] == e[i][0]
    {
      assert Selected([v], d, i) <==> Wrap(v, d) == i by {
        if Wrap(v, d) == i {
          assert [v][0] == v;
        }
      }
    }
    MatEq(r, e, d, 1);
  }

  /** How `Build` composes its two blocks, unfolded once. */
  lemma BuildBlocks(side: Side, args: seq<Arg>, s: string, m: Matrix, t: Matrix)
    requires ArgsShaped(args) && |s| > 0
    requires ArgsFold(side, args) == Ok(Some(m)) && SymbolString(side, s) == Ok(t)
    ensures Build(side, args, s) == Ok(Kron(t, m))
  {
  }

  /** A single positional argument and no symbol string builds that argument. */
  lemma BuildSingleArg(side: Side, a: Arg)
    requires a.ArrArg? ==> Shaped(a.m)
    ensures ArgsShaped([a])
    ensures Build(side, [a], "") == ArgValue(side, a)
  {
    assert [a][1..] == [];
    assert ArgsFold(side, [a][1..]) == Ok(None);
  }

  lemma BuildStringOnly(side: Side, s: string)
    requires |s| > 0 && IsBitString(s)
    ensures LsbValue(s) < Pow2(|s|)
    ensures Build(side, [], s) == Ok(BasisVec(side, Pow2(|s|), LsbValue(s)))
  {
    BitStringBasis(side, s);
  }

  lemma BuildArgsOnly(side: Side, args: seq<Arg>)
    requires |args| > 0 && AllBits(args)
    ensures ArgsShaped(args)
    ensures MsbValue(args) < Pow2(|args|)
    ensures Build(side, args, "") == Ok(BasisVec(side, Pow2(|args|), MsbValue(args)))
  {
    BitArgsBasis(side, args);
  }

  lemma BuildBothBlocks(side: Side, args: seq<Arg>, s: string)
    requires |args| > 0 && AllBits(args) && |s| > 0 && IsBitString(s)
    ensures ArgsShaped(args)
    ensures LsbValue(s) < Pow2(|s|) && MsbValue(args) < Pow2(|args|)
    ensures Build(side, args, s) ==
      Ok(Kron(BasisVec(side, Pow2(|s|), LsbValue(s)), BasisVec(side, Pow2(|args|), MsbValue(args))))
  {
    BitArgsBasis(side, args);
    BitStringBasis(side, s);
    var a, b := LsbValue(s), MsbValue(args);
    BuildBlocks(side, args, s, BasisVec(side, Pow2(|args|), b), BasisVec(side, Pow2(|s|), a));
  }

  /** KronBasis stated over opaque sizes, so that callers do not unfold them. */
  lemma KronBasisResult(r: Result<Matrix>, side: Side, m: nat, a: int, n: nat, b: int)
    requires 0 <= a < m && 0 <= b < n
    requires r == Ok(Kron(BasisVec(side, m, a), BasisVec(side, n, b)))
    ensures 0 <= Join(a, n, b) < m * n
    ensures r == Ok(BasisVec(side, m * n, Join(a, n, b)))
  {
    KronBasis(side, m, a, n, b);
    IndexBound(a, m, b, n);
  }

  /** The basis index a builder on bits selects: the symbol string's
      LSB-first value above the arguments' MSB-first value. */
  function BitsIndex(args: seq<Arg>, s: string): int
    requires AllBits(args)
  {
    Join(LsbValue(s), Pow2(|args|), MsbValue(args))
  }

  lemma BitsIndexBound(args: seq<Arg>, s: string)
    requires AllBits(args)
    ensures 0 <= BitsIndex(args, s) < Pow2(|s| + |args|)
  {
    LsbBound(s);
    MsbBound(args);
    IndexBound(LsbValue(s), Pow2(|s|), MsbValue(args), Pow2(|args|));
    Pow2Add(|s|, |args|);
  }

  lemma BuildStringAndArgs(side: Side, args: seq<Arg>, s: string)
    requires |args| > 0 && AllBits(args) && |s| > 0 && IsBitString(s)
    ensures ArgsShaped(args)
    ensures Build(side, args, s) == Ok(BasisVec(side, Pow2(|s| + |args|), BitsIndex(args, s)))
  {
    hide *;
    BuildBothBlocks(side, args, s);
    BitsIndexJoin(args, s);
    KronBasisResult(Build(side, args, s), side, Pow2(|s|), LsbValue(s), Pow2(|args|), MsbValue(args));
    Pow2Add(|s|, |args|);
  }

  lemma BitsIndexJoin(args: seq<Arg>, s: string)
    requires AllBits(args)
    ensures BitsIndex(args, s) == Join(LsbValue(s), Pow2(|args|), MsbValue(args))
  {
  }

  lemma BuildArgsIndex(side: Side, args: seq<Arg>, s: string)
    requires |args| > 0 && AllBits(args) && |s| == 0
    ensures ArgsShaped(args)
    ensures Build(side, args, s) == Ok(BasisVec(side, Pow2(|s| + |args|), BitsIndex(args, s)))
  {
    BuildArgsOnly(side, args);
    assert s == "";
    assert LsbValue(s) == 0;
    assert BitsIndex(args, s) == MsbValue(args);
    assert |s| + |args| == |args|;
  }

  lemma BuildStringIndex(side: Side, args: seq<Arg>, s: string)
    requires |args| == 0 && |s| > 0 && IsBitString(s)
    ensures ArgsShaped(args)
    ensures Build(side, args, s) == Ok(BasisVec(side, Pow2(|s| + |args|), BitsIndex(args, s)))
  {
    assert args == [];
    BuildStringOnly(side, s);
    assert MsbValue(args) == 0 && Pow2(|args|) == 1;
    assert BitsIndex(args, s) == LsbValue(s);
    assert |s| + |args| == |s|;
  }

  /** Builders on bits only: the default is ⟨0| / |0⟩; otherwise the result
      is the basis vector whose index has the symbol string's LSB-first value
      in its high part and the arguments' MSB-first value in its low part. */
  lemma BuildOnBits(side: Side, args: seq<Arg>, s: string)
    requires AllBits(args) && IsBitString(s)
    ensures ArgsShaped(args)
    ensures |args| == 0 && |s| == 0 ==> Build(side, args, s) == Ok(Primitive(side, 0))
    ensures |args| + |s| > 0 ==> 0 <= BitsIndex(args, s) < Pow2(|s| + |args|)
    ensures |args| + |s| > 0 ==>
      Build(side, args, s) == Ok(BasisVec(side, Pow2(|s| + |args|), BitsIndex(args, s)))
  {
    BitsIndexBound(args, s);
    if |args| > 0 && |s| > 0 {
      BuildStringAndArgs(side, args, s);
    } else if |args| > 0 {
      BuildArgsIndex(side, args, s);
    } else if |s| > 0 {
      BuildStringIndex(side, args, s);
    }
  }

  /** "01" as a symbol string is |1⟩ ⊗ |0⟩, the basis state |2⟩ of two qubits. */
  lemma StringZeroOne()
    ensures GetKet([], "01") == Ok(BasisVec(Ket, 4, 2))
  {
    BuildStringOnly(Ket, "01");
    assert LsbValue("01") == 2 by {
      assert "01"[..1] == "0";
      assert "0"[..0] == "";
    }
  }

  lemma ArgsOneZero()
    ensures GetKet([IntArg(1), IntArg(0)], "") == Ok(BasisVec(Ket, 4, 2))
  {
    BuildArgsOnly(Ket, [IntArg(1), IntArg(0)]);
    assert MsbValue([IntArg(1), IntArg(0)]) == 2 by {
      assert [IntArg(1), IntArg(0)][1..] == [IntArg(0)];
    }
  }

  lemma ArgsZeroOne()
    ensures GetKet([IntArg(0), IntArg(1)], "") == Ok(BasisVec(Ket, 4, 1))
  {
    BuildArgsOnly(Ket, [IntArg(0), IntArg(1)]);
    assert MsbValue([IntArg(0), IntArg(1)]) == 1 by {
      assert [IntArg(0), IntArg(1)][1..] == [IntArg(1)];
    }
  }

  lemma StringArgZeroOne()
    ensures GetKet([StrArg("01")], "") == Ok(BasisVec(Ket, 4, 2))
  {
    BuildSingleArg(Ket, StrArg("01"));
    StringZeroOne();
    assert ArgsFold(Ket, []) == Ok(None);
    assert FromString(Ket, "01") == Build(Ket, [], "01");
  }

  /** The order of positional arguments matters: |01⟩ and |10⟩ differ. */
  lemma ArgsOrderMatters()
    ensures GetKet([IntArg(0), IntArg(1)], "") != GetKet([IntArg(1), IntArg(0)], "")
  {
    ArgsOneZero();
    ArgsZeroOne();
    BasisVecDistinct(Ket, 4, 2, 1);
  }

  /** Distinct indices give distinct basis vectors. */
  lemma BasisVecDistinct(side: Side, d: nat, a: int, b: int)
    requires 0 <= a < d && 0 <= b < d && a != b
    ensures BasisVec(side, d, a) != BasisVec(side, d, b)
  {
    match side
    case Ket =>
      assert BasisVec(Ket, d, a)[a] == [Indicator(true)];
      assert BasisVec(Ket, d, b)[a] == [Indicator(false)];
    case Bra =>
      assert BasisVec(Bra, d, a)[0] == seq(d, j => Indicator(j == a));
      assert BasisVec(Bra, d, b)[0] == seq(d, j => Indicator(j == b));
      assert BasisVec(Bra, d, a)[0][a] == Indicator(true);
      assert BasisVec(Bra, d, b)[0][a] == Indicator(false);
  }

  /** A character outside {0, 1, +, -} makes the builder raise ValueError once
      the positional arguments have been built; on bit arguments, the builder
      succeeds exactly on bit strings. */
  lemma UnsupportedSymbol(side: Side, args: seq<Arg>, s: string)
    requires ArgsShaped(args) && ArgsFold(side, args).Ok?
    ensures (exists k :: 0 <= k < |s| && !IsSymbol(s[k])) ==> Build(side, args, s) == Err(ValueError)
    ensures Build(side, args, s).Ok? <==> IsBitString(s)
  {
  }

  /** An integer argument v other than 0 and 1 becomes the column |v⟩ of the
      smallest register of k >= 1 qubits with 2^k >= v, for bras as well as
      kets. Since the index must stay below 2^k, a power of two raises
      IndexError; a negative v is a Python index from the end of a 2-entry
      column, so only -1 and -2 succeed. */
  lemma IntegerArgument(side: Side, v: int)
    requires v != 0 && v != 1
    ensures ArgsShaped([IntArg(v)])
    ensures v >= 2 ==> (Build(side, [IntArg(v)], "").Ok? <==> !IsPow2(v))
    ensures v >= 2 && !IsPow2(v) ==>
      var k := QubitsFor(v, 1);
      Pow2(k - 1) < v < Pow2(k) && Build(side, [IntArg(v)], "") == Ok(BasisVec(Ket, Pow2(k), v))
    ensures v < 0 ==> (Build(side, [IntArg(v)], "").Ok? <==> v >= -2)
    ensures -2 <= v < 0 ==> Build(side, [IntArg(v)], "") == Ok(BasisVec(Ket, 2, v + 2))
  {
    var k := QubitsFor(v, 1);
    BuildSingleArg(side, IntArg(v));
    if v >= 2 {
      if Pow2(k) == v {
        assert IsPow2(v);
        assert !AllInAxis([v], Pow2(k)) by {
          assert [v][0] == v;
        }
      } else {
        assert Pow2(k) > v;
        assert k > 1 by {
          assert Pow2(1) == 2;
        }
        assert !IsPow2(v) by {
          forall j: nat
            ensures Pow2(j) != v
          {
            if j < k {
              Pow2Monotone(j, k - 1);
            } else {
              Pow2Monotone(k, j);
            }
          }
        }
        SingleQubitVector(k, v);
      }
    } else {
      assert k == 1 && Pow2(1) == 2;
      if v >= -2 {
        SingleQubitVector(1, v);
      } else {
        assert !AllInAxis([v], Pow2(k)) by {
          assert [v][0] == v;
        }
      }
    }
  }
}
