/** Register helpers of `QuantumCircuitMatrix`: the diagonal qubit-state
    matrix and the column qubit-state vector of a register, their "zero"
    variants over 2·n entries, and the conversions between the two forms. */
module Registers {
  import opened Complex
  import opened Arith
  import opened Matrices
  import opened Results

  /** Python accepts an index v into an axis of length d when -d <= v < d. */
  predicate InAxis(v: int, d: nat)
  {
    -(d as int) <= v < d
  }

  /** The position a Python index denotes: negative indices count from the end. */
  function Wrap(v: int, d: nat): (p: nat)
    requires InAxis(v, d)
    ensures p < d && (p == v || p == v + d)
  {
    if v < 0 then v + d else v
  }

  /** Index i is written by one of the arguments. */
  predicate Hit(args: seq<int>, d: nat, i: int)
  {
    exists k :: 0 <= k < |args| && InAxis(args[k], d) && Wrap(args[k], d) == i
  }

  predicate AllInAxis(args: seq<int>, d: nat)
  {
    forall k :: 0 <= k < |args| ==> InAxis(args[k], d)
  }

  /** Index i holds a 1 in the register built from `args`; no arguments
      selects index 0. */
  predicate Selected(args: seq<int>, d: nat, i: int)
  {
    Hit(args, d, i) || (|args| == 0 && i == 0)
  }

  /** The loop `for argv in args: a[argv] = 1`, stopping at the first index
      outside the array. */
  function MarkAll(a: seq<Cx>, args: seq<int>): (r: Result<seq<Cx>>)
    ensures r.Ok? <==> AllInAxis(args, |a|)
    ensures r.Ok? ==> |r.value| == |a|
    ensures r.Ok? ==> forall i :: 0 <= i < |a| ==>
      r.value[i] == (if Hit(args, |a|, i) then One else a[i])
    decreases |args|
  {
    if |args| == 0 then Ok(a)
    else if !InAxis(args[0], |a|) then Err(IndexError)
    else
      var r := MarkAll(a[Wrap(args[0], |a|) := One], args[1..]);
      assert forall k :: 1 <= k < |args| ==> args[k] == args[1..][k - 1];
      assert forall i :: Hit(args, |a|, i) <==> (i == Wrap(args[0], |a|) || Hit(args[1..], |a|, i)) by {
        forall i | Hit(args[1..], |a|, i)
          ensures Hit(args, |a|, i)
        {
          var k :| 0 <= k < |args[1..]| && InAxis(args[1..][k], |a|) && Wrap(args[1..][k], |a|) == i;
          assert args[k + 1] == args[1..][k];
        }
      }
      r
  }

  /** The marks of `get_qubit_vector` / `get_qubit_matrix` on a register of d
      entries, index 0 when no argument is given. */
  function QubitMarks(d: nat, args: seq<int>): (r: Result<seq<Cx>>)
    requires d >= 1
    ensures r.Ok? <==> AllInAxis(args, d)
    ensures r.Ok? ==> |r.value| == d
    ensures r.Ok? ==>
      forall i :: 0 <= i < d ==> r.value[i] == Indicator(Selected(args, d, i))
  {
    var marked :- MarkAll(seq(d, i => Zero), args);
    if |args| == 0 then Ok(marked[0 := One]) else Ok(marked)
  }

  /** `get_qubit_matrix(n, *args)`: the 2^n×2^n diagonal matrix with a 1 at
      (a, a) for every argument a (Python indexing), or at (0, 0) when there
      are none; an argument outside the register raises IndexError. */
  function GetQubitMatrix(n: nat, args: seq<int>): (r: Result<Matrix>)
    ensures r.Ok? <==> AllInAxis(args, Pow2(n))
    ensures r.Ok? ==> IsMat(r.value, Pow2(n), Pow2(n)) && IsDiagonal(r.value)
    ensures r.Ok? ==> forall i, j :: 0 <= i < Pow2(n) && 0 <= j < Pow2(n) ==>
      r.value[i][j] == Indicator(i == j && Selected(args, Pow2(n), i))
  {
    var marks :- QubitMarks(Pow2(n), args);
    Ok(Diag(marks))
  }

  /** `get_qubit_vector(n, *args)`: the 2^n×1 column with a 1 at every
      argument, or at 0 when there are none. */
  function GetQubitVector(n: nat, args: seq<int>): (r: Result<Matrix>)
    ensures r.Ok? <==> AllInAxis(args, Pow2(n))
    ensures r.Ok? ==> IsMat(r.value, Pow2(n), 1)
    ensures r.Ok? ==>
      forall i :: 0 <= i < Pow2(n) ==> r.value[i][0] == Indicator(Selected(args, Pow2(n), i))
  {
    var marks :- QubitMarks(Pow2(n), args);
    Ok(Column(marks))
  }

  /** Entry p after the pair fill from pair i on: an even entry becomes 1
      when its odd partner is 0. */
  function FillEntry(a: seq<Cx>, i: nat, p: int): Cx
    requires 0 <= p < |a| && |a| % 2 == 0
  {
    if p % 2 == 0 && 2 * i <= p && a[p + 1] == Zero then One else a[p]
  }

  /** The loop `for i in range(n): if a[2i+1] == 0: a[2i] = 1`, from pair i on. */
  function FillPairs(a: seq<Cx>, i: nat, n: nat): (r: seq<Cx>)
    requires |a| == 2 * n
    ensures |r| == |a|
    ensures forall p :: 0 <= p < |a| ==> r[p] == FillEntry(a, i, p)
    decreases n - i
  {
    if i >= n then a
    else FillPairs(a[2 * i := if a[2 * i + 1] == Zero then One else a[2 * i]], i + 1, n)
  }

  /** A 1 lands on even index 2i of a "zero" register unless the argument
      list already selected 2i+1; odd indices hold exactly the arguments. */
  predicate ZeroSelected(args: seq<int>, n: nat, p: int)
  {
    if p % 2 == 0 then Selected(args, 2 * n, p) || !Hit(args, 2 * n, p + 1)
    else Hit(args, 2 * n, p)
  }

  /** The marks of `get_zero_qubit_matrix` / `get_zero_qubit_vector` on 2·n
      entries. With no argument and n == 0 the final write to index 0
      raises IndexError. */
  function ZeroQubitMarks(n: nat, args: seq<int>): (r: Result<seq<Cx>>)
    ensures r.Ok? <==> AllInAxis(args, 2 * n) && (|args| > 0 || n > 0)
    ensures r.Ok? ==> |r.value| == 2 * n
    ensures r.Ok? ==>
      forall p :: 0 <= p < 2 * n ==> r.value[p] == Indicator(ZeroSelected(args, n, p))
  {
    var marked :- MarkAll(seq(2 * n, i => Zero), args);
    assert forall i :: 0 <= i < 2 * n ==> marked[i] == (if Hit(args, 2 * n, i) then One else Zero);
    var filled := FillPairs(marked, 0, n);
    FilledMarks(marked, filled, args, n);
    if |args| == 0 then
      if n == 0 then Err(IndexError) else Ok(filled[0 := One])
    else Ok(filled)
  }

  lemma FilledMarks(marked: seq<Cx>, filled: seq<Cx>, args: seq<int>, n: nat)
    requires |marked| == 2 * n && |filled| == 2 * n
    requires forall i :: 0 <= i < 2 * n ==> marked[i] == (if Hit(args, 2 * n, i) then One else Zero)
    requires forall p :: 0 <= p < 2 * n ==> filled[p] == FillEntry(marked, 0, p)
    ensures forall p :: 0 <= p < 2 * n ==>
      (if |args| == 0 && p == 0 then One else filled[p]) == Indicator(ZeroSelected(args, n, p))
  {
    forall p | 0 <= p < 2 * n
      ensures (if |args| == 0 && p == 0 then One else filled[p]) == Indicator(ZeroSelected(args, n, p))
    {
      if p % 2 == 0 {
        assert p + 1 < 2 * n;
        assert marked[p + 1] == Zero <==> !Hit(args, 2 * n, p + 1);
        assert marked[p] == One <==> Hit(args, 2 * n, p);
      } else {
        assert filled[p] == marked[p];
      }
    }
  }

  /** `get_zero_qubit_matrix(n, *args)`: a 2n×2n diagonal matrix. */
  function GetZeroQubitMatrix(n: nat, args: seq<int>): (r: Result<Matrix>)
    ensures r.Ok? <==> AllInAxis(args, 2 * n) && (|args| > 0 || n > 0)
    ensures r.Ok? ==> IsMat(r.value, 2 * n, 2 * n) && IsDiagonal(r.value)
    ensures r.Ok? ==>
      forall p :: 0 <= p < 2 * n ==> r.value[p][p] == Indicator(ZeroSelected(args, n, p))
  {
    var marks :- ZeroQubitMarks(n, args);
    Ok(Diag(marks))
  }

  /** `get_zero_qubit_vector(n, *args)`: the same marks as a 2n×1 column. */
  function GetZeroQubitVector(n: nat, args: seq<int>): (r: Result<Matrix>)
    ensures r.Ok? <==> AllInAxis(args, 2 * n) && (|args| > 0 || n > 0)
    ensures r.Ok? ==> IsMat(r.value, 2 * n, 1)
    ensures r.Ok? ==>
      forall p :: 0 <= p < 2 * n ==> r.value[p][0] == Indicator(ZeroSelected(args, n, p))
  {
    var marks :- ZeroQubitMarks(n, args);
    Ok(Column(marks))
  }

  /** `get_zero_ket_qubit_vector(n, *args)`: a 2n×1 column with exactly the
      arguments set (index 0 when there are none), without the pair fill. */
  function GetZeroKetQubitVector(n: nat, args: seq<int>): (r: Result<Matrix>)
    ensures r.Ok? <==> AllInAxis(args, 2 * n) && (|args| > 0 || n > 0)
    ensures r.Ok? ==> IsMat(r.value, 2 * n, 1)
    ensures r.Ok? ==>
      forall p :: 0 <= p < 2 * n ==> r.value[p][0] == Indicator(Selected(args, 2 * n, p))
  {
    var marked :- MarkAll(seq(2 * n, i => Zero), args);
    if |args| == 0 then
      if n == 0 then Err(IndexError) else Ok(Column(marked[0 := One]))
    else Ok(Column(marked))
  }

  /** `convert_matrix_to_vector`: a column is returned as it is; otherwise
      each row is summed into one entry of a column. */
  function MatrixToVector(m: Matrix): (v: Matrix)
    requires Shaped(m)
    ensures Cols(m) == 1 ==> v == m
    ensures IsMat(v, |m|, 1)
  {
    if Cols(m) == 1 then m
    else Column(seq(|m|, i requires 0 <= i < |m| => Sum(m[i])))
  }

  /** `convert_vector_to_matrix`: a square input is returned as it is;
      otherwise the first column is added onto the diagonal of a float
      `np.zeros` array, which keeps only the real part of each entry. */
  function VectorToMatrix(v: Matrix): (m: Matrix)
    requires Shaped(v)
    ensures |v| == Cols(v) ==> m == v
    ensures IsMat(m, |v|, |v|)
    ensures |v| != Cols(v) ==>
      IsDiagonal(m) && forall i :: 0 <= i < |v| ==> m[i][i] == RealPart(v[i][0])
  {
    if |v| == Cols(v) then v
    else Diag(seq(|v|, i requires 0 <= i < |v| => RealPart(v[i][0])))
  }

  /** On a diagonal matrix the row sums are the diagonal entries. */
  lemma DiagonalToVector(m: Matrix)
    requires Shaped(m) && IsDiagonal(m)
    ensures forall i :: 0 <= i < |m| ==> MatrixToVector(m)[i][0] == m[i][i]
  {
    forall i | 0 <= i < |m|
      ensures MatrixToVector(m)[i][0] == m[i][i]
    {
      if Cols(m) != 1 {
        SumOneHot(m[i], i);
      }
    }
  }

  /** vector -> matrix -> vector keeps the real part of each entry of a
      column longer than one, so it is the identity on real columns. */
  lemma VectorMatrixRoundTrip(v: Matrix)
    requires Shaped(v) && Cols(v) == 1
    ensures |v| > 1 ==>
      MatrixToVector(VectorToMatrix(v)) == Column(seq(|v|, i requires 0 <= i < |v| => RealPart(v[i][0])))
    ensures (forall i :: 0 <= i < |v| ==> v[i][0].im == 0) ==> MatrixToVector(VectorToMatrix(v)) == v
  {
    var m := VectorToMatrix(v);
    if |v| != 1 {
      var w := Column(seq(|v|, i requires 0 <= i < |v| => RealPart(v[i][0])));
      DiagonalToVector(m);
      MatEq(MatrixToVector(m), w, |v|, 1);
      if forall i :: 0 <= i < |v| ==> v[i][0].im == 0 {
        MatEq(w, v, |v|, 1);
      }
    }
  }

  /** matrix -> vector -> matrix keeps the real part of the diagonal of a
      matrix larger than 1×1, so it is the identity on real diagonal
      matrices. */
  lemma MatrixVectorRoundTrip(m: Matrix)
    requires Shaped(m) && IsDiagonal(m)
    ensures |m| > 1 ==>
      VectorToMatrix(MatrixToVector(m)) == Diag(seq(|m|, i requires 0 <= i < |m| => RealPart(m[i][i])))
    ensures (forall i :: 0 <= i < |m| ==> m[i][i].im == 0) ==> VectorToMatrix(MatrixToVector(m)) == m
  {
    var v := MatrixToVector(m);
    if |m| != 1 {
      var d := Diag(seq(|m|, i requires 0 <= i < |m| => RealPart(m[i][i])));
      DiagonalToVector(m);
      MatEq(VectorToMatrix(v), d, |m|, |m|);
      if forall i :: 0 <= i < |m| ==> m[i][i].im == 0 {
        MatEq(d, m, |m|, |m|);
      }
    }
  }

  /** The vector form of a register, converted, is its matrix form. */
  lemma QubitVectorToMatrix(n: nat, args: seq<int>)
    requires AllInAxis(args, Pow2(n))
    ensures VectorToMatrix(GetQubitVector(n, args).value) == GetQubitMatrix(n, args).value
  {
    var v := GetQubitVector(n, args).value;
    var m := GetQubitMatrix(n, args).value;
    MatEq(VectorToMatrix(v), m, Pow2(n), Pow2(n));
  }
}
