/** `applied_swap_gate`: the diagonal of a qubit matrix (or a column vector)
    is pushed through swap gates, either the block swap `swap_gate ⊗ I` or
    one transposition per pair of qubit arguments, and laid back on a
    diagonal. The swapping matrix is kept as a permutation matrix throughout,
    and its index map is what the lemmas reason about. */
module AppliedSwap {
  import opened Complex
  import opened Arith
  import opened Matrices
  import opened Results
  import opened Gates
  import opened Registers

  /** What the loop multiplies: the float row numpy builds from the diagonal
      of a matrix input, or a column input kept as it is. */
  datatype Carrier = Diagonal(v: seq<Cx>) | Vector(m: Matrix)

  predicate Fits(c: Carrier, d: nat)
  {
    match c
    case Diagonal(v) => |v| == d
    case Vector(m) => IsMat(m, |m|, Cols(m))
  }

  /** `swapped[bits] += qubits[bits][bits]` into a float array: the real
      part of each diagonal entry. */
  function RealDiagonal(m: Matrix): (v: seq<Cx>)
    requires IsMat(m, |m|, Cols(m)) && |m| <= Cols(m)
    ensures |v| == |m|
  {
    seq(|m|, b requires 0 <= b < |m| => RealPart(m[b][b]))
  }

  /** `g[i][j] -= 1` and `g[i][j] += 1`. */
  function Decrement(g: Matrix, i: nat, j: nat): (r: Matrix)
    requires i < |g| && j < |g[i]|
    ensures |r| == |g| && forall k :: 0 <= k < |g| ==> |r[k]| == |g[k]|
  {
    g[i := g[i][j := Sub(g[i][j], One)]]
  }

  function Increment(g: Matrix, i: nat, j: nat): (r: Matrix)
    requires i < |g| && j < |g[i]|
    ensures |r| == |g| && forall k :: 0 <= k < |g| ==> |r[k]| == |g[k]|
  {
    g[i := g[i][j := Add(g[i][j], One)]]
  }

  /** The four in-place updates that move the ones at (a, a) and (b, b) to
      (a, b) and (b, a). */
  function Exchanged(g: Matrix, a: nat, b: nat): (r: Matrix)
    requires IsMat(g, |g|, |g|) && a < |g| && b < |g|
    ensures IsMat(r, |g|, |g|)
  {
    Increment(Increment(Decrement(Decrement(g, a, a), b, b), a, b), b, a)
  }

  /** `np.dot(swapped, g)`: a row times a square matrix always aligns; a
      column of d rows aligns only when d = 1. */
  function Apply(c: Carrier, g: Matrix): (r: Result<Carrier>)
    requires IsMat(g, |g|, |g|) && Fits(c, |g|)
    ensures r.Ok? ==> Fits(r.value, |g|) && r.value.Diagonal? == c.Diagonal?
    ensures c.Diagonal? ==> r == Ok(Diagonal(VecMat(c.v, g)))
    ensures c.Vector? ==> (r.Ok? <==> Cols(c.m) == |g|)
  {
    match c
    case Diagonal(v) => Ok(Diagonal(VecMat(v, g)))
    case Vector(m) => if Cols(m) == |g| then Ok(Vector(MatMul(m, g))) else Err(ShapeError)
  }

  /** Where one pair of qubit arguments lands: nowhere, because a guard read
      a zero, or on the two positions whose ones are exchanged. */
  datatype Step = Skip | Swap(a: nat, b: nat)

  /** The pair loop's guard for the qubits (q0, q1) on the swapping matrix
      g: position 2·q0 + 1 is read first and position 2·q1 only when that
      read is non-zero, each with Python's index wrap. */
  function Locate(g: Matrix, q0: int, q1: int): (r: Result<Step>)
    requires IsMat(g, |g|, |g|)
    ensures r.Ok? && r.value.Swap? ==> r.value.a < |g| && r.value.b < |g|
  {
    var d := |g|;
    var a := 2 * q0 + 1;
    var b := 2 * q1;
    if !InAxis(a, d) then Err(IndexError)
    else if g[Wrap(a, d)][Wrap(a, d)] == Zero then Ok(Skip)
    else if !InAxis(b, d) then Err(IndexError)
    else if g[Wrap(b, d)][Wrap(b, d)] == Zero then Ok(Skip)
    else Ok(Swap(Wrap(a, d), Wrap(b, d)))
  }

  /** The swapping matrix after a step. */
  function Advance(g: Matrix, s: Step): (h: Matrix)
    requires IsMat(g, |g|, |g|) && (s.Swap? ==> s.a < |g| && s.b < |g|)
    ensures IsMat(h, |g|, |g|)
  {
    match s
    case Skip => g
    case Swap(a, b) => Exchanged(g, a, b)
  }

  /** The pair loop's body: after an accepted pair the carrier is multiplied
      by the whole swapping matrix built so far. */
  function PairStep(c: Carrier, g: Matrix, q0: int, q1: int): (r: Result<(Carrier, Matrix)>)
    requires IsMat(g, |g|, |g|) && Fits(c, |g|)
    ensures r.Ok? ==> IsMat(r.value.1, |g|, |g|) && Fits(r.value.0, |g|)
    ensures r.Ok? ==> r.value.0.Diagonal? == c.Diagonal?
  {
    var s :- Locate(g, q0, q1);
    match s
    case Skip => Ok((c, g))
    case Swap(a, b) =>
      var g' := Exchanged(g, a, b);
      var c' :- Apply(c, g');
      Ok((c', g'))
  }

  /** `for argv in range(len(args) // 2)` from iteration t on, with the
      pair (args[argv], args[argv + 1]) as the source indexes it. */
  function SwapPairs(c: Carrier, g: Matrix, args: seq<int>, t: nat): (r: Result<(Carrier, Matrix)>)
    requires IsMat(g, |g|, |g|) && Fits(c, |g|)
    ensures r.Ok? ==> IsMat(r.value.1, |g|, |g|) && Fits(r.value.0, |g|)
    ensures r.Ok? ==> r.value.0.Diagonal? == c.Diagonal?
    decreases |args| / 2 - t
  {
    if t >= |args| / 2 then Ok((c, g))
    else
      var s :- PairStep(c, g, args[t], args[t + 1]);
      SwapPairs(s.0, s.1, args, t + 1)
  }

  /** The no-argument branch on a row: `np.dot(row, np.kron(swap_gate,
      np.identity(d // 4)))`, which aligns only when 4 divides d. */
  function BlockSwapRow(v: seq<Cx>): (r: Result<seq<Cx>>)
    ensures r.Ok? <==> |v| % 4 == 0
    ensures r.Ok? ==> |r.value| == |v|
  {
    if |v| % 4 != 0 then Err(ShapeError)
    else if |v| == 0 then Ok([])
    else Ok(VecMat(v, Kron(SwapMatrix, Identity(|v| / 4))))
  }

  /** `applied_swap_gate(qubits, *args)` on a two-dimensional array. */
  function AppliedSwapGate(qubits: Matrix, args: seq<int>): (r: Result<Matrix>)
    requires IsMat(qubits, |qubits|, Cols(qubits))
    ensures Cols(qubits) == 1 && |args| == 0 ==> r == Err(ShapeError)
    ensures Cols(qubits) != 1 && Cols(qubits) < |qubits| ==> r == Err(IndexError)
    ensures Cols(qubits) != 1 && r.Ok? ==> IsMat(r.value, |qubits|, |qubits|) && IsDiagonal(r.value)
  {
    var d := |qubits|;
    if Cols(qubits) == 1 then
      if |args| == 0 then Err(ShapeError)
      else
        var s :- SwapPairs(Vector(qubits), Identity(d), args, 0);
        Ok(s.0.m)
    else if Cols(qubits) < d then Err(IndexError)
    else
      var v := RealDiagonal(qubits);
      if |args| == 0 then
        var w :- BlockSwapRow(v);
        Ok(Diag(w))
      else
        var s :- SwapPairs(Diagonal(v), Identity(d), args, 0);
        Ok(Diag(s.0.v))
  }

  /* ---------------------------------------------------------------------
     The swapping matrix as an index map
     --------------------------------------------------------------------- */

  /** The loop's guard on the index map p of a permutation matrix: a
      position is still free while p fixes it. */
  function PairAt(p: seq<int>, q0: int, q1: int): (r: Result<Step>)
    ensures r.Ok? && r.value.Swap? ==>
      r.value.a < |p| && r.value.b < |p| && p[r.value.a] == r.value.a && p[r.value.b] == r.value.b
  {
    var d := |p|;
    var a := 2 * q0 + 1;
    var b := 2 * q1;
    if !InAxis(a, d) then Err(IndexError)
    else if p[Wrap(a, d)] != Wrap(a, d) then Ok(Skip)
    else if !InAxis(b, d) then Err(IndexError)
    else if p[Wrap(b, d)] != Wrap(b, d) then Ok(Skip)
    else Ok(Swap(Wrap(a, d), Wrap(b, d)))
  }

  /** The index map after a step. */
  function Follow(p: seq<int>, s: Step): (q: seq<int>)
    requires s.Swap? ==> s.a < |p| && s.b < |p|
    ensures |q| == |p|
  {
    match s
    case Skip => p
    case Swap(a, b) => p[a := b][b := a]
  }

  /** The entry of the exchanged matrix at (i, j): the two diagonal ones
      lose 1 and the two crossing entries gain 1, unless a = b, when the
      four updates cancel. */
  lemma ExchangedEntry(g: Matrix, a: nat, b: nat, i: int, j: int)
    requires IsMat(g, |g|, |g|) && a < |g| && b < |g| && 0 <= i < |g| && 0 <= j < |g|
    ensures Exchanged(g, a, b)[i][j] ==
      if a == b then g[i][j]
      else if (i == a && j == a) || (i == b && j == b) then Sub(g[i][j], One)
      else if (i == a && j == b) || (i == b && j == a) then Add(g[i][j], One)
      else g[i][j]
  {
  }

  /** Exchanging a position with itself changes nothing. */
  lemma SelfExchangeEntry(d: nat, p: seq<int>, a: nat, i: int, j: int)
    requires |p| == d && a < d && p[a] == a && 0 <= i < d && 0 <= j < d
    ensures Exchanged(Permutation(d, p), a, a)[i][j] == Permutation(d, p[a := a][a := a])[i][j]
  {
    hide Permutation, Exchanged;
    ExchangedEntry(Permutation(d, p), a, a, i, j);
    assert p[a := a][a := a] == p;
  }

  /** Rows a and b lose the one on the diagonal. */
  lemma LeavingCell(d: nat, p: seq<int>, a: nat, b: nat, i: int, j: int)
    requires |p| == d && a < d && b < d && p[a] == a && p[b] == b && a != b
    requires 0 <= j < d && (i == a || i == b) && j == i
    ensures Exchanged(Permutation(d, p), a, b)[i][j] == Permutation(d, p[a := b][b := a])[i][j]
  {
    var q := p[a := b][b := a];
    var x, y := Permutation(d, p)[i][j], Permutation(d, q)[i][j];
    hide Permutation, Exchanged;
    ExchangedEntry(Permutation(d, p), a, b, i, j);
    PermutationEntry(d, p, i, j);
    PermutationEntry(d, q, i, j);
    assert x == One && y == Zero;
  }

  /** Rows a and b gain a one where they cross. */
  lemma CrossingCell(d: nat, p: seq<int>, a: nat, b: nat, i: int, j: int)
    requires |p| == d && a < d && b < d && p[a] == a && p[b] == b && a != b
    requires 0 <= j < d && ((i == a && j == b) || (i == b && j == a))
    ensures Exchanged(Permutation(d, p), a, b)[i][j] == Permutation(d, p[a := b][b := a])[i][j]
  {
    var q := p[a := b][b := a];
    var x, y := Permutation(d, p)[i][j], Permutation(d, q)[i][j];
    hide Permutation, Exchanged;
    ExchangedEntry(Permutation(d, p), a, b, i, j);
    PermutationEntry(d, p, i, j);
    PermutationEntry(d, q, i, j);
    assert x == Zero && y == One;
  }

  /** Rows a and b stay zero everywhere else. */
  lemma QuietCell(d: nat, p: seq<int>, a: nat, b: nat, i: int, j: int)
    requires |p| == d && a < d && b < d && p[a] == a && p[b] == b && a != b
    requires 0 <= j < d && (i == a || i == b) && j != a && j != b
    ensures Exchanged(Permutation(d, p), a, b)[i][j] == Permutation(d, p[a := b][b := a])[i][j]
  {
    var q := p[a := b][b := a];
    var x, y := Permutation(d, p)[i][j], Permutation(d, q)[i][j];
    hide Permutation, Exchanged;
    ExchangedEntry(Permutation(d, p), a, b, i, j);
    PermutationEntry(d, p, i, j);
    PermutationEntry(d, q, i, j);
    assert x == Zero && y == Zero;
  }

  /** Every other row is untouched. */
  lemma OtherRowEntry(d: nat, p: seq<int>, a: nat, b: nat, i: int, j: int)
    requires |p| == d && a < d && b < d && a != b && 0 <= i < d && 0 <= j < d && i != a && i != b
    ensures Exchanged(Permutation(d, p), a, b)[i][j] == Permutation(d, p[a := b][b := a])[i][j]
  {
    hide Permutation, Exchanged;
    ExchangedEntry(Permutation(d, p), a, b, i, j);
    PermutationEntry(d, p, i, j);
    PermutationEntry(d, p[a := b][b := a], i, j);
  }

  lemma ExchangedPermutationEntry(d: nat, p: seq<int>, a: nat, b: nat, i: int, j: int)
    requires |p| == d && a < d && b < d && p[a] == a && p[b] == b
    requires 0 <= i < d && 0 <= j < d
    ensures Exchanged(Permutation(d, p), a, b)[i][j] == Permutation(d, p[a := b][b := a])[i][j]
  {
    hide *;
    if a == b {
      SelfExchangeEntry(d, p, a, i, j);
    } else if i != a && i != b {
      OtherRowEntry(d, p, a, b, i, j);
    } else if j == i {
      LeavingCell(d, p, a, b, i, j);
    } else if j == a || j == b {
      CrossingCell(d, p, a, b, i, j);
    } else {
      QuietCell(d, p, a, b, i, j);
    }
  }

  /** Exchanging two fixed points of p in its permutation matrix gives the
      permutation matrix of p with the two exchanged. */
  lemma ExchangedPermutation(d: nat, p: seq<int>, a: nat, b: nat)
    requires |p| == d && a < d && b < d && p[a] == a && p[b] == b
    ensures Exchanged(Permutation(d, p), a, b) == Permutation(d, p[a := b][b := a])
  {
    var e := Exchanged(Permutation(d, p), a, b);
    var h := Permutation(d, p[a := b][b := a]);
    hide *;
    forall i, j | 0 <= i < d && 0 <= j < d
      ensures e[i][j] == h[i][j]
    {
      ExchangedPermutationEntry(d, p, a, b, i, j);
    }
    MatEq(e, h, d, d);
  }

  /** The matrix guard and the index-map guard agree on a permutation
      matrix, and so do the steps they take. */
  lemma LocatePermutation(d: nat, p: seq<int>, q0: int, q1: int)
    requires |p| == d
    ensures Locate(Permutation(d, p), q0, q1) == PairAt(p, q0, q1)
    ensures PairAt(p, q0, q1).Ok? ==>
      Advance(Permutation(d, p), PairAt(p, q0, q1).value) == Permutation(d, Follow(p, PairAt(p, q0, q1).value))
  {
    var a, b := 2 * q0 + 1, 2 * q1;
    if InAxis(a, d) {
      PermutationEntry(d, p, Wrap(a, d), Wrap(a, d));
    }
    if InAxis(b, d) {
      PermutationEntry(d, p, Wrap(b, d), Wrap(b, d));
    }
    var r := PairAt(p, q0, q1);
    if r.Ok? && r.value.Swap? {
      ExchangedPermutation(d, p, r.value.a, r.value.b);
    }
  }

  /** Exchanging two fixed points keeps an involution an involution. */
  lemma FollowInvolution(d: nat, p: seq<int>, s: Step)
    requires IsInvolution(d, p)
    requires s.Swap? ==> s.a < d && s.b < d && p[s.a] == s.a && p[s.b] == s.b
    ensures IsInvolution(d, Follow(p, s))
  {
  }

  /** Every entry of s is a position below d. */
  predicate MapsInto(s: seq<int>, d: nat)
  {
    forall k :: 0 <= k < |s| ==> 0 <= s[k] < d
  }

  /** The entries of w read through the index map s. */
  function Reindex<T>(w: seq<T>, s: seq<int>): (r: seq<T>)
    requires MapsInto(s, |w|)
    ensures |r| == |s|
  {
    seq(|s|, j requires 0 <= j < |s| => w[s[j]])
  }

  lemma ReindexTwice<T>(w: seq<T>, s: seq<int>, p: seq<int>)
    requires MapsInto(s, |w|) && MapsInto(p, |s|)
    ensures MapsInto(Reindex(s, p), |w|)
    ensures Reindex(Reindex(w, s), p) == Reindex(w, Reindex(s, p))
  {
  }

  /** Reading through the identity map changes nothing. */
  lemma ReindexStraight<T>(w: seq<T>)
    ensures MapsInto(Straight(|w|), |w|) && Reindex(w, Straight(|w|)) == w
  {
  }

  /** Right-multiplying a row by the matrix of an involution reads it
      through the involution. */
  lemma VecMatReindex(w: seq<Cx>, p: seq<int>)
    requires IsInvolution(|w|, p)
    ensures MapsInto(p, |w|) && VecMat(w, Permutation(|w|, p)) == Reindex(w, p)
  {
    VecMatInvolution(w, p);
  }

  /* ---------------------------------------------------------------------
     The pair loop as written, on index maps
     --------------------------------------------------------------------- */

  /** The pair loop as the source runs it, on index maps: p is the
      swapping matrix's map, and the row so far is the input read through
      s. Each accepted pair updates p and then reads the row through the
      whole of p once more. */
  function WrittenMaps(s: seq<int>, p: seq<int>, args: seq<int>, t: nat): (r: Result<(seq<int>, seq<int>)>)
    requires IsInvolution(|p|, p) && |s| == |p| && MapsInto(s, |p|)
    ensures r.Ok? ==> |r.value.0| == |p| && MapsInto(r.value.0, |p|) && IsInvolution(|p|, r.value.1)
    decreases |args| / 2 - t
  {
    if t >= |args| / 2 then Ok((s, p))
    else
      var step :- PairAt(p, args[t], args[t + 1]);
      FollowInvolution(|p|, p, step);
      var p' := Follow(p, step);
      if step.Skip? then WrittenMaps(s, p, args, t + 1)
      else WrittenMaps(Reindex(s, p'), p', args, t + 1)
  }

  /** One pass of the pair loop on a row is one step on index maps: a
      skipped pair changes nothing, an accepted one reads the row through
      the updated map. */
  lemma StepMaps(v: seq<Cx>, s: seq<int>, p: seq<int>, q0: int, q1: int)
    requires IsInvolution(|v|, p) && |s| == |v| && MapsInto(s, |v|)
    ensures var st := PairAt(p, q0, q1);
      st.Ok? && st.value.Swap? ==>
        IsInvolution(|v|, Follow(p, st.value)) && MapsInto(Reindex(s, Follow(p, st.value)), |v|)
    ensures var st := PairAt(p, q0, q1);
      PairStep(Diagonal(Reindex(v, s)), Permutation(|v|, p), q0, q1) ==
        if st.Err? then Err(st.error)
        else if st.value.Skip? then Ok((Diagonal(Reindex(v, s)), Permutation(|v|, p)))
        else
          var p' := Follow(p, st.value);
          Ok((Diagonal(Reindex(v, Reindex(s, p'))), Permutation(|v|, p')))
  {
    var d := |v|;
    assert |p| == d;
    hide Permutation, Exchanged, Locate, PairAt, Follow, IsInvolution, Reindex, VecMat;
    LocatePermutation(d, p, q0, q1);
    var step := PairAt(p, q0, q1);
    if step.Ok? {
      FollowInvolution(d, p, step.value);
      if step.value.Swap? {
        var p' := Follow(p, step.value);
        VecMatReindex(Reindex(v, s), p');
        ReindexTwice(v, s, p');
      }
    }
  }

  /** The pair loop on a row equals its index-map version: the row it ends
      with is the input read through the map the index version ends with,
      and the swapping matrix is that version's permutation matrix. */
  lemma {:induction false} SwapPairsMaps(v: seq<Cx>, s: seq<int>, p: seq<int>, args: seq<int>, t: nat)
    requires IsInvolution(|v|, p) && |s| == |v| && MapsInto(s, |v|)
    ensures var r := WrittenMaps(s, p, args, t);
      SwapPairs(Diagonal(Reindex(v, s)), Permutation(|v|, p), args, t) ==
        if r.Ok? then Ok((Diagonal(Reindex(v, r.value.0)), Permutation(|v|, r.value.1))) else Err(r.error)
    decreases |args| / 2 - t
  {
    if t < |args| / 2 {
      StepMaps(v, s, p, args[t], args[t + 1]);
      hide Permutation, Exchanged, Locate, PairStep, Follow, IsInvolution, Reindex, VecMat;
      var step := PairAt(p, args[t], args[t + 1]);
      if step.Ok? {
        if step.value.Swap? {
          SwapPairsMaps(v, Reindex(s, Follow(p, step.value)), Follow(p, step.value), args, t + 1);
        } else {
          SwapPairsMaps(v, s, p, args, t + 1);
        }
      }
    }
  }

  /** The whole matrix branch with arguments, as written: the result is the
      diagonal of the input read through the map the index version of the
      loop ends with. */
  lemma WrittenSwapGate(qubits: Matrix, args: seq<int>)
    requires IsMat(qubits, |qubits|, Cols(qubits)) && Cols(qubits) != 1 && Cols(qubits) >= |qubits|
    requires |args| > 0
    ensures var d := |qubits|;
      var r := WrittenMaps(Straight(d), Straight(d), args, 0);
      AppliedSwapGate(qubits, args) ==
        if r.Ok? then Ok(Diag(Reindex(RealDiagonal(qubits), r.value.0))) else Err(r.error)
  {
    var d := |qubits|;
    var v := RealDiagonal(qubits);
    IdentityPermutation(d);
    ReindexStraight(v);
    SwapPairsMaps(v, Straight(d), Straight(d), args, 0);
  }

  /* ---------------------------------------------------------------------
     The pair loop as the documentation describes it
     --------------------------------------------------------------------- */

  /** The swapping matrix built from the pairs (args[2t], args[2t+1]) with
      the same guard and updates as the source's loop. */
  function BuildSwaps(g: Matrix, args: seq<int>, t: nat): (r: Result<Matrix>)
    requires IsMat(g, |g|, |g|)
    ensures r.Ok? ==> IsMat(r.value, |g|, |g|)
    decreases |args| / 2 - t
  {
    if t >= |args| / 2 then Ok(g)
    else
      var step :- Locate(g, args[2 * t], args[2 * t + 1]);
      BuildSwaps(Advance(g, step), args, t + 1)
  }

  /** The same on index maps. */
  function SwapMap(p: seq<int>, args: seq<int>, t: nat): (r: Result<seq<int>>)
    requires IsInvolution(|p|, p)
    ensures r.Ok? ==> IsInvolution(|p|, r.value)
    decreases |args| / 2 - t
  {
    if t >= |args| / 2 then Ok(p)
    else
      var step :- PairAt(p, args[2 * t], args[2 * t + 1]);
      FollowInvolution(|p|, p, step);
      SwapMap(Follow(p, step), args, t + 1)
  }

  /** Building the matrix from a permutation matrix yields the permutation
      matrix of the map the index version builds, or the same error. */
  lemma {:induction false} BuildSwapsMap(d: nat, p: seq<int>, args: seq<int>, t: nat)
    requires IsInvolution(d, p)
    ensures var r := SwapMap(p, args, t);
      BuildSwaps(Permutation(d, p), args, t) == if r.Ok? then Ok(Permutation(d, r.value)) else Err(r.error)
    decreases |args| / 2 - t
  {
    assert |p| == d;
    hide Permutation, Exchanged, Locate, PairAt, Advance, Follow, IsInvolution;
    if t < |args| / 2 {
      LocatePermutation(d, p, args[2 * t], args[2 * t + 1]);
      var step := PairAt(p, args[2 * t], args[2 * t + 1]);
      if step.Ok? {
        FollowInvolution(d, p, step.value);
        BuildSwapsMap(d, Follow(p, step.value), args, t + 1);
      }
    }
  }

  /** `applied_swap_gate` with the two defects of its pair loop removed: the
      pairs are (args[2t], args[2t+1]), and the finished swapping matrix is
      applied once, after the loop. */
  function CorrectedSwapGate(qubits: Matrix, args: seq<int>): (r: Result<Matrix>)
    requires IsMat(qubits, |qubits|, Cols(qubits))
    ensures Cols(qubits) == 1 && |args| == 0 ==> r == Err(ShapeError)
    ensures Cols(qubits) != 1 && Cols(qubits) < |qubits| ==> r == Err(IndexError)
    ensures Cols(qubits) != 1 && r.Ok? ==> IsMat(r.value, |qubits|, |qubits|) && IsDiagonal(r.value)
  {
    var d := |qubits|;
    if Cols(qubits) == 1 then
      if |args| == 0 then Err(ShapeError)
      else
        var g :- BuildSwaps(Identity(d), args, 0);
        var c :- Apply(Vector(qubits), g);
        Ok(c.m)
    else if Cols(qubits) < d then Err(IndexError)
    else
      var v := RealDiagonal(qubits);
      if |args| == 0 then
        var w :- BlockSwapRow(v);
        Ok(Diag(w))
      else
        var g :- BuildSwaps(Identity(d), args, 0);
        Ok(Diag(VecMat(v, g)))
  }

  /** The corrected matrix branch with arguments reads the diagonal through
      an involution: the product of the exchanges of the accepted pairs. */
  lemma CorrectedSwapsPermute(qubits: Matrix, args: seq<int>)
    requires IsMat(qubits, |qubits|, Cols(qubits)) && Cols(qubits) != 1 && Cols(qubits) >= |qubits|
    requires |args| > 0
    ensures var d := |qubits|;
      var r := SwapMap(Straight(d), args, 0);
      (r.Ok? ==> IsInvolution(d, r.value)) &&
      CorrectedSwapGate(qubits, args) ==
        if r.Ok? then Ok(Diag(Reindex(RealDiagonal(qubits), r.value))) else Err(r.error)
  {
    var d := |qubits|;
    var v := RealDiagonal(qubits);
    IdentityPermutation(d);
    BuildSwapsMap(d, Straight(d), args, 0);
    var r := SwapMap(Straight(d), args, 0);
    if r.Ok? {
      VecMatReindex(v, r.value);
    }
  }

  /* ---------------------------------------------------------------------
     The arguments 0, 1, 2, 3 on three or more qubits
     --------------------------------------------------------------------- */

  /** As written, the loop takes the pairs (0, 1) and (1, 2), exchanges the
      positions 1, 2 and then 3, 4 in the swapping matrix, and reads the row
      through the first matrix and then through the second: the exchange of
      1 and 2 cancels and only 3 and 4 change places. */
  lemma WrittenExampleMaps(d: nat)
    requires d >= 8
    ensures WrittenMaps(Straight(d), Straight(d), [0, 1, 2, 3], 0) ==
      Ok((Exchange(d, 3, 4), Straight(d)[1 := 2][2 := 1][3 := 4][4 := 3]))
  {
    var args := [0, 1, 2, 3];
    var p1 := Straight(d)[1 := 2][2 := 1];
    var p2 := p1[3 := 4][4 := 3];
    assert PairAt(Straight(d), args[0], args[1]) == Ok(Swap(1, 2));
    ReindexStraight(p1);
    assert Reindex(Straight(d), p1) == p1;
    assert PairAt(p1, args[1], args[2]) == Ok(Swap(3, 4));
    assert Reindex(p1, p2) == Exchange(d, 3, 4);
  }

  /** With the pairs (0, 1) and (2, 3) the corrected loop exchanges the
      positions 1, 2 and 5, 6. */
  lemma CorrectedExampleMap(d: nat)
    requires d >= 8
    ensures SwapMap(Straight(d), [0, 1, 2, 3], 0) == Ok(Straight(d)[1 := 2][2 := 1][5 := 6][6 := 5])
  {
    var args := [0, 1, 2, 3];
    var p1 := Straight(d)[1 := 2][2 := 1];
    assert PairAt(Straight(d), args[0], args[1]) == Ok(Swap(1, 2));
    assert PairAt(p1, args[2], args[3]) == Ok(Swap(5, 6));
  }

  /** The discrepancy on a whole gate: for the arguments 0, 1, 2, 3 on a
      matrix of at least eight rows the source's result carries the
      diagonal with entries 3 and 4 exchanged, where the corrected loop
      exchanges entries 1, 2 and 5, 6. */
  lemma SwapPairingExample(qubits: Matrix)
    requires IsMat(qubits, |qubits|, Cols(qubits)) && Cols(qubits) >= |qubits| >= 8
    ensures var d, v := |qubits|, RealDiagonal(qubits);
      AppliedSwapGate(qubits, [0, 1, 2, 3]) == Ok(Diag(seq(d, j requires 0 <= j < d => v[Swapped(j, 3, 4)]))) &&
      CorrectedSwapGate(qubits, [0, 1, 2, 3]) ==
        Ok(Diag(seq(d, j requires 0 <= j < d => v[Swapped(Swapped(j, 1, 2), 5, 6)])))
  {
    var d, v := |qubits|, RealDiagonal(qubits);
    hide *;
    WrittenSwapGate(qubits, [0, 1, 2, 3]);
    WrittenExampleMaps(d);
    CorrectedSwapsPermute(qubits, [0, 1, 2, 3]);
    CorrectedExampleMap(d);
    ExampleReadings(v);
  }

  lemma ExampleReadings(v: seq<Cx>)
    requires |v| >= 8
    ensures var d := |v|;
      MapsInto(Exchange(d, 3, 4), d) && MapsInto(Straight(d)[1 := 2][2 := 1][5 := 6][6 := 5], d) &&
      Reindex(v, Exchange(d, 3, 4)) == seq(d, j requires 0 <= j < d => v[Swapped(j, 3, 4)]) &&
      Reindex(v, Straight(d)[1 := 2][2 := 1][5 := 6][6 := 5]) ==
        seq(d, j requires 0 <= j < d => v[Swapped(Swapped(j, 1, 2), 5, 6)])
  {
  }

  /* ---------------------------------------------------------------------
     One pair, the error paths and the column input
     --------------------------------------------------------------------- */

  /** With a single pair of qubit arguments both loops exchange the two
      positions 2·q0 + 1 and 2·q1 (after Python's index wrap). */
  lemma SinglePairMaps(d: nat, args: seq<int>)
    requires |args| == 2 || |args| == 3
    requires InAxis(2 * args[0] + 1, d) && InAxis(2 * args[1], d)
    ensures var a, b := Wrap(2 * args[0] + 1, d), Wrap(2 * args[1], d);
      WrittenMaps(Straight(d), Straight(d), args, 0).Ok? &&
      WrittenMaps(Straight(d), Straight(d), args, 0).value.0 == Exchange(d, a, b) &&
      SwapMap(Straight(d), args, 0) == Ok(Exchange(d, a, b))
  {
    var a, b := Wrap(2 * args[0] + 1, d), Wrap(2 * args[1], d);
    var p1 := Straight(d)[a := b][b := a];
    assert PairAt(Straight(d), args[0], args[1]) == Ok(Swap(a, b));
    assert p1 == Exchange(d, a, b);
    assert Reindex(Straight(d), p1) == p1;
  }

  /** The whole gate on one pair: the diagonal with the two positions
      exchanged, as written and corrected alike. */
  lemma SingleSwapPair(qubits: Matrix, args: seq<int>)
    requires IsMat(qubits, |qubits|, Cols(qubits)) && Cols(qubits) != 1 && Cols(qubits) >= |qubits|
    requires |args| == 2 || |args| == 3
    requires InAxis(2 * args[0] + 1, |qubits|) && InAxis(2 * args[1], |qubits|)
    ensures var d, v := |qubits|, RealDiagonal(qubits);
      var a, b := Wrap(2 * args[0] + 1, d), Wrap(2 * args[1], d);
      AppliedSwapGate(qubits, args) == Ok(Diag(seq(d, j requires 0 <= j < d => v[Swapped(j, a, b)]))) &&
      CorrectedSwapGate(qubits, args) == Ok(Diag(seq(d, j requires 0 <= j < d => v[Swapped(j, a, b)])))
  {
    var d, v := |qubits|, RealDiagonal(qubits);
    var a, b := Wrap(2 * args[0] + 1, d), Wrap(2 * args[1], d);
    hide *;
    WrittenSwapGate(qubits, args);
    CorrectedSwapsPermute(qubits, args);
    SinglePairMaps(d, args);
    ExchangeReading(v, a, b);
  }

  lemma ExchangeReading(v: seq<Cx>, a: nat, b: nat)
    requires a < |v| && b < |v|
    ensures MapsInto(Exchange(|v|, a, b), |v|)
    ensures Reindex(v, Exchange(|v|, a, b)) == seq(|v|, j requires 0 <= j < |v| => v[Swapped(j, a, b)])
  {
  }

  /** The first pair decides the index errors of both loops: position
      2·q0 + 1 is checked first, and 2·q1 only after it. */
  lemma FirstPairErrors(qubits: Matrix, args: seq<int>)
    requires IsMat(qubits, |qubits|, Cols(qubits)) && Cols(qubits) != 1 && Cols(qubits) >= |qubits|
    requires |args| >= 2
    ensures var d := |qubits|;
      !InAxis(2 * args[0] + 1, d) || !InAxis(2 * args[1], d) ==>
        AppliedSwapGate(qubits, args) == Err(IndexError) && CorrectedSwapGate(qubits, args) == Err(IndexError)
  {
    var d := |qubits|;
    hide *;
    WrittenSwapGate(qubits, args);
    CorrectedSwapsPermute(qubits, args);
    FirstPairMaps(d, args);
  }

  lemma FirstPairMaps(d: nat, args: seq<int>)
    requires |args| >= 2
    ensures !InAxis(2 * args[0] + 1, d) || !InAxis(2 * args[1], d) ==>
      WrittenMaps(Straight(d), Straight(d), args, 0) == Err(IndexError) &&
      SwapMap(Straight(d), args, 0) == Err(IndexError)
  {
  }

  /** A column of more than one row cannot take the product with the d×d
      swapping matrix: the first pair in range ends the call with numpy's
      shape error. */
  lemma ColumnShapeError(qubits: Matrix, args: seq<int>)
    requires IsMat(qubits, |qubits|, 1) && |qubits| >= 2 && |args| >= 2
    requires InAxis(2 * args[0] + 1, |qubits|) && InAxis(2 * args[1], |qubits|)
    ensures AppliedSwapGate(qubits, args) == Err(ShapeError)
  {
    var d := |qubits|;
    var a, b := Wrap(2 * args[0] + 1, d), Wrap(2 * args[1], d);
    IdentityEntry(d, a, a);
    IdentityEntry(d, b, b);
    assert Locate(Identity(d), args[0], args[1]) == Ok(Swap(a, b));
  }

  /* ---------------------------------------------------------------------
     No arguments: the block swap
     --------------------------------------------------------------------- */

  /** The position the block swap `swap_gate ⊗ I(k)` sends i to: the second
      and third quarters of the 4·k positions change places. */
  function BlockSwapIndex(i: int, k: nat): int
  {
    if k <= i < 2 * k then i + k
    else if 2 * k <= i < 3 * k then i - k
    else i
  }

  /** The same position through the quarter i / k and the offset i % k. */
  lemma BlockSwapQuarters(i: int, k: nat)
    requires k > 0 && 0 <= i < 4 * k
    ensures 0 <= i / k < 4
    ensures BlockSwapIndex(i, k) == Swapped(i / k, 1, 2) * k + i % k
  {
    var q := if i < k then 0 else if i < 2 * k then 1 else if i < 3 * k then 2 else 3;
    DivModUnique(i, k, q, i - q * k);
  }

  /** `np.kron(swap_gate, np.identity(k))` is the permutation matrix of the
      quarter exchange, and that exchange undoes itself. */
  lemma KronSwapPermutation(k: nat)
    requires k > 0
    ensures Shaped(SwapMatrix) && Shaped(Identity(k))
    ensures forall i :: 0 <= i < 4 * k ==> Blocked(Exchange(4, 1, 2), k)[i] == BlockSwapIndex(i, k)
    ensures IsInvolution(4 * k, Blocked(Exchange(4, 1, 2), k))
    ensures Kron(SwapMatrix, Identity(k)) == Permutation(4 * k, Blocked(Exchange(4, 1, 2), k))
  {
    SwapIsTransposition();
    KronPermutation(4, Exchange(4, 1, 2), k);
    forall i | 0 <= i < 4 * k
      ensures Blocked(Exchange(4, 1, 2), k)[i] == BlockSwapIndex(i, k)
    {
      BlockSwapQuarters(i, k);
      DivBelow(i, 4, k);
    }
  }

  /** The no-argument branch on a row of 4·k entries exchanges its second
      and third quarters; any other length is a shape error. */
  lemma BlockSwapReads(v: seq<Cx>)
    ensures |v| % 4 != 0 ==> BlockSwapRow(v) == Err(ShapeError)
    ensures |v| % 4 == 0 ==>
      BlockSwapRow(v) == Ok(seq(|v|, j requires 0 <= j < |v| => v[BlockSwapIndex(j, |v| / 4)]))
  {
    if |v| % 4 == 0 && |v| > 0 {
      var k := |v| / 4;
      assert |v| == 4 * k;
      var e := Blocked(Exchange(4, 1, 2), k);
      KronSwapPermutation(k);
      VecMatInvolution(v, e);
      assert seq(|v|, j requires 0 <= j < |v| => v[e[j]]) ==
        seq(|v|, j requires 0 <= j < |v| => v[BlockSwapIndex(j, k)]);
    }
  }

  /** The gate with no arguments on a matrix: the diagonal with its second
      and third quarters exchanged, which needs a dimension divisible by 4. */
  lemma NoArgumentSwap(qubits: Matrix)
    requires IsMat(qubits, |qubits|, Cols(qubits)) && Cols(qubits) != 1 && Cols(qubits) >= |qubits|
    ensures var d, v := |qubits|, RealDiagonal(qubits);
      AppliedSwapGate(qubits, []) ==
        if d % 4 != 0 then Err(ShapeError)
        else Ok(Diag(seq(d, j requires 0 <= j < d => v[BlockSwapIndex(j, d / 4)])))
  {
    BlockSwapReads(RealDiagonal(qubits));
  }

  /* ---------------------------------------------------------------------
     The corrected loop on pairwise distinct positions
     --------------------------------------------------------------------- */

  /** Both positions of pair t lie on the axis of length d. */
  predicate PairInAxis(args: seq<int>, t: int, d: nat)
    requires 0 <= t < |args| / 2
  {
    InAxis(2 * args[2 * t] + 1, d) && InAxis(2 * args[2 * t + 1], d)
  }

  /** The position 2·q0 + 1 of pair t, and the position 2·q1. */
  function FirstPosition(args: seq<int>, t: int, d: nat): (a: nat)
    requires 0 <= t < |args| / 2 && PairInAxis(args, t, d)
    ensures a < d
  {
    Wrap(2 * args[2 * t] + 1, d)
  }

  function SecondPosition(args: seq<int>, t: int, d: nat): (b: nat)
    requires 0 <= t < |args| / 2 && PairInAxis(args, t, d)
    ensures b < d
  {
    Wrap(2 * args[2 * t + 1], d)
  }

  /** Every pair is in range and no position is named twice, the
      condition the documentation places on the arguments. */
  predicate DistinctPairs(args: seq<int>, d: nat)
  {
    (forall t :: 0 <= t < |args| / 2 ==> PairInAxis(args, t, d)) &&
    forall t, u :: 0 <= t < |args| / 2 && 0 <= u < |args| / 2 ==>
      FirstPosition(args, t, d) != SecondPosition(args, u, d) &&
      (t != u ==> FirstPosition(args, t, d) != FirstPosition(args, u, d) &&
                  SecondPosition(args, t, d) != SecondPosition(args, u, d))
  }

  /** Position i is named by pair t0 or a later one. */
  predicate Listed(args: seq<int>, d: nat, t0: int, i: int)
    requires DistinctPairs(args, d)
  {
    exists u :: t0 <= u < |args| / 2 && 0 <= u && (FirstPosition(args, u, d) == i || SecondPosition(args, u, d) == i)
  }

  /** The positions of pair t are named by no later pair. */
  lemma LaterPairsElsewhere(args: seq<int>, d: nat, t: int)
    requires DistinctPairs(args, d) && 0 <= t < |args| / 2
    ensures !Listed(args, d, t + 1, FirstPosition(args, t, d))
    ensures !Listed(args, d, t + 1, SecondPosition(args, t, d))
    ensures FirstPosition(args, t, d) != SecondPosition(args, t, d)
  {
  }

  /** A position named by no pair from t on is named by none from t + 1 on
      and is neither position of pair t. */
  lemma UnlistedStep(args: seq<int>, d: nat, t: int, i: int)
    requires DistinctPairs(args, d) && 0 <= t < |args| / 2 && !Listed(args, d, t, i)
    ensures !Listed(args, d, t + 1, i)
    ensures i != FirstPosition(args, t, d) && i != SecondPosition(args, t, d)
  {
  }

  /** The positions of pair t and of every later pair are fixed points of
      p. */
  predicate FixedFrom(p: seq<int>, args: seq<int>, t: nat)
    requires DistinctPairs(args, |p|)
  {
    forall u :: t <= u < |args| / 2 ==>
      p[FirstPosition(args, u, |p|)] == FirstPosition(args, u, |p|) &&
      p[SecondPosition(args, u, |p|)] == SecondPosition(args, u, |p|)
  }

  /** Exchanging the positions of pair t keeps the later pairs' positions
      fixed. */
  lemma LaterPairsStayFixed(p: seq<int>, args: seq<int>, t: nat)
    requires DistinctPairs(args, |p|) && t < |args| / 2 && FixedFrom(p, args, t)
    ensures var a, b := FirstPosition(args, t, |p|), SecondPosition(args, t, |p|);
      FixedFrom(p[a := b][b := a], args, t + 1)
  {
  }

  /** A pair in range whose two positions are both still fixed is
      accepted. */
  lemma PairAtFixed(p: seq<int>, args: seq<int>, t: nat)
    requires t < |args| / 2 && PairInAxis(args, t, |p|)
    requires p[FirstPosition(args, t, |p|)] == FirstPosition(args, t, |p|)
    requires p[SecondPosition(args, t, |p|)] == SecondPosition(args, t, |p|)
    ensures PairAt(p, args[2 * t], args[2 * t + 1]) ==
      Ok(Swap(FirstPosition(args, t, |p|), SecondPosition(args, t, |p|)))
  {
  }

  /** The exchange the corrected loop makes for pair t. */
  function Accepted(p: seq<int>, args: seq<int>, t: nat): (q: seq<int>)
    requires DistinctPairs(args, |p|) && t < |args| / 2
    ensures |q| == |p|
  {
    var a, b := FirstPosition(args, t, |p|), SecondPosition(args, t, |p|);
    p[a := b][b := a]
  }

  /** One pair of the corrected loop on distinct positions: it is
      accepted, the later pairs' positions stay fixed, the pair's own two
      positions are exchanged and named by no later pair, and a position
      no pair from t on names is untouched. */
  lemma DistinctStep(p: seq<int>, args: seq<int>, t: nat)
    requires IsInvolution(|p|, p) && DistinctPairs(args, |p|) && t < |args| / 2 && FixedFrom(p, args, t)
    ensures var p', a, b := Accepted(p, args, t), FirstPosition(args, t, |p|), SecondPosition(args, t, |p|);
      IsInvolution(|p|, p') && SwapMap(p, args, t) == SwapMap(p', args, t + 1) &&
      FixedFrom(p', args, t + 1) &&
      !Listed(args, |p|, t + 1, a) && !Listed(args, |p|, t + 1, b) && p'[a] == b && p'[b] == a
    ensures forall i :: 0 <= i < |p| && !Listed(args, |p|, t, i) ==>
      !Listed(args, |p|, t + 1, i) && Accepted(p, args, t)[i] == p[i]
  {
    var a, b := FirstPosition(args, t, |p|), SecondPosition(args, t, |p|);
    PairAtFixed(p, args, t);
    FollowInvolution(|p|, p, Swap(a, b));
    LaterPairsStayFixed(p, args, t);
    LaterPairsElsewhere(args, |p|, t);
    forall i | 0 <= i < |p| && !Listed(args, |p|, t, i)
      ensures !Listed(args, |p|, t + 1, i) && Accepted(p, args, t)[i] == p[i]
    {
      UnlistedStep(args, |p|, t, i);
    }
  }

  lemma SwapMapDone(p: seq<int>, args: seq<int>, t: nat)
    requires IsInvolution(|p|, p) && t >= |args| / 2
    ensures SwapMap(p, args, t) == Ok(p)
  {
  }

  /** The corrected loop on distinct positions accepts every pair and
      leaves every position no pair names where it was. */
  lemma {:induction false} SwapMapKeeps(p: seq<int>, args: seq<int>, t: nat)
    requires IsInvolution(|p|, p) && DistinctPairs(args, |p|) && t <= |args| / 2 && FixedFrom(p, args, t)
    ensures SwapMap(p, args, t).Ok?
    ensures var q := SwapMap(p, args, t).value;
      |q| == |p| && forall i :: 0 <= i < |p| && !Listed(args, |p|, t, i) ==> q[i] == p[i]
    decreases |args| / 2 - t
  {
    hide *;
    if t < |args| / 2 {
      DistinctStep(p, args, t);
      SwapMapKeeps(Accepted(p, args, t), args, t + 1);
    } else {
      SwapMapDone(p, args, t);
    }
  }

  /** q exchanges the two positions of pair t and of every later pair. */
  predicate Exchanges(q: seq<int>, args: seq<int>, t: nat)
    requires DistinctPairs(args, |q|)
  {
    forall u :: t <= u < |args| / 2 ==>
      q[FirstPosition(args, u, |q|)] == SecondPosition(args, u, |q|) &&
      q[SecondPosition(args, u, |q|)] == FirstPosition(args, u, |q|)
  }

  lemma ExchangesStep(q: seq<int>, args: seq<int>, t: nat)
    requires DistinctPairs(args, |q|) && t < |args| / 2 && Exchanges(q, args, t + 1)
    requires q[FirstPosition(args, t, |q|)] == SecondPosition(args, t, |q|)
    requires q[SecondPosition(args, t, |q|)] == FirstPosition(args, t, |q|)
    ensures Exchanges(q, args, t)
  {
  }

  /** On pairwise distinct positions the corrected loop accepts every pair,
      and the map it ends with exchanges the two positions of each pair. */
  lemma {:induction false} SwapMapDistinct(p: seq<int>, args: seq<int>, t: nat)
    requires IsInvolution(|p|, p) && DistinctPairs(args, |p|) && t <= |args| / 2 && FixedFrom(p, args, t)
    ensures SwapMap(p, args, t).Ok? && |SwapMap(p, args, t).value| == |p|
    ensures Exchanges(SwapMap(p, args, t).value, args, t)
    decreases |args| / 2 - t, 1
  {
    SwapMapKeeps(p, args, t);
    if t < |args| / 2 {
      DistinctPairStep(p, args, t);
    } else {
      SwapMapDone(p, args, t);
      assert Exchanges(p, args, t);
    }
  }

  /** The inductive step of SwapMapDistinct: pair t is exchanged, and what
      follows exchanges the later pairs without touching pair t again. */
  lemma {:induction false} DistinctPairStep(p: seq<int>, args: seq<int>, t: nat)
    requires IsInvolution(|p|, p) && DistinctPairs(args, |p|) && t < |args| / 2 && FixedFrom(p, args, t)
    ensures SwapMap(p, args, t).Ok? && |SwapMap(p, args, t).value| == |p|
    ensures Exchanges(SwapMap(p, args, t).value, args, t)
    decreases |args| / 2 - t, 0
  {
    var d := |p|;
    var a, b := FirstPosition(args, t, d), SecondPosition(args, t, d);
    PairsInAxis(args, d);
    hide *;
    var p' := Accepted(p, args, t);
    DistinctStep(p, args, t);
    SwapMapDistinct(p', args, t + 1);
    SwapMapKeeps(p', args, t + 1);
    var q := SwapMap(p', args, t + 1).value;
    assert |q| == d && SwapMap(p, args, t).value == q;
    assert q[a] == p'[a] == b && q[b] == p'[b] == a;
    ExchangesStep(q, args, t);
  }

  lemma PairsInAxis(args: seq<int>, d: nat)
    requires DistinctPairs(args, d)
    ensures forall u :: 0 <= u < |args| / 2 ==> PairInAxis(args, u, d)
  {
  }

  /** The corrected gate on pairwise distinct positions: the diagonal with
      the two entries of every pair exchanged and every other entry kept. */
  lemma CorrectedSwapsExchange(qubits: Matrix, args: seq<int>)
    requires IsMat(qubits, |qubits|, Cols(qubits)) && Cols(qubits) != 1 && Cols(qubits) >= |qubits|
    requires |args| > 0 && DistinctPairs(args, |qubits|)
    ensures var d, v, r := |qubits|, RealDiagonal(qubits), CorrectedSwapGate(qubits, args);
      r.Ok? && IsMat(r.value, d, d) && IsDiagonal(r.value) &&
      (forall u :: 0 <= u < |args| / 2 ==>
        r.value[FirstPosition(args, u, d)][FirstPosition(args, u, d)] == v[SecondPosition(args, u, d)] &&
        r.value[SecondPosition(args, u, d)][SecondPosition(args, u, d)] == v[FirstPosition(args, u, d)]) &&
      (forall i :: 0 <= i < d && !Listed(args, d, 0, i) ==> r.value[i][i] == v[i])
  {
    var d, v := |qubits|, RealDiagonal(qubits);
    CorrectedSwapsPermute(qubits, args);
    SwapMapDistinct(Straight(d), args, 0);
    SwapMapKeeps(Straight(d), args, 0);
    var q := SwapMap(Straight(d), args, 0).value;
    DiagReindex(v, q);
  }

  /** The diagonal entries of a row read through a map laid on a diagonal. */
  lemma DiagReindex(v: seq<Cx>, q: seq<int>)
    requires MapsInto(q, |v|) && |q| == |v|
    ensures forall i :: 0 <= i < |v| ==> Diag(Reindex(v, q))[i][i] == v[q[i]]
  {
  }
}
