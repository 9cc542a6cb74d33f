/** Integer facts shared by the matrix and factorization models: powers and
    the uniqueness of Euclidean division. */
module Arith {

  function Pow(b: int, e: nat): int
  {
    if e == 0 then 1 else b * Pow(b, e - 1)
  }

  /** `qubits_to_bits`: the dimension 2^n of an n-qubit register. */
  function Pow2(n: nat): (r: nat)
    ensures r >= 1
  {
    if n == 0 then 1 else 2 * Pow2(n - 1)
  }

  /** One more qubit doubles the dimension. */
  lemma Pow2Step(n: nat)
    requires n >= 1
    ensures Pow2(n) == 2 * Pow2(n - 1) && Pow2(n) >= 2
  {
  }

  lemma {:induction false} Pow2Grows(a: nat, b: nat)
    requires a < b
    ensures Pow2(a) < Pow2(b)
  {
    if b != a + 1 {
      Pow2Grows(a, b - 1);
    }
  }

  lemma {:induction false} Pow2Add(a: nat, b: nat)
    ensures Pow2(a + b) == Pow2(a) * Pow2(b)
  {
    if a > 0 {
      Pow2Add(a - 1, b);
    }
  }

  /** v is a power of two. */
  ghost predicate IsPow2(v: int)
  {
    exists j: nat :: Pow2(j) == v
  }

  lemma Pow2Monotone(a: nat, b: nat)
    requires a <= b
    ensures Pow2(a) <= Pow2(b)
  {
    if a < b {
      Pow2Grows(a, b);
    }
  }

  /** A quotient and remainder are determined by the dividend. */
  lemma DivModUnique(i: int, n: int, q: int, r: int)
    requires n > 0 && 0 <= r < n && i == q * n + r
    ensures i / n == q && i % n == r
  {
    var q', r' := i / n, i % n;
    assert i == q' * n + r';
    assert (q - q') * n == r' - r;
    if q > q' {
      assert (q - q') * n >= n by {
        MulAtLeast(q - q', n);
      }
      assert false;
    } else if q < q' {
      assert (q' - q) * n >= n by {
        MulAtLeast(q' - q, n);
      }
      assert false;
    }
  }

  /** j has quotient q and remainder r exactly when j = q·n + r. */
  lemma DivModIff(j: int, n: int, q: int, r: int)
    requires n > 0 && 0 <= r < n
    ensures (j / n == q && j % n == r) <==> j == q * n + r
  {
    if j == q * n + r {
      DivModUnique(j, n, q, r);
    }
  }

  lemma MulAtLeast(k: int, n: int)
    requires k >= 1 && n > 0
    ensures k * n >= n
  {
  }

  /** Division of an index below m*n by n lands below m. */
  lemma DivBelow(i: int, m: int, n: int)
    requires n > 0 && 0 <= i < m * n
    ensures 0 <= i / n < m
  {
    var q, r := i / n, i % n;
    assert i == q * n + r;
    if q >= m {
      MulMonotone(m, q, n);
    }
    if q < 0 {
      MulAtLeast(-q, n);
    }
  }

  /** The row-major position of entry (high, low) in a block of rows of
      width n. */
  function Join(high: int, n: int, low: int): int
  {
    high * n + low
  }

  /** Row-major positions stay inside an m×n block. */
  lemma IndexBound(a: int, m: int, b: int, n: int)
    requires 0 <= a < m && 0 <= b < n
    ensures 0 <= a * n + b < m * n
  {
    MulMonotone(a, m - 1, n);
    assert (m - 1) * n == m * n - n;
  }

  /** Row-major positions nest: a block of blocks is one flat block. */
  lemma JoinNests(m: int, a: int, n: int, b: int, p: int, c: int)
    ensures m * (n * p) == m * n * p
    ensures a * (n * p) + (b * p + c) == (a * n + b) * p + c
  {
    assert a * (n * p) == (a * n) * p;
    assert (a * n + b) * p == (a * n) * p + b * p;
  }

  lemma MulMonotone(a: int, b: int, n: int)
    requires a <= b && n > 0
    ensures a * n <= b * n
  {
  }

  /** The block position and offset of an index in a two-block axis. */
  lemma HalfSplit(i: int, h: int)
    requires h > 0 && 0 <= i < 2 * h
    ensures i < h ==> i / h == 0 && i % h == i
    ensures i >= h ==> i / h == 1 && i % h == i - h
  {
    if i < h {
      DivModUnique(i, h, 0, i);
    } else {
      DivModUnique(i, h, 1, i - h);
    }
  }
}
