/** `ShorFactoringAlgorithmClassical`: the factors 2 and 5 are stripped,
    then up to `limit` attempts each draw a guess, ask the period function
    for its period and, on an even period, split off the gcds of
    guess^(period/2) ± 1 with the cofactor. Every return path appends the
    cofactor, removes the 1s and sorts.

    The random guess and the period function are the two oracles of the
    model; the cofactor is kept as an exact integer where the source holds
    it in a float. */
module Factoring {
  import opened Arith
  import opened Numbers
  import opened Results

  /** `draw(i, num)` stands for the value `randint(3, num - 1)` is reduced
      from at attempt i, and `period(num, guess)` for `func(num, guess)`,
      with None for the ValueError it may raise. */
  datatype Oracles = Oracles(draw: (nat, int) -> int, period: (int, int) -> Option<nat>)

  /** The returned factorization and how many times the period function
      was called. */
  datatype Outcome = Outcome(factors: seq<int>, calls: nat)

  // ---------------------------------------------------------------------
  // Lists of factors

  function Product(s: seq<int>): int
  {
    if |s| == 0 then 1 else s[0] * Product(s[1..])
  }

  lemma {:induction false} ProductConcat(s: seq<int>, t: seq<int>)
    ensures Product(s + t) == Product(s) * Product(t)
  {
    if |s| > 0 {
      assert (s + t)[0] == s[0] && (s + t)[1..] == s[1..] + t;
      ProductConcat(s[1..], t);
      var p, q := Product(s[1..]), Product(t);
      assert Product(s + t) == s[0] * (p * q);
      assert Product(s) == s[0] * p;
      assert s[0] * (p * q) == (s[0] * p) * q;
    } else {
      assert s + t == t;
    }
  }

  lemma SplitAt(t: seq<int>, k: int)
    requires 0 <= k < |t|
    ensures t == t[..k] + [t[k]] + t[k + 1..]
  {
  }

  lemma Rearrange(p: int, x: int, q: int)
    ensures p * x * q == x * (p * q)
  {
  }

  /** Taking out the entry at index k. */
  lemma RemoveAt(t: seq<int>, k: int)
    requires 0 <= k < |t|
    ensures multiset(t[..k] + t[k + 1..]) == multiset(t) - multiset{t[k]}
    ensures Product(t) == t[k] * Product(t[..k] + t[k + 1..])
  {
    var a, b, x := t[..k], t[k + 1..], t[k];
    SplitAt(t, k);
    assert Product([x]) == x;
    hide Product;
    ProductConcat(a + [x], b);
    ProductConcat(a, [x]);
    ProductConcat(a, b);
    Rearrange(Product(a), x, Product(b));
  }

  /** The product depends only on the multiset of entries. */
  lemma {:induction false} ProductMultiset(s: seq<int>, t: seq<int>)
    requires multiset(s) == multiset(t)
    ensures Product(s) == Product(t)
    decreases |s|
  {
    if |s| > 0 {
      assert s == [s[0]] + s[1..];
      assert multiset(s[1..]) == multiset(s) - multiset{s[0]};
      assert s[0] in multiset(t);
      var k :| 0 <= k < |t| && t[k] == s[0];
      RemoveAt(t, k);
      ProductMultiset(s[1..], t[..k] + t[k + 1..]);
    } else {
      assert t == [];
    }
  }

  function Repeat(x: int, n: nat): (r: seq<int>)
    ensures |r| == n
  {
    seq(n, _ => x)
  }

  /** n copies of x multiply to x^n, and the multiset holds x n times. */
  lemma {:induction false} RepeatCounts(x: int, n: nat)
    ensures Product(Repeat(x, n)) == Pow(x, n)
    ensures multiset(Repeat(x, n))[x] == n
    ensures forall y :: y != x ==> multiset(Repeat(x, n))[y] == 0
  {
    if n > 0 {
      RepeatCounts(x, n - 1);
      assert Repeat(x, n) == [x] + Repeat(x, n - 1);
    }
  }

  predicate Sorted(s: seq<int>)
  {
    forall i, j :: 0 <= i < j < |s| ==> s[i] <= s[j]
  }

  /** x put in front of the first entry it does not exceed. */
  function Insert(x: int, s: seq<int>): (r: seq<int>)
    requires Sorted(s)
    ensures Sorted(r) && multiset(r) == multiset(s) + multiset{x}
    ensures |r| == |s| + 1 && (r[0] == x || (|s| > 0 && r[0] == s[0]))
  {
    if |s| == 0 || x <= s[0] then [x] + s
    else
      var t := Insert(x, s[1..]);
      assert s == [s[0]] + s[1..];
      assert s[0] <= t[0];
      [s[0]] + t
  }

  /** `sorted(factorization)`: a sorted rearrangement. */
  function Sort(s: seq<int>): (r: seq<int>)
    ensures Sorted(r) && multiset(r) == multiset(s)
  {
    if |s| == 0 then []
    else
      assert s == [s[0]] + s[1..];
      Insert(s[0], Sort(s[1..]))
  }

  /** A sorted list is its own sort. */
  lemma {:induction false} SortSorted(s: seq<int>)
    requires Sorted(s)
    ensures Sort(s) == s
  {
    if |s| > 0 {
      SortSorted(s[1..]);
      assert s == [s[0]] + s[1..];
    }
  }

  /** `while 1 in factorization: factorization.remove(1)`. */
  function WithoutOnes(s: seq<int>): (r: seq<int>)
    ensures multiset(r)[1] == 0
    ensures forall x :: x != 1 ==> multiset(r)[x] == multiset(s)[x]
    ensures Product(r) == Product(s)
  {
    if |s| == 0 then []
    else
      assert s == [s[0]] + s[1..];
      if s[0] == 1 then WithoutOnes(s[1..]) else [s[0]] + WithoutOnes(s[1..])
  }

  /** Dropping the 1s distributes over concatenation. */
  lemma {:induction false} WithoutOnesConcat(s: seq<int>, t: seq<int>)
    ensures WithoutOnes(s + t) == WithoutOnes(s) + WithoutOnes(t)
  {
    if |s| > 0 {
      var u := s + t;
      assert u[0] == s[0] && u[1..] == s[1..] + t;
      WithoutOnesConcat(s[1..], t);
      var a, b := WithoutOnes(s[1..]), WithoutOnes(t);
      hide Product;
      if s[0] == 1 {
        assert WithoutOnes(u) == WithoutOnes(u[1..]);
        assert WithoutOnes(s) == a;
      } else {
        assert WithoutOnes(u) == [s[0]] + WithoutOnes(u[1..]);
        assert WithoutOnes(s) == [s[0]] + a;
        assert [s[0]] + (a + b) == ([s[0]] + a) + b;
      }
    } else {
      assert s + t == t;
    }
  }

  /** A list without 1s is left as it is. */
  lemma {:induction false} WithoutOnesKeeps(s: seq<int>)
    requires forall k :: 0 <= k < |s| ==> s[k] != 1
    ensures WithoutOnes(s) == s
  {
    if |s| > 0 {
      WithoutOnesKeeps(s[1..]);
      assert s == [s[0]] + s[1..];
    }
  }

  /** Every entry is positive. */
  predicate Positive(s: seq<int>)
  {
    forall k :: 0 <= k < |s| ==> s[k] >= 1
  }

  /** Dropping the 1s and sorting keeps the product. */
  lemma FinishProduct(f: seq<int>, num: int)
    ensures Product(Sort(WithoutOnes(f + [num]))) == Product(f) * num
  {
    var w := WithoutOnes(f + [num]);
    ProductMultiset(Sort(w), w);
    ProductConcat(f, [num]);
    assert Product([num]) == num;
  }

  /** What is left after dropping the 1s of a positive list is at least 2,
      and the cofactor adds one copy of itself. */
  lemma FinishEntries(f: seq<int>, num: int)
    requires Positive(f) && num >= 1
    ensures var r := Sort(WithoutOnes(f + [num]));
      (forall k :: 0 <= k < |r| ==> r[k] >= 2) &&
      forall x :: x != 1 ==> multiset(r)[x] == multiset(f)[x] + multiset{num}[x]
  {
    var r := Sort(WithoutOnes(f + [num]));
    hide Product, Sort, WithoutOnes;
    assert multiset(f + [num]) == multiset(f) + multiset{num};
    forall k | 0 <= k < |r|
      ensures r[k] >= 2
    {
      assert r[k] in multiset(r);
      assert r[k] in f + [num];
    }
  }

  /** A cofactor that is odd, or not a multiple of 5, adds no 2 or no 5. */
  lemma FinishCounts(f: seq<int>, num: int)
    requires Positive(f) && num >= 1
    ensures num % 2 == 1 ==> multiset(Sort(WithoutOnes(f + [num])))[2] == multiset(f)[2]
    ensures num % 5 != 0 ==> multiset(Sort(WithoutOnes(f + [num])))[5] == multiset(f)[5]
  {
    var r := Sort(WithoutOnes(f + [num]));
    FinishEntries(f, num);
    hide *;
    if num % 2 == 1 {
      assert num != 2;
      assert multiset(r)[2] == multiset(f)[2] + multiset{num}[2];
    }
    if num % 5 != 0 {
      assert num != 5;
      assert multiset(r)[5] == multiset(f)[5] + multiset{num}[5];
    }
  }

  /** The common ending of every return path: the cofactor appended, the
      1s removed, the list sorted. */
  function Finish(f: seq<int>, num: int): (r: seq<int>)
    requires Positive(f) && num >= 1
    ensures Sorted(r) && Product(r) == Product(f) * num
    ensures forall k :: 0 <= k < |r| ==> r[k] >= 2
    ensures forall x :: x != 1 ==> multiset(r)[x] == multiset(f)[x] + multiset{num}[x]
    ensures num % 2 == 1 ==> multiset(r)[2] == multiset(f)[2]
    ensures num % 5 != 0 ==> multiset(r)[5] == multiset(f)[5]
  {
    FinishProduct(f, num);
    FinishEntries(f, num);
    FinishCounts(f, num);
    Sort(WithoutOnes(f + [num]))
  }

  // ---------------------------------------------------------------------
  // One attempt

  lemma PowPositive(g: int, e: nat)
    requires g >= 1
    ensures Pow(g, e) >= 1
  {
    if e > 0 {
      PowPositive(g, e - 1);
      MulAtLeast(g, Pow(g, e - 1));
    }
  }

  /** One gcd pull on num: the divisor gcd(y, num) and what dividing by
      it leaves. */
  function Take(y: nat, num: int): (r: (int, int))
    requires num >= 1
    ensures r.0 == Gcd(y, num) && Divides(r.0, num)
    ensures r.1 >= 1 && Divides(r.1, num) && r.0 * r.1 == num
  {
    GcdDivides(y, num);
    CofactorDivides(Gcd(y, num), num);
    (Gcd(y, num), num / Gcd(y, num))
  }

  /** The body of an attempt whose half power x = guess^(period/2) splits
      num: gcd(x + 1, num) and gcd(x - 1, num) are appended, then num is
      divided by the first and by the gcd of x - 1 with what that leaves;
      a period of 2 also pulls gcd(guess, num) twice. */
  function Pull(f: seq<int>, num: int, g: nat, period: nat): (r: (seq<int>, int))
    requires num >= 1 && g >= 1
    ensures |r.0| == |f| + (if period == 2 then 4 else 2) && r.0[..|f|] == f
  {
    PowPositive(g, period / 2);
    var x: nat := Pow(g, period / 2);
    var (g1, n1) := Take(x + 1, num);
    var (_, n2) := Take(x - 1, n1);
    var f2 := f + [g1, Gcd(x - 1, num)];
    if period == 2 then
      var (c1, n3) := Take(g, n2);
      var (c2, n4) := Take(g, n3);
      (f2 + [c1, c2], n4)
    else (f2, n2)
  }

  /** The cofactor as the main loop sees it: positive, odd, not a multiple
      of 5. */
  predicate Cofactor(num: int)
  {
    num >= 1 && num % 2 == 1 && num % 5 != 0
  }

  lemma DivisorCofactor(d: int, num: int)
    requires Cofactor(num) && Divides(d, num)
    ensures Cofactor(d)
  {
    DivisorAvoids(d, num, 2);
    DivisorAvoids(d, num, 5);
  }

  /** Divisors of the cofactor appended to a positive list keep it
      positive and add no 2 and no 5. */
  lemma Extend(f: seq<int>, e: seq<int>, num: int)
    requires Positive(f) && Cofactor(num)
    requires forall k :: 0 <= k < |e| ==> Divides(e[k], num)
    ensures Positive(f + e)
    ensures multiset(f + e)[2] == multiset(f)[2] && multiset(f + e)[5] == multiset(f)[5]
  {
    forall k | 0 <= k < |e|
      ensures Cofactor(e[k])
    {
      DivisorCofactor(e[k], num);
    }
    assert 2 !in e && 5 !in e;
    assert multiset(f + e) == multiset(f) + multiset(e);
  }

  lemma ProductPair(f: seq<int>, a: int, b: int)
    ensures Product(f + [a, b]) == Product(f) * a * b
  {
    assert Product([a, b]) == a * b by {
      assert [a, b][1..] == [b] && [b][1..] == [];
      assert Product([b]) == b;
      assert Product([a, b]) == a * Product([b]);
    }
    hide Product;
    ProductConcat(f, [a, b]);
    Associate(Product(f), a, b);
  }

  lemma Associate(p: int, a: int, b: int)
    ensures p * (a * b) == p * a * b
  {
  }

  lemma Regroup(p: int, a: int, b: int, n: int)
    ensures p * a * b * n == p * (a * (b * n))
  {
  }

  /** The ±1 pull: the two gcds share no factor of the odd cofactor, so
      the second divisor, computed on what the first leaves, is the second
      value appended. The product of the list times the cofactor is kept,
      and what is left divides the cofactor. */
  lemma PullPair(f: seq<int>, num: int, x: nat)
    requires Cofactor(num) && x >= 1 && Positive(f)
    ensures var (g1, n1) := Take(x + 1, num);
      var n2 := Take(x - 1, n1).1;
      var f2 := f + [g1, Gcd(x - 1, num)];
      Cofactor(n2) && Divides(n2, num) && Positive(f2) &&
      Product(f2) * n2 == Product(f) * num &&
      multiset(f2)[2] == multiset(f)[2] && multiset(f2)[5] == multiset(f)[5]
  {
    hide Product, Gcd;
    var (g1, n1) := Take(x + 1, num);
    var (g2, n2) := Take(x - 1, n1);
    SequentialGcd(x, num);
    assert g2 == Gcd(x - 1, num);
    DividesTransitive(n2, n1, num);
    DividesTransitive(g2, n1, num);
    Extend(f, [g1, g2], num);
    ProductPair(f, g1, g2);
    Regroup(Product(f), g1, g2, n2);
    DivisorCofactor(n2, num);
  }

  /** The period-2 pull: gcd(guess, ·) taken twice in a row. */
  lemma PullTwice(f: seq<int>, num: int, g: nat)
    requires Cofactor(num) && Positive(f)
    ensures var (c1, n3) := Take(g, num);
      var (c2, n4) := Take(g, n3);
      var f4 := f + [c1, c2];
      Cofactor(n4) && Divides(n4, num) && Positive(f4) &&
      Product(f4) * n4 == Product(f) * num &&
      multiset(f4)[2] == multiset(f)[2] && multiset(f4)[5] == multiset(f)[5]
  {
    hide Product, Gcd;
    var (c1, n3) := Take(g, num);
    var (c2, n4) := Take(g, n3);
    DividesTransitive(c2, n3, num);
    DividesTransitive(n4, n3, num);
    Extend(f, [c1, c2], num);
    ProductPair(f, c1, c2);
    Regroup(Product(f), c1, c2, n4);
    DivisorCofactor(n4, num);
  }

  /** The values the pull appends first are the two ±1 gcds. */
  lemma PullEntries(f: seq<int>, num: int, g: nat, period: nat)
    requires num >= 1 && g >= 1
    ensures var r, x := Pull(f, num, g, period), Pow(g, period / 2);
      x >= 1 && r.0[|f|] == Gcd(x + 1, num) && r.0[|f| + 1] == Gcd(x - 1, num)
  {
    PowPositive(g, period / 2);
  }

  /** A pull with a period other than 2 is the ±1 pull alone. */
  lemma PullOther(f: seq<int>, num: int, g: nat, period: nat)
    requires Cofactor(num) && g >= 1 && Positive(f) && period != 2
    ensures var r := Pull(f, num, g, period);
      Cofactor(r.1) && Divides(r.1, num) && Positive(r.0) &&
      Product(r.0) * r.1 == Product(f) * num &&
      multiset(r.0)[2] == multiset(f)[2] && multiset(r.0)[5] == multiset(f)[5]
  {
    PowPositive(g, period / 2);
    PullPair(f, num, Pow(g, period / 2));
  }

  /** A pull with period 2 is the ±1 pull followed by the two guess pulls. */
  lemma PullTwo(f: seq<int>, num: int, g: nat)
    requires Cofactor(num) && g >= 1 && Positive(f)
    ensures var r := Pull(f, num, g, 2);
      Cofactor(r.1) && Divides(r.1, num) && Positive(r.0) &&
      Product(r.0) * r.1 == Product(f) * num &&
      multiset(r.0)[2] == multiset(f)[2] && multiset(r.0)[5] == multiset(f)[5]
  {
    assert Pow(g, 1) == g;
    var (g1, n1) := Take(g + 1, num);
    var n2 := Take(g - 1, n1).1;
    var f2 := f + [g1, Gcd(g - 1, num)];
    var (c1, n3) := Take(g, n2);
    var (c2, n4) := Take(g, n3);
    assert Pull(f, num, g, 2) == (f2 + [c1, c2], n4);
    PullPair(f, num, g);
    hide *;
    PullTwice(f2, n2, g);
    DividesTransitive(n4, n2, num);
  }

  /** Every value the pull appends is the divisor it applies, so the
      product of the list times the cofactor is unchanged and the cofactor
      stays a divisor of what it was. */
  lemma PullSound(f: seq<int>, num: int, g: nat, period: nat)
    requires Cofactor(num) && g >= 1 && Positive(f)
    ensures var r := Pull(f, num, g, period);
      Cofactor(r.1) && Divides(r.1, num) && Positive(r.0) &&
      Product(r.0) * r.1 == Product(f) * num &&
      multiset(r.0)[2] == multiset(f)[2] && multiset(r.0)[5] == multiset(f)[5]
    ensures var r, x := Pull(f, num, g, period), Pow(g, period / 2);
      x >= 1 && r.0[|f|] == Gcd(x + 1, num) && r.0[|f| + 1] == Gcd(x - 1, num)
  {
    PullEntries(f, num, g, period);
    if period == 2 {
      PullTwo(f, num, g);
    } else {
      PullOther(f, num, g, period);
    }
  }

  /** The perfect-square exit appends the root twice and leaves 1. */
  lemma SquareSound(f: seq<int>, num: int)
    requires Cofactor(num) && Positive(f) && Isqrt(num) * Isqrt(num) == num
    ensures var k := Isqrt(num);
      k >= 1 && num / (k * k) == 1 && Positive(f + [k, k]) &&
      Product(f + [k, k]) * (num / (k * k)) == Product(f) * num &&
      multiset(f + [k, k])[2] == multiset(f)[2] && multiset(f + [k, k])[5] == multiset(f)[5]
  {
    var k := Isqrt(num);
    assert k >= 1;
    DividesProduct(k, k);
    Extend(f, [k, k], num);
    ProductPair(f, k, k);
    Regroup(Product(f), k, k, 1);
    DivModUnique(num, k * k, 1, 0);
  }

  /** `guess ** (period / 2)` overflows a double, which the source catches
      as an OverflowError and skips the attempt for: the first value that
      rounds to infinity is 2^1024 - 2^970. */
  predicate Overflows(g: int, period: nat)
  {
    Pow(g, period / 2) >= Pow2(1024) - Pow2(970)
  }

  /** Neither x + 1 nor x - 1 is a multiple of num. */
  predicate Splits(x: int, num: int)
    requires num > 0
  {
    (x + 1) % num != 0 && (x - 1) % num != 0
  }

  /** One more call of the period function on the way out. */
  function Calling(r: Outcome): (s: Outcome)
    ensures s.factors == r.factors && s.calls == r.calls + 1
  {
    Outcome(r.factors, r.calls + 1)
  }

  /** Attempts i, i + 1, …, limit - 1 of `for i in range(limit)`, with the
      list f and the cofactor num so far. The list times the cofactor is
      the same on every return path, and nothing the loop appends is a 2
      or a 5. */
  function Attempts(f: seq<int>, num: int, i: nat, limit: int, quick: bool, o: Oracles): (r: Outcome)
    requires Cofactor(num) && Positive(f)
    ensures Product(r.factors) == Product(f) * num
    ensures Sorted(r.factors) && forall k :: 0 <= k < |r.factors| ==> r.factors[k] >= 2
    ensures multiset(r.factors)[2] == multiset(f)[2] && multiset(r.factors)[5] == multiset(f)[5]
    ensures i >= limit ==> r.calls == 0
    ensures i < limit ==> r.calls <= limit - i
    decreases limit - i
  {
    if i >= limit then Outcome(Finish(f, num), 0)
    else if num == 1 then Outcome(Finish(f, num), 0)
    else if Isqrt(num) * Isqrt(num) == num then
      var k := Isqrt(num);
      SquareSound(f, num);
      Outcome(Finish(f + [k, k], num / (k * k)), 0)
    else if num - 1 < 3 then
      Attempts(f, num, i + 1, limit, quick, o)
    else
      var g := 3 + o.draw(i, num) % (num - 3);
      if !(g != num && g % num != 0) then
        Attempts(f, num, i + 1, limit, quick, o)
      else match o.period(num, g)
        case None => Calling(Attempts(f, num, i + 1, limit, quick, o))
        case Some(period) =>
          if period % 2 == 1 || Overflows(g, period) || !Splits(Pow(g, period / 2), num) then
            Calling(Attempts(f, num, i + 1, limit, quick, o))
          else
            PullSound(f, num, g, period);
            var (f', n') := Pull(f, num, g, period);
            if quick then Outcome(Finish(f', n'), 1)
            else Calling(Attempts(f', n', i + 1, limit, quick, o))
  }

  // ---------------------------------------------------------------------
  // The whole algorithm

  /** The strip phase: how many 2s, then how many 5s, and the cofactor
      left for the main loop. */
  datatype Stripped = Stripped(twos: nat, fives: nat, rest: int)

  lemma OddProduct(x: int, y: int)
    requires x % 2 == 1 && y % 2 == 1
    ensures (x * y) % 2 == 1
  {
    var p, q := x / 2, y / 2;
    assert x * y == (2 * p * q + p + q) * 2 + 1 by {
      assert x == 2 * p + 1 && y == 2 * q + 1;
    }
    DivModUnique(x * y, 2, 2 * p * q + p + q, 1);
  }

  lemma {:induction false} OddPower(e: nat)
    ensures Pow(5, e) % 2 == 1 && Pow(5, e) >= 1
  {
    if e > 0 {
      OddPower(e - 1);
      OddProduct(5, Pow(5, e - 1));
    }
  }

  /** `while num % 2 == 0` and then `while num % 5 == 0`, each appending
      the factor and dividing it out. */
  function StripPhase(num: int): (s: Stripped)
    requires num >= 1
    ensures Cofactor(s.rest)
    ensures num == Pow(2, s.twos) * Pow(5, s.fives) * s.rest
  {
    var (a, n1) := Strip(num, 2);
    var (b, n2) := Strip(n1, 5);
    StripPhaseSound(num, a, n1, b, n2);
    Stripped(a, b, n2)
  }

  lemma StripPhaseSound(num: int, a: nat, n1: int, b: nat, n2: int)
    requires n1 >= 1 && n1 % 2 != 0 && num == Pow(2, a) * n1
    requires n2 >= 1 && n2 % 5 != 0 && n1 == Pow(5, b) * n2
    ensures Cofactor(n2) && num == Pow(2, a) * Pow(5, b) * n2
  {
    OddPower(b);
    DividesProduct(n2, Pow(5, b));
    DivisorAvoids(n2, n1, 2);
    hide *;
    Associate(Pow(2, a), Pow(5, b), n2);
  }

  /** The list the strip phase builds: one 2 per factor of 2, then one 5
      per factor of 5. */
  function Prefix(s: Stripped): (r: seq<int>)
    ensures Positive(r) && Sorted(r)
    ensures forall k :: 0 <= k < |r| ==> r[k] != 1
  {
    Repeat(2, s.twos) + Repeat(5, s.fives)
  }

  lemma PrefixCounts(s: Stripped)
    ensures Product(Prefix(s)) == Pow(2, s.twos) * Pow(5, s.fives)
    ensures multiset(Prefix(s))[2] == s.twos && multiset(Prefix(s))[5] == s.fives
  {
    RepeatCounts(2, s.twos);
    RepeatCounts(5, s.fives);
    ProductConcat(Repeat(2, s.twos), Repeat(5, s.fives));
  }

  /** The strip phase finds the one split num = 2^a · 5^b · m whose m is
      neither even nor a multiple of 5. */
  lemma StripPhaseUnique(num: int, a: nat, b: nat, m: int)
    requires num >= 1 && Cofactor(m) && num == Pow(2, a) * Pow(5, b) * m
    ensures StripPhase(num) == Stripped(a, b, m)
  {
    OddPower(b);
    OddProduct(Pow(5, b), m);
    assert num == Pow(2, a) * (Pow(5, b) * m);
    assert Pow(5, b) * m >= 1 by {
      MulAtLeast(Pow(5, b), m);
    }
    StripUnique(num, 2, a, Pow(5, b) * m);
    StripUnique(Pow(5, b) * m, 5, b, m);
  }

  /** `ShorFactoringAlgorithmClassical(num, limit, func=…, quick_compute=…)`
      for a positive num (for 0 the strip loop never ends). The returned
      list multiplies back to num, is sorted, holds no 1, holds exactly
      the 2s and 5s the strip phase found, and the period function is
      called at most once per attempt. */
  function ShorClassical(num: int, limit: int, quick: bool, o: Oracles): (r: Outcome)
    requires num >= 1
    ensures Product(r.factors) == num
    ensures Sorted(r.factors) && forall k :: 0 <= k < |r.factors| ==> r.factors[k] >= 2
    ensures multiset(r.factors)[2] == StripPhase(num).twos
    ensures multiset(r.factors)[5] == StripPhase(num).fives
    ensures r.calls <= if limit <= 0 then 0 else limit
  {
    var s := StripPhase(num);
    PrefixCounts(s);
    Attempts(Prefix(s), s.rest, 0, limit, quick, o)
  }

  /** Finishing a list without 1s on a cofactor c ≠ 1 sorts c in; on a
      cofactor of 1 it only sorts. */
  lemma FinishKeeps(g: seq<int>, c: int)
    requires Positive(g) && c >= 1
    requires forall k :: 0 <= k < |g| ==> g[k] != 1
    ensures Finish(g, c) == Sort(if c == 1 then g else g + [c])
  {
    hide Product, Sort, Insert;
    WithoutOnesConcat(g, [c]);
    WithoutOnesKeeps(g);
    assert [c][1..] == [];
    if c == 1 {
      assert WithoutOnes([c]) == [];
      assert g + [] == g;
    } else {
      assert WithoutOnes([c]) == [c];
    }
  }

  /** A cofactor of 1 returns the strip phase's list at once, without a
      call of the period function. */
  lemma DoneExit(num: int, limit: int, quick: bool, o: Oracles)
    requires num >= 1 && StripPhase(num).rest == 1
    ensures ShorClassical(num, limit, quick, o) == Outcome(Prefix(StripPhase(num)), 0)
  {
    var p := Prefix(StripPhase(num));
    FinishKeeps(p, 1);
    SortSorted(p);
  }

  /** The square test fires before anything is drawn. */
  lemma AttemptsOnSquare(f: seq<int>, k: nat, i: nat, limit: int, quick: bool, o: Oracles)
    requires Positive(f) && Cofactor(k * k) && k >= 2 && i < limit
    ensures Attempts(f, k * k, i, limit, quick, o) == Outcome(Finish(f + [k, k], 1), 0)
  {
    IsqrtSquare(k * k, k);
    assert k * k >= 4 by {
      MulMonotone(2, k, k);
      MulMonotone(2, k, 2);
    }
    DivModUnique(k * k, k * k, 1, 0);
  }

  /** A cofactor k² returns at the first attempt with k appended twice,
      without a call of the period function. */
  lemma SquareExit(num: int, limit: int, quick: bool, o: Oracles, k: nat)
    requires num >= 1 && limit >= 1 && k >= 2 && StripPhase(num).rest == k * k
    ensures ShorClassical(num, limit, quick, o) == Outcome(Sort(Prefix(StripPhase(num)) + [k, k]), 0)
  {
    var s := StripPhase(num);
    var p := Prefix(s);
    var g := p + [k, k];
    assert Cofactor(k * k) && Positive(p);
    assert Positive(g) && forall j :: 0 <= j < |g| ==> g[j] != 1;
    assert ShorClassical(num, limit, quick, o) == Attempts(p, k * k, 0, limit, quick, o);
    hide *;
    AttemptsOnSquare(p, k, 0, limit, quick, o);
    FinishKeeps(g, 1);
  }

  /** With cofactor 3, `randint(3, 2)` fails at every attempt: the loop
      changes nothing and calls nothing. */
  lemma {:induction false} AttemptsOnThree(f: seq<int>, i: nat, limit: int, quick: bool, o: Oracles)
    requires Positive(f)
    ensures Attempts(f, 3, i, limit, quick, o) == Outcome(Finish(f, 3), 0)
    decreases limit - i
  {
    assert Isqrt(3) == 1 by {
      assert 1 * 1 <= 3 < 2 * 2;
      SqrtUnique(3, Isqrt(3), 1);
    }
    if i < limit {
      AttemptsOnThree(f, i + 1, limit, quick, o);
    }
  }

  /** A cofactor of 3 ends the list: the result is the strip phase's list
      with 3 sorted in, whatever the limit. */
  lemma ThreeRemains(num: int, limit: int, quick: bool, o: Oracles)
    requires num >= 1 && StripPhase(num).rest == 3
    ensures ShorClassical(num, limit, quick, o) == Outcome(Sort(Prefix(StripPhase(num)) + [3]), 0)
  {
    var p := Prefix(StripPhase(num));
    AttemptsOnThree(p, 0, limit, quick, o);
    FinishKeeps(p, 3);
  }

  /** 100 = 2² · 5²: the strip phase leaves 1 and the result is
      [2, 2, 5, 5]. */
  lemma Factor100(limit: int, quick: bool, o: Oracles)
    ensures ShorClassical(100, limit, quick, o) == Outcome([2, 2, 5, 5], 0)
  {
    assert Pow(2, 2) == 4 && Pow(5, 2) == 25;
    assert Cofactor(1);
    StripPhaseUnique(100, 2, 2, 1);
    var s := StripPhase(100);
    assert Prefix(s) == [2, 2, 5, 5] by {
      assert Repeat(2, 2) == [2, 2] && Repeat(5, 2) == [5, 5];
    }
    hide *;
    DoneExit(100, limit, quick, o);
  }

  /** 15 = 5 · 3: the strip phase leaves 3, which the loop cannot split,
      and the result is [3, 5]. */
  lemma Factor15(limit: int, quick: bool, o: Oracles)
    ensures ShorClassical(15, limit, quick, o) == Outcome([3, 5], 0)
  {
    assert Pow(2, 0) == 1 && Pow(5, 1) == 5;
    StripPhaseUnique(15, 0, 1, 3);
    ThreeRemains(15, limit, quick, o);
    assert Repeat(2, 0) + Repeat(5, 1) + [3] == [5, 3];
    assert Sort([3]) == [3] by {
      assert [3][1..] == [];
    }
    assert Sort([5, 3]) == Insert(5, [3]) by {
      assert [5, 3][1..] == [3];
    }
    assert Insert(5, [3]) == [3] + Insert(5, []) by {
      assert [3][1..] == [];
    }
  }
}
