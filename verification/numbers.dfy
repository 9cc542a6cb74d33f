/** The number theory the classical factoring loop relies on: divisibility,
    Euclid's gcd, an integer square root and the stripping of one prime
    factor. The repository's own `gcd` and `isqrt` live in a helper module
    that is not part of this model; these definitions stand in for them. */
module Numbers {
  import opened Arith

  /** d is a positive divisor of n. */
  predicate Divides(d: int, n: int)
  {
    d > 0 && n % d == 0
  }

  lemma DividesProduct(d: int, k: int)
    requires d > 0
    ensures Divides(d, d * k) && Divides(d, k * d)
  {
    DivModUnique(d * k, d, k, 0);
  }

  /** A divisor of a divisor divides. */
  lemma DividesTransitive(a: int, b: int, c: int)
    requires Divides(a, b) && Divides(b, c)
    ensures Divides(a, c)
  {
    var x, y := b / a, c / b;
    assert c == a * (x * y) by {
      assert b == a * x && c == b * y;
    }
    DividesProduct(a, x * y);
  }

  /** A common divisor of a and b divides a - q·b. */
  lemma DividesCombination(d: int, a: int, b: int, q: int)
    requires Divides(d, a) && Divides(d, b)
    ensures Divides(d, a - q * b)
  {
    var x, y := a / d, b / d;
    assert a - q * b == d * (x - q * y) by {
      assert a == d * x && b == d * y;
    }
    DividesProduct(d, x - q * y);
  }

  /** A positive number has no divisor above itself. */
  lemma DivisorBelow(d: int, n: int)
    requires Divides(d, n) && n > 0
    ensures d <= n
  {
    var k := n / d;
    assert n == d * k;
    MulAtLeast(k, d);
  }

  /** Two positive numbers that divide each other are equal. */
  lemma DividesAntisymmetric(a: int, b: int)
    requires Divides(a, b) && Divides(b, a) && a > 0 && b > 0
    ensures a == b
  {
    DivisorBelow(a, b);
    DivisorBelow(b, a);
  }

  /** A number not divisible by p has no divisor divisible by p. */
  lemma DivisorAvoids(d: int, n: int, p: int)
    requires Divides(d, n) && p > 0 && n % p != 0
    ensures d % p != 0
  {
    if d % p == 0 {
      DividesTransitive(p, d, n);
    }
  }

  /** The quotient by a divisor is a divisor too. */
  lemma CofactorDivides(d: int, n: int)
    requires Divides(d, n) && n > 0
    ensures n / d > 0 && Divides(n / d, n)
  {
    var k := n / d;
    assert n == d * k;
    if k <= 0 {
      MulMonotone(k, 0, d);
    }
    DividesProduct(k, d);
  }

  /** Euclid's algorithm. */
  function Gcd(a: nat, b: nat): nat
    decreases b
  {
    if b == 0 then a else Gcd(b, a % b)
  }

  /** The gcd is a positive common divisor. */
  lemma {:induction false} GcdDivides(a: nat, b: nat)
    requires a > 0 || b > 0
    ensures Gcd(a, b) > 0 && Divides(Gcd(a, b), a) && Divides(Gcd(a, b), b)
    decreases b
  {
    if b > 0 {
      var q, r, g := a / b, a % b, Gcd(a, b);
      assert g == Gcd(b, r);
      GcdDivides(b, r);
      assert a == r - (-q) * b;
      hide Gcd;
      DividesCombination(g, r, b, -q);
    } else {
      assert a % a == 0 && 0 % a == 0;
    }
  }

  /** Every common divisor divides the gcd. */
  lemma {:induction false} GcdGreatest(a: nat, b: nat, d: int)
    requires Divides(d, a) && Divides(d, b)
    ensures Divides(d, Gcd(a, b))
    decreases b
  {
    if b > 0 {
      DividesCombination(d, a, b, a / b);
      GcdGreatest(b, a % b, d);
    }
  }

  lemma ScaledMod(a: nat, b: nat, c: nat)
    requires b > 0 && c > 0
    ensures (a * c) % (b * c) == (a % b) * c
  {
    var q, r := a / b, a % b;
    assert a * c == q * (b * c) + r * c by {
      assert a == q * b + r;
    }
    MulMonotone(r, b - 1, c);
    DivModUnique(a * c, b * c, q, r * c);
  }

  /** Scaling both arguments scales the gcd. */
  lemma {:induction false} GcdScale(a: nat, b: nat, c: nat)
    requires c > 0
    ensures Gcd(a * c, b * c) == Gcd(a, b) * c
    decreases b
  {
    if b > 0 {
      ScaledMod(a, b, c);
      GcdScale(b, a % b, c);
    }
  }

  /** Two coprime divisors of n: the second still divides what the first
      leaves. */
  lemma CoprimeQuotient(g1: nat, g2: nat, n: nat)
    requires Divides(g1, n) && Divides(g2, n) && n > 0 && Gcd(g1, g2) == 1
    ensures Divides(g2, n / g1)
  {
    var k := n / g1;
    CofactorDivides(g1, n);
    assert n == g1 * k;
    hide *;
    GcdScale(g1, g2, k);
    DividesProduct(g2, k);
    GcdGreatest(g1 * k, g2 * k, g2);
  }

  /** For odd n the divisors taken by gcd with x + 1 and with x - 1 share
      nothing: a common divisor divides 2 and an odd number. So dividing
      by the first leaves the second gcd unchanged. */
  lemma SequentialGcd(x: nat, n: nat)
    requires x >= 1 && n > 0 && n % 2 == 1
    ensures var g1 := Gcd(x + 1, n);
      Divides(g1, n) && Gcd(x - 1, n / g1) == Gcd(x - 1, n)
  {
    var g1, g2 := Gcd(x + 1, n), Gcd(x - 1, n);
    GcdDivides(x + 1, n);
    GcdDivides(x - 1, n);
    var d := Gcd(g1, g2);
    GcdDivides(g1, g2);
    DividesTransitive(d, g1, x + 1);
    DividesTransitive(d, g2, x - 1);
    DividesCombination(d, x + 1, x - 1, 1);
    DivisorBelow(d, 2);
    DividesTransitive(d, g1, n);
    assert d == 1;
    CoprimeQuotient(g1, g2, n);
    var m := n / g1;
    CofactorDivides(g1, n);
    var g := Gcd(x - 1, m);
    GcdDivides(x - 1, m);
    GcdGreatest(x - 1, m, g2);
    DividesTransitive(g, m, n);
    GcdGreatest(x - 1, n, g);
    DividesAntisymmetric(g, g2);
  }

  /** The integer square root, counted up from k. */
  function SqrtFrom(n: nat, k: nat): (r: nat)
    requires k * k <= n
    ensures r * r <= n < (r + 1) * (r + 1)
    decreases n - k * k
  {
    if (k + 1) * (k + 1) > n then k else SqrtFrom(n, k + 1)
  }

  /** The largest r with r² ≤ n. */
  function Isqrt(n: nat): (r: nat)
    ensures r * r <= n < (r + 1) * (r + 1)
  {
    SqrtFrom(n, 0)
  }

  /** The bracket r² ≤ n < (r + 1)² picks one r. */
  lemma SqrtUnique(n: nat, r: nat, s: nat)
    requires r * r <= n < (r + 1) * (r + 1) && s * s <= n < (s + 1) * (s + 1)
    ensures r == s
  {
    if r < s {
      MulMonotone(r + 1, s, r + 1);
      MulMonotone(r + 1, s, s);
    } else if s < r {
      MulMonotone(s + 1, r, s + 1);
      MulMonotone(s + 1, r, r);
    }
  }

  /** n is a perfect square exactly when the root squares back to n. */
  lemma IsqrtSquare(n: nat, k: nat)
    ensures Isqrt(n) * Isqrt(n) == n <==> exists j: nat :: j * j == n
    ensures Isqrt(k * k) == k
  {
    assert (k + 1) * (k + 1) == k * k + 2 * k + 1;
    SqrtUnique(k * k, Isqrt(k * k), k);
    if j: nat :| j * j == n {
      assert (j + 1) * (j + 1) == j * j + 2 * j + 1;
      SqrtUnique(n, Isqrt(n), j);
    }
  }

  /** One division by a factor p ≥ 2 leaves a smaller positive number. */
  lemma StripStep(n: int, p: int)
    requires n >= 1 && p >= 2 && n % p == 0
    ensures n == p * (n / p) && 1 <= n / p < n
  {
    var k := n / p;
    assert n == k * p;
    if k < 1 {
      MulMonotone(k, 0, p);
      assert false;
    }
    MulMonotone(2, p, k);
    assert n >= 2 * k;
  }

  lemma PowStep(p: int, c: nat, m: int)
    ensures Pow(p, c + 1) * m == p * (Pow(p, c) * m)
  {
  }

  /** `while n % p == 0: n /= p`: how many times p divides n, and what is
      left. */
  function Strip(n: int, p: int): (r: (nat, int))
    requires n >= 1 && p >= 2
    ensures r.1 >= 1 && r.1 % p != 0 && n == Pow(p, r.0) * r.1
    decreases n
  {
    if n % p == 0 then
      StripStep(n, p);
      var (c, m) := Strip(n / p, p);
      PowStep(p, c, m);
      (c + 1, m)
    else (0, n)
  }

  /** The split n = p^c · m with m not divisible by p is unique. */
  lemma {:induction false} StripUnique(n: int, p: int, c: nat, m: int)
    requires n >= 1 && p >= 2 && m % p != 0 && n == Pow(p, c) * m
    ensures Strip(n, p) == (c, m)
    decreases c
  {
    if c == 0 {
      assert n == m;
    } else {
      var k := Pow(p, c - 1) * m;
      assert n == p * k;
      DividesProduct(p, k);
      DivModUnique(n, p, k, 0);
      assert k >= 1 by {
        if k < 1 { MulMonotone(k, 0, p); }
      }
      StripUnique(k, p, c - 1, m);
    }
  }
}
