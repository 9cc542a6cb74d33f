/** Gaussian integers a + b·i: every entry of the exact gates in this model
    (0, ±1, ±i) is one. */
module Complex {

  datatype Cx = Cx(re: int, im: int)

  const Zero: Cx := Cx(0, 0)
  const One: Cx := Cx(1, 0)
  const MinusOne: Cx := Cx(-1, 0)
  const I: Cx := Cx(0, 1)
  const MinusI: Cx := Cx(0, -1)

  function Add(a: Cx, b: Cx): Cx
  {
    var re, im := a.re + b.re, a.im + b.im;
    Cx(re, im)
  }

  function Sub(a: Cx, b: Cx): Cx
  {
    var re, im := a.re - b.re, a.im - b.im;
    Cx(re, im)
  }

  function Mul(a: Cx, b: Cx): Cx
  {
    var rr, ii, ri, ir := a.re * b.re, a.im * b.im, a.re * b.im, a.im * b.re;
    Cx(rr - ii, ri + ir)
  }

  /** The complex conjugate a − b·i. */
  function Conj(a: Cx): Cx
  {
    Cx(a.re, -a.im)
  }

  /** What a float64 numpy array keeps of an entry written into it: the
      real part. */
  function RealPart(a: Cx): Cx
  {
    Cx(a.re, 0)
  }

  /** The 0/1 value of a condition, as numpy's integer arrays hold it. */
  function Indicator(b: bool): Cx
  {
    if b then One else Zero
  }

  /** Sums of products by 0 and 1, as projector arithmetic produces them. */
  lemma SelectorSums(x: Cx, y: Cx)
    ensures Add(Mul(One, x), Mul(Zero, y)) == x
    ensures Add(Mul(Zero, x), Mul(One, y)) == y
    ensures Add(Mul(Zero, x), Mul(Zero, y)) == Zero
  {
  }

  /** A real number is its own conjugate. */
  lemma ConjReal(a: Cx)
    requires a.im == 0
    ensures Conj(a) == a
  {
  }

  /** Conjugation negates an imaginary number. */
  lemma ConjImaginary(a: Cx)
    requires a.re == 0
    ensures Conj(a) == Cx(0, -a.im)
  {
  }

  /** The conjugates of the five entries the exact gates use. */
  lemma ConjUnits()
    ensures Conj(Zero) == Zero && Conj(One) == One && Conj(MinusOne) == MinusOne
    ensures Conj(I) == MinusI && Conj(MinusI) == I
  {
    hide Conj;
    ConjReal(Zero);
    ConjReal(One);
    ConjReal(MinusOne);
    ConjImaginary(I);
    ConjImaginary(MinusI);
  }

  /** 0 annihilates products and is neutral for sums. */
  lemma ZeroLaws(x: Cx)
    ensures Mul(Zero, x) == Zero && Mul(x, Zero) == Zero
    ensures Add(x, Zero) == x && Add(Zero, x) == x
  {
  }

  /** 0 and 1 are real. */
  lemma ConjIndicator(b: bool)
    ensures Conj(Indicator(b)) == Indicator(b)
  {
  }

  lemma MulIndicators(a: bool, b: bool)
    ensures Mul(Indicator(a), Indicator(b)) == Indicator(a && b)
  {
  }

  lemma MulDistributes(x: Cx, y: Cx, z: Cx)
    ensures Mul(x, Add(y, z)) == Add(Mul(x, y), Mul(x, z))
  {
  }

  /** Two exclusive 0/1 values add up to the value of their disjunction. */
  lemma AddIndicators(a: bool, b: bool)
    requires !(a && b)
    ensures Add(Indicator(a), Indicator(b)) == Indicator(a || b)
  {
  }

  /** The difference of two exclusive 0/1 values is 1, −1 or 0. */
  lemma SubIndicators(a: bool, b: bool)
    requires !(a && b)
    ensures Sub(Indicator(a), Indicator(b)) == (if a then One else if b then MinusOne else Zero)
  {
  }

  /** i times the difference of two exclusive 0/1 values is i, −i or 0. */
  lemma RotatedDifference(a: bool, b: bool)
    requires !(a && b)
    ensures Mul(I, Sub(Indicator(a), Indicator(b))) == (if a then I else if b then MinusI else Zero)
  {
  }

  /** Scaling by a 0/1 value keeps or annihilates. */
  lemma MulIndicator(b: bool, x: Cx)
    ensures Mul(Indicator(b), x) == (if b then x else Zero)
  {
  }

  lemma AddZero(x: Cx)
    ensures Add(Zero, x) == x && Add(x, Zero) == x
  {
  }
}
