/** Complex numbers over exact reals. */
module Complex {
  import opened Wrappers

  /** A real, or none for what is not a number. */
  type Num = Option<real>

  datatype C = C(re: real, im: real)

  const ZERO := C(0.0, 0.0)
  const ONE := C(1.0, 0.0)

  function Add(a: C, b: C): C { C(a.re + b.re, a.im + b.im) }

  function Sub(a: C, b: C): C { C(a.re - b.re, a.im - b.im) }

  function Mul(a: C, b: C): C { C(a.re * b.re - a.im * b.im, a.re * b.im + a.im * b.re) }

  function Conj(a: C): C { C(a.re, -a.im) }

  function Scale(t: real, a: C): C { C(t * a.re, t * a.im) }

  function Product(a: real, b: real): real { a * b }

  function Square(t: real): real { Product(t, t) }

  function Norm2(a: C): real { Square(a.re) + Square(a.im) }

  lemma PositiveProduct(a: real, b: real)
    requires a > 0.0 && b > 0.0
    ensures Product(a, b) > 0.0
  {
  }

  lemma SquareSign(t: real)
    ensures Square(t) >= 0.0
    ensures t != 0.0 ==> Square(t) > 0.0
  {
    if t > 0.0 {
      PositiveProduct(t, t);
    } else if t < 0.0 {
      PositiveProduct(-t, -t);
      assert Product(-t, -t) == Product(t, t);
    }
  }

  lemma Norm2Sign(a: C)
    ensures Norm2(a) >= 0.0
    ensures a != ZERO ==> Norm2(a) > 0.0
    ensures a == ZERO ==> Norm2(a) == 0.0
  {
    SquareSign(a.re);
    SquareSign(a.im);
    assert a == C(a.re, a.im);
  }

  /** The quotient of two complex numbers, for a nonzero denominator. */
  function Div(a: C, b: C): C
    requires b != ZERO
  {
    Norm2Sign(b);
    Scale(1.0 / Norm2(b), Mul(a, Conj(b)))
  }

  lemma MulScale(t: real, a: C, b: C)
    ensures Mul(Scale(t, a), b) == Scale(t, Mul(a, b)) == Mul(a, Scale(t, b))
  {
    assert (t * a.re) * b.re == t * (a.re * b.re) == a.re * (t * b.re);
    assert (t * a.im) * b.im == t * (a.im * b.im) == a.im * (t * b.im);
    assert (t * a.re) * b.im == t * (a.re * b.im) == a.re * (t * b.im);
    assert (t * a.im) * b.re == t * (a.im * b.re) == a.im * (t * b.re);
  }

  lemma MulAssociative(a: C, b: C, c: C)
    ensures Mul(Mul(a, b), c) == Mul(a, Mul(b, c))
  {
    assert (a.re * b.re - a.im * b.im) * c.re == a.re * (b.re * c.re) - a.im * (b.im * c.re);
    assert (a.re * b.re - a.im * b.im) * c.im == a.re * (b.re * c.im) - a.im * (b.im * c.im);
    assert (a.re * b.im + a.im * b.re) * c.re == a.re * (b.im * c.re) + a.im * (b.re * c.re);
    assert (a.re * b.im + a.im * b.re) * c.im == a.re * (b.im * c.im) + a.im * (b.re * c.im);
    assert a.re * (b.re * c.re - b.im * c.im) == a.re * (b.re * c.re) - a.re * (b.im * c.im);
    assert a.im * (b.re * c.im + b.im * c.re) == a.im * (b.re * c.im) + a.im * (b.im * c.re);
    assert a.re * (b.re * c.im + b.im * c.re) == a.re * (b.re * c.im) + a.re * (b.im * c.re);
    assert a.im * (b.re * c.re - b.im * c.im) == a.im * (b.re * c.re) - a.im * (b.im * c.im);
  }

  lemma MulCommutes(a: C, b: C)
    ensures Mul(a, b) == Mul(b, a)
  {
  }

  lemma AddZero(a: C)
    ensures Add(ZERO, a) == a == Add(a, ZERO)
  {
  }

  lemma ConjReal(t: real)
    ensures Conj(C(t, 0.0)) == C(t, 0.0)
  {
  }

  lemma MulZero(a: C)
    ensures Mul(a, ZERO) == ZERO == Mul(ZERO, a)
  {
  }

  lemma MulOne(a: C)
    ensures Mul(a, ONE) == a == Mul(ONE, a)
  {
  }

  lemma MulConj(a: C)
    ensures Mul(Conj(a), a) == Mul(a, Conj(a)) == C(Norm2(a), 0.0)
  {
  }

  lemma ConjMul(a: C, b: C)
    ensures Conj(Mul(a, b)) == Mul(Conj(a), Conj(b))
    ensures Conj(Mul(Conj(a), b)) == Mul(Conj(b), a)
  {
  }

  lemma ScaleDelta(t: real)
    ensures Scale(t, ZERO) == ZERO
    ensures Scale(t, ONE) == C(t, 0.0)
  {
  }

  lemma ScaleScale(s: real, t: real, a: C)
    ensures Scale(s, Scale(t, a)) == Scale(s * t, a)
  {
    assert s * (t * a.re) == (s * t) * a.re;
    assert s * (t * a.im) == (s * t) * a.im;
  }

  lemma ScaleAdd(t: real, a: C, b: C)
    ensures Scale(t, Add(a, b)) == Add(Scale(t, a), Scale(t, b))
  {
  }

  lemma MulAdd(a: C, b: C, c: C)
    ensures Mul(a, Add(b, c)) == Add(Mul(a, b), Mul(a, c))
  {
  }

  lemma MulSub(a: C, b: C, c: C)
    ensures Mul(a, Sub(b, c)) == Sub(Mul(a, b), Mul(a, c))
  {
  }

  lemma MulReal(a: C, t: real)
    ensures Mul(a, C(t, 0.0)) == Scale(t, a) == Mul(C(t, 0.0), a)
  {
  }

  lemma DivCancels(a: C, b: C)
    requires b != ZERO
    ensures Mul(b, Div(a, b)) == a
  {
    hide Mul, Norm2, Scale;
    Norm2Sign(b);
    var n := Norm2(b);
    calc {
      Mul(b, Div(a, b));
      { MulCommutes(b, Div(a, b)); MulScale(1.0 / n, Mul(a, Conj(b)), b); }
      Scale(1.0 / n, Mul(Mul(a, Conj(b)), b));
      { MulAssociative(a, Conj(b), b); MulConj(b); MulReal(a, n); }
      Scale(1.0 / n, Scale(n, a));
      { ScaleInverse(n, a); }
      a;
    }
  }

  lemma ScaleInverse(n: real, a: C)
    requires n != 0.0
    ensures Scale(1.0 / n, Scale(n, a)) == a
  {
    assert (1.0 / n) * (n * a.re) == a.re;
    assert (1.0 / n) * (n * a.im) == a.im;
  }

  /** A quotient is the only number that multiplies back. */
  lemma DivUnique(a: C, b: C, q: C)
    requires b != ZERO && Mul(b, q) == a
    ensures q == Div(a, b)
  {
    hide Mul, Norm2, Scale;
    Norm2Sign(b);
    var n := Norm2(b);
    calc {
      Div(a, b);
      { MulCommutes(b, q); MulAssociative(q, b, Conj(b)); MulConj(b); MulReal(q, n); }
      Scale(1.0 / n, Scale(n, q));
      { ScaleInverse(n, q); }
      q;
    }
  }
}
