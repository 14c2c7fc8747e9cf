/** Complex vectors and the inner product <x, y> = sum conj(x_i) y_i. */
module Vectors {
  import opened Complex

  type Vec = seq<C>

  function Inner(x: Vec, y: Vec): C
    requires |x| == |y|
  {
    if x == [] then ZERO else Add(Mul(Conj(x[0]), y[0]), Inner(x[1..], y[1..]))
  }

  function Zero(n: nat): (r: Vec)
    ensures |r| == n
  {
    seq(n, _ => ZERO)
  }

  function Sum(x: Vec, y: Vec): (r: Vec)
    requires |x| == |y|
    ensures |r| == |x|
  {
    seq(|x|, i requires 0 <= i < |x| => Add(x[i], y[i]))
  }

  function Times(c: C, x: Vec): (r: Vec)
    ensures |r| == |x|
  {
    seq(|x|, i requires 0 <= i < |x| => Mul(c, x[i]))
  }

  /** h - a s - b p, entry by entry, with real a and b. */
  function Residual(h: Vec, a: real, s: Vec, b: real, p: Vec): (r: Vec)
    requires |h| == |s| == |p|
    ensures |r| == |h|
  {
    seq(|h|, i requires 0 <= i < |h| => Sub(Sub(h[i], Scale(a, s[i])), Scale(b, p[i])))
  }

  function Unit(n: nat, k: nat): Vec { seq(n, i => if i == k then ONE else ZERO) }

  lemma {:induction false} InnerConjugate(x: Vec, y: Vec)
    requires |x| == |y|
    ensures Inner(y, x) == Conj(Inner(x, y))
  {
    hide Mul;
    if x != [] {
      ConjMul(x[0], y[0]);
      InnerConjugate(x[1..], y[1..]);
    }
  }

  lemma {:induction false} InnerSum(x: Vec, y: Vec, w: Vec)
    requires |x| == |y| == |w|
    ensures Inner(x, Sum(y, w)) == Add(Inner(x, y), Inner(x, w))
  {
    hide Mul;
    if x != [] {
      InnerSum(x[1..], y[1..], w[1..]);
      assert Sum(y, w)[1..] == Sum(y[1..], w[1..]);
      MulAdd(Conj(x[0]), y[0], w[0]);
    }
  }

  lemma {:induction false} InnerTimes(x: Vec, c: C, y: Vec)
    requires |x| == |y|
    ensures Inner(x, Times(c, y)) == Mul(c, Inner(x, y))
    ensures Inner(Times(c, x), y) == Mul(Conj(c), Inner(x, y))
  {
    hide Mul;
    if x == [] {
      MulZero(c);
      MulZero(Conj(c));
    } else {
      InnerTimes(x[1..], c, y[1..]);
      assert Times(c, y)[1..] == Times(c, y[1..]);
      assert Times(c, x)[1..] == Times(c, x[1..]);
      var t := Inner(x[1..], y[1..]);
      MulAdd(c, Mul(Conj(x[0]), y[0]), t);
      MulAdd(Conj(c), Mul(Conj(x[0]), y[0]), t);
      MulAssociative(c, Conj(x[0]), y[0]);
      MulCommutes(c, Conj(x[0]));
      MulAssociative(Conj(x[0]), c, y[0]);
      ConjMul(c, x[0]);
      MulAssociative(Conj(c), Conj(x[0]), y[0]);
    }
  }

  lemma {:induction false} InnerResidual(x: Vec, h: Vec, a: real, s: Vec, b: real, p: Vec)
    requires |x| == |h| == |s| == |p|
    ensures Inner(x, Residual(h, a, s, b, p))
         == Sub(Sub(Inner(x, h), Scale(a, Inner(x, s))), Scale(b, Inner(x, p)))
  {
    hide Mul, Scale;
    if x == [] {
      ScaleDelta(a);
      ScaleDelta(b);
    } else {
      InnerResidual(x[1..], h[1..], a, s[1..], b, p[1..]);
      assert Residual(h, a, s, b, p)[1..] == Residual(h[1..], a, s[1..], b, p[1..]);
      var c := Conj(x[0]);
      MulSub(c, Sub(h[0], Scale(a, s[0])), Scale(b, p[0]));
      MulSub(c, h[0], Scale(a, s[0]));
      MulScale(a, c, s[0]);
      MulScale(b, c, p[0]);
      ScaleAdd(a, Mul(c, s[0]), Inner(x[1..], s[1..]));
      ScaleAdd(b, Mul(c, p[0]), Inner(x[1..], p[1..]));
    }
  }

  /** One more entry at the end. */
  lemma {:induction false} InnerLast(x: Vec, y: Vec, p: C, q: C)
    requires |x| == |y|
    ensures Inner(x + [p], y + [q]) == Add(Inner(x, y), Mul(Conj(p), q))
  {
    hide Mul;
    if x == [] {
      assert [] + [p] == [p] && [] + [q] == [q] && Inner([], []) == ZERO;
      assert Inner([p], [q]) == Add(Mul(Conj(p), q), Inner([p][1..], [q][1..]));
    } else {
      InnerLast(x[1..], y[1..], p, q);
      assert (x + [p])[1..] == x[1..] + [p] && (y + [q])[1..] == y[1..] + [q];
    }
  }

  lemma InnerSelfStep(x: Vec)
    requires x != []
    ensures Inner(x, x).re == Norm2(x[0]) + Inner(x[1..], x[1..]).re
    ensures Inner(x, x).im == Inner(x[1..], x[1..]).im
    ensures Norm2(x[0]) >= 0.0
    ensures x[0] != ZERO ==> Norm2(x[0]) > 0.0
  {
    hide Mul, Norm2;
    MulConj(x[0]);
    Norm2Sign(x[0]);
  }

  lemma {:induction false} InnerSelfSign(x: Vec)
    ensures Inner(x, x).im == 0.0 && Inner(x, x).re >= 0.0
  {
    if x == [] {
    } else {
      InnerSelfStep(x);
      InnerSelfSign(x[1..]);
    }
  }

  lemma {:induction false} InnerSelfZero(x: Vec)
    requires Inner(x, x).re == 0.0
    ensures forall i :: 0 <= i < |x| ==> x[i] == ZERO
  {
    hide Mul, Norm2, Add;
    if x == [] {
    } else {
      InnerSelfStep(x);
      InnerSelfSign(x[1..]);
      InnerSelfZero(x[1..]);
      assert x == [x[0]] + x[1..];
    }
  }

  lemma InnerZero(x: Vec)
    ensures Inner(x, Zero(|x|)) == ZERO == Inner(Zero(|x|), x)
  {
    assert Times(ZERO, x) == Zero(|x|);
    InnerTimes(x, ZERO, x);
    MulZero(Inner(x, x));
  }

  /** Linearity in the left argument, from the right one by conjugation. */
  lemma InnerSumLeft(x: Vec, y: Vec, w: Vec)
    requires |x| == |y| == |w|
    ensures Inner(Sum(y, w), x) == Add(Inner(y, x), Inner(w, x))
  {
    InnerSum(x, y, w);
    InnerConjugate(x, Sum(y, w));
    InnerConjugate(x, y);
    InnerConjugate(x, w);
  }

  lemma {:induction false} InnerUnit(x: Vec, k: nat)
    requires k < |x|
    ensures Inner(Unit(|x|, k), x) == x[k]
  {
    hide Mul, Add, Conj, Scale;
    var u, t := Unit(|x|, k), if k == 0 then 1.0 else 0.0;
    assert u[0] == C(t, 0.0);
    ConjReal(t);
    MulReal(x[0], t);
    ScaleUnit(x[0]);
    if k == 0 {
      assert u[1..] == Zero(|x[1..]|);
      InnerZero(x[1..]);
      AddZero(x[0]);
    } else {
      assert u[1..] == Unit(|x[1..]|, k - 1);
      InnerUnit(x[1..], k - 1);
      AddZero(x[k]);
    }
  }

  lemma ScaleUnit(a: C)
    ensures Scale(1.0, a) == a && Scale(0.0, a) == ZERO
  {
  }

  ghost predicate SelfAdjointAt(H: Vec -> Vec, n: nat, x: Vec, y: Vec)
    requires |x| == |y| == n
  {
    |H(x)| == |H(y)| == n && Inner(x, H(y)) == Inner(H(x), y)
  }

  /** A map that is self-adjoint for the inner product on C^n. */
  ghost predicate Hermitian(H: Vec -> Vec, n: nat) {
    && (forall x :: |x| == n ==> |H(x)| == n)
    && (forall x, y {:trigger SelfAdjointAt(H, n, x, y)} :: |x| == n && |y| == n ==> SelfAdjointAt(H, n, x, y))
  }

  lemma SelfAdjoint(H: Vec -> Vec, n: nat, x: Vec, y: Vec)
    requires Hermitian(H, n) && |x| == |y| == n
    ensures |H(x)| == |H(y)| == n
    ensures Inner(x, H(y)) == Inner(H(x), y)
  {
    assert SelfAdjointAt(H, n, x, y);
  }

  /** Two vectors with the same inner product against everything are equal. */
  lemma EqualByInner(n: nat, u: Vec, v: Vec)
    requires |u| == |v| == n
    requires forall x :: |x| == n ==> Inner(x, u) == Inner(x, v)
    ensures u == v
  {
    forall k | 0 <= k < n
      ensures u[k] == v[k]
    {
      InnerUnit(u, k);
      InnerUnit(v, k);
      assert |Unit(n, k)| == n;
    }
  }

  /** A self-adjoint map is linear. */
  lemma HermitianSum(H: Vec -> Vec, n: nat, u: Vec, v: Vec)
    requires Hermitian(H, n) && |u| == |v| == n
    ensures |H(u)| == |H(v)| == n
    ensures H(Sum(u, v)) == Sum(H(u), H(v))
  {
    assert |Sum(u, v)| == n;
    forall x | |x| == n
      ensures Inner(x, H(Sum(u, v))) == Inner(x, Sum(H(u), H(v)))
    {
      SelfAdjoint(H, n, x, Sum(u, v));
      SelfAdjoint(H, n, x, u);
      SelfAdjoint(H, n, x, v);
      InnerSum(H(x), u, v);
      InnerSum(x, H(u), H(v));
    }
    EqualByInner(n, H(Sum(u, v)), Sum(H(u), H(v)));
  }

  lemma HermitianTimes(H: Vec -> Vec, n: nat, c: C, u: Vec)
    requires Hermitian(H, n) && |u| == n
    ensures |H(u)| == n
    ensures H(Times(c, u)) == Times(c, H(u))
  {
    assert |Times(c, u)| == n;
    forall x | |x| == n
      ensures Inner(x, H(Times(c, u))) == Inner(x, Times(c, H(u)))
    {
      SelfAdjoint(H, n, x, Times(c, u));
      SelfAdjoint(H, n, x, u);
      InnerTimes(H(x), c, u);
      InnerTimes(x, c, H(u));
    }
    EqualByInner(n, H(Times(c, u)), Times(c, H(u)));
  }
}
