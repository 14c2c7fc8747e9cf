/**
 The continued fraction of `absorption_from_haydock`: a backward loop over the
 coefficients, the resolvent element g and the spectrum epsilon_2.

 A division by zero gives none for the non-finite number of the program's array arithmetic, and
 everything computed from it, or from a coefficient that is not a number, is none too.
 */
module HaydockSpectrum {
  import opened Complex
  import opened Wrappers

  function Divide(a: C, b: Option<C>): Option<C> {
    if b.Some? && b.value != ZERO then Some(Div(a, b.value)) else None
  }

  /** z - alpha - cf */
  function Below(z: C, alpha: real, cf: Option<C>): Option<C> {
    if cf.Some? then Some(Sub(Sub(z, C(alpha, 0.0)), cf.value)) else None
  }

  /** The value of `cf` once the backward loop has run down to index n. */
  function Tail(alpha: seq<real>, beta: seq<real>, z: C, n: nat): Option<C>
    requires |alpha| == |beta| && 1 <= n <= |alpha|
    decreases |alpha| - n
  {
    if n == |alpha| then Some(ZERO)
    else Divide(C(Square(beta[n - 1]), 0.0), Below(z, alpha[n], Tail(alpha, beta, z, n + 1)))
  }

  /** The denominator at level n. */
  function Level(alpha: seq<real>, beta: seq<real>, z: C, n: nat): Option<C>
    requires |alpha| == |beta| && n < |alpha|
  {
    Below(z, alpha[n], Tail(alpha, beta, z, n + 1))
  }

  /** The resolvent element g of the loop. */
  function Resolvent(alpha: seq<real>, beta: seq<real>, z: C): Option<C>
    requires |alpha| == |beta| && 1 <= |alpha|
  {
    Divide(ONE, Level(alpha, beta, z, 0))
  }

  function Epsilon2(g: Option<C>, norm: real, pref: real, pi: real): Option<real>
    requires pi != 0.0
  {
    if g.Some? then Some(-pref * Square(norm) * g.value.im / pi) else None
  }

  // ---------------------------------------------------------------- no division by zero

  /** x is on the other side of the real axis from s, or on it. */
  predicate Across(s: real, x: real) {
    (s > 0.0 ==> x <= 0.0) && (s < 0.0 ==> x >= 0.0)
  }

  lemma NonNegativeProduct(a: real, b: real)
    requires a >= 0.0 && b >= 0.0
    ensures Product(a, b) >= 0.0
  {
  }

  lemma RealOver(t: real, d: C)
    requires d != ZERO && t >= 0.0
    ensures Norm2(d) > 0.0 && t / Norm2(d) >= 0.0
    ensures Div(C(t, 0.0), d) == C(Product(t / Norm2(d), d.re), -Product(t / Norm2(d), d.im))
  {
    Norm2Sign(d);
    var n := Norm2(d);
    assert (1.0 / n) * t == t / n;
    assert Mul(C(t, 0.0), Conj(d)) == C(t * d.re, -(t * d.im));
    assert (1.0 / n) * (t * d.re) == (t / n) * d.re;
    assert (1.0 / n) * -(t * d.im) == -((t / n) * d.im);
  }

  /** A non-negative number over a point off the axis lies across the axis from it. */
  lemma QuotientCrosses(t: real, d: C, s: real)
    requires t >= 0.0 && s != 0.0 && (s > 0.0 ==> d.im >= s) && (s < 0.0 ==> d.im <= s)
    ensures d != ZERO && Across(s, Div(C(t, 0.0), d).im)
  {
    hide Div, Norm2;
    RealOver(t, d);
    var w := t / Norm2(d);
    if s > 0.0 {
      NonNegativeProduct(w, d.im);
    } else {
      NonNegativeProduct(w, -d.im);
      assert Product(w, -d.im) == -Product(w, d.im);
    }
  }

  /** Every iterate of the loop stays across the axis from z, so no denominator vanishes. */
  lemma {:induction false} TailCrosses(alpha: seq<real>, beta: seq<real>, z: C, n: nat)
    requires |alpha| == |beta| && 1 <= n <= |alpha| && z.im != 0.0
    ensures Tail(alpha, beta, z, n).Some? && Across(z.im, Tail(alpha, beta, z, n).value.im)
    decreases |alpha| - n
  {
    if n < |alpha| {
      hide Div, Square;
      TailCrosses(alpha, beta, z, n + 1);
      SquareSign(beta[n - 1]);
      var d := Level(alpha, beta, z, n).value;
      QuotientCrosses(Square(beta[n - 1]), d, z.im);
    }
  }

  /** Every denominator is at least as far from the real axis as z, on the same side. */
  lemma LevelIsOffAxis(alpha: seq<real>, beta: seq<real>, z: C, n: nat)
    requires |alpha| == |beta| && n < |alpha| && z.im != 0.0
    ensures var d := Level(alpha, beta, z, n);
      && d.Some? && d.value != ZERO
      && (z.im > 0.0 ==> d.value.im >= z.im) && (z.im < 0.0 ==> d.value.im <= z.im)
  {
    TailCrosses(alpha, beta, z, n + 1);
  }

  lemma ReciprocalBound(d: C, eta: real)
    requires eta > 0.0 && d.im >= eta
    ensures d != ZERO
    ensures Div(ONE, d).im <= 0.0
    ensures Product(Norm2(Div(ONE, d)), Square(eta)) <= 1.0
  {
    hide Div, Norm2;
    QuotientCrosses(1.0, d, eta);
    var g, n, e := Div(ONE, d), Norm2(d), Square(eta);
    Norm2Sign(d);
    RealOver(1.0, d);
    ReciprocalNorm(d);
    assert n >= e > 0.0 by {
      SquareSign(eta);
      SquareSign(d.re);
      SquareMonotone(eta, d.im);
      NormParts(d);
    }
    ReciprocalShrinks(e, n);
  }

  lemma NormParts(d: C)
    ensures Norm2(d) == Square(d.re) + Square(d.im)
  {
  }

  lemma SquareMonotone(a: real, b: real)
    requires 0.0 <= a <= b
    ensures Square(a) <= Square(b)
  {
    NonNegativeProduct(b - a, b + a);
    assert (b - a) * (b + a) == b * b - a * a;
  }

  lemma ReciprocalShrinks(e: real, n: real)
    requires 0.0 < e <= n
    ensures Product(1.0 / n, e) <= 1.0
  {
    var w := 1.0 / n;
    assert w > 0.0 && w * n == 1.0;
    NonNegativeProduct(w, n - e);
    assert w * (n - e) == w * n - w * e;
  }

  lemma ReciprocalNorm(d: C)
    requires d != ZERO
    ensures Norm2(d) > 0.0
    ensures Norm2(Div(ONE, d)) == 1.0 / Norm2(d)
  {
    hide Div;
    Norm2Sign(d);
    RealOver(1.0, d);
    var n := Norm2(d);
    var w := 1.0 / n;
    var a, b := d.re, d.im;
    assert (w * a) * (w * a) + (w * b) * (w * b) == w * (w * (a * a + b * b));
    assert w * n == 1.0;
    assert (-(w * b)) * (-(w * b)) == (w * b) * (w * b);
  }

  /**
   With a positive broadening the whole loop is finite, its imaginary parts never turn
   positive, g is bounded by 1/eta, and the spectrum is non-negative.
   */
  lemma SpectrumIsNonNegative(alpha: seq<real>, beta: seq<real>, omega: real, eta: real,
                              norm: real, pref: real, pi: real)
    requires |alpha| == |beta| && 1 <= |alpha| && eta > 0.0 && pref > 0.0 && pi > 0.0
    ensures var z := C(omega, eta);
      var g := Resolvent(alpha, beta, z);
      && (forall n :: 1 <= n <= |alpha| ==> Tail(alpha, beta, z, n).Some? && Tail(alpha, beta, z, n).value.im <= 0.0)
      && (forall n :: 0 <= n < |alpha| ==> Level(alpha, beta, z, n).Some? && Level(alpha, beta, z, n).value.im >= eta)
      && g.Some? && Product(Norm2(g.value), Square(eta)) <= 1.0
      && Epsilon2(g, norm, pref, pi).Some? && Epsilon2(g, norm, pref, pi).value >= 0.0
  {
    hide Div, Norm2, Square;
    var z := C(omega, eta);
    forall n | 1 <= n <= |alpha|
      ensures Tail(alpha, beta, z, n).Some? && Tail(alpha, beta, z, n).value.im <= 0.0
    {
      TailCrosses(alpha, beta, z, n);
    }
    forall n | 0 <= n < |alpha|
      ensures Level(alpha, beta, z, n).Some? && Level(alpha, beta, z, n).value.im >= eta
    {
      LevelIsOffAxis(alpha, beta, z, n);
    }
    LevelIsOffAxis(alpha, beta, z, 0);
    ReciprocalBound(Level(alpha, beta, z, 0).value, eta);
    var g := Resolvent(alpha, beta, z).value;
    SquareSign(norm);
    SignOfEpsilon(pref, Square(norm), g.im, pi);
  }

  lemma SignOfEpsilon(pref: real, n2: real, im: real, pi: real)
    requires pref > 0.0 && n2 >= 0.0 && im <= 0.0 && pi > 0.0
    ensures -pref * n2 * im / pi >= 0.0
  {
    NonNegativeProduct(pref, n2);
    NonNegativeProduct(Product(pref, n2), -im);
    var t := -pref * n2 * im;
    assert t == (pref * n2) * -im >= 0.0;
  }

  /**
   The loop is free of zero denominators for all coefficients and frequencies exactly when
   the broadening is nonzero; with eta = 0 one level at omega = alpha_0 already fails.
   */
  lemma FiniteIffBroadened(eta: real)
    ensures eta != 0.0 <==> forall alpha: seq<real>, beta: seq<real>, omega: real ::
              |alpha| == |beta| && 1 <= |alpha| ==> Resolvent(alpha, beta, C(omega, eta)).Some?
  {
    if eta != 0.0 {
      forall alpha: seq<real>, beta: seq<real>, omega: real | |alpha| == |beta| && 1 <= |alpha|
        ensures Resolvent(alpha, beta, C(omega, eta)).Some?
      {
        LevelIsOffAxis(alpha, beta, C(omega, eta), 0);
      }
    } else {
      var alpha, beta := [0.0], [0.0];
      assert Tail(alpha, beta, C(0.0, 0.0), 1) == Some(ZERO);
      assert Resolvent(alpha, beta, C(0.0, eta)) == None;
    }
  }

  // ---------------------------------------------------------------- exactly when one call is finite

  /** The determinant of z - T from index k on, by its two-term recurrence. */
  function Continuant(alpha: seq<real>, beta: seq<real>, z: C, k: nat): C
    requires |alpha| == |beta| && k <= |alpha|
    decreases |alpha| - k
  {
    if k == |alpha| then ONE
    else if k + 1 == |alpha| then Sub(z, C(alpha[k], 0.0))
    else
      Sub(Mul(Sub(z, C(alpha[k], 0.0)), Continuant(alpha, beta, z, k + 1)),
          Scale(Square(beta[k]), Continuant(alpha, beta, z, k + 2)))
  }

  /** No trailing continuant from k on vanishes. */
  predicate Regular(alpha: seq<real>, beta: seq<real>, z: C, k: nat)
    requires |alpha| == |beta|
  {
    forall j :: k <= j < |alpha| ==> Continuant(alpha, beta, z, j) != ZERO
  }

  lemma ProductVanishes(a: C, b: C)
    requires b != ZERO
    ensures Mul(a, b) == ZERO <==> a == ZERO
  {
    hide Mul, Div;
    MulZero(b);
    if Mul(a, b) == ZERO {
      MulCommutes(a, b);
      DivUnique(ZERO, b, a);
      DivUnique(ZERO, b, ZERO);
    }
  }

  /** (s - b2 / d) (d q) = s (d q) - b2 q */
  lemma LevelTimes(s: C, t: real, d: C, q: C)
    requires d != ZERO
    ensures Mul(Sub(s, Div(C(t, 0.0), d)), Mul(d, q)) == Sub(Mul(s, Mul(d, q)), Scale(t, q))
  {
    hide Mul, Div, Scale;
    var w, p := Div(C(t, 0.0), d), Mul(d, q);
    MulCommutes(Sub(s, w), p);
    MulCommutes(s, p);
    MulSub(p, s, w);
    MulCommutes(p, w);
    MulAssociative(w, d, q);
    MulCommutes(w, d);
    DivCancels(C(t, 0.0), d);
    MulReal(q, t);
  }

  /** Level k is finite exactly when the later continuants do not vanish, and then it is the quotient of two. */
  lemma {:induction false} LevelIsQuotient(alpha: seq<real>, beta: seq<real>, z: C, k: nat)
    requires |alpha| == |beta| && k < |alpha|
    ensures Level(alpha, beta, z, k).Some? <==> Regular(alpha, beta, z, k + 1)
    ensures Level(alpha, beta, z, k).Some? ==>
      Mul(Level(alpha, beta, z, k).value, Continuant(alpha, beta, z, k + 1)) == Continuant(alpha, beta, z, k)
    decreases |alpha| - k
  {
    hide Mul, Div, Scale, Square;
    var s := Sub(z, C(alpha[k], 0.0));
    if k + 1 == |alpha| {
      MulOne(s);
      SubNothing(s);
    } else {
      LevelIsQuotient(alpha, beta, z, k + 1);
      var below, q := Level(alpha, beta, z, k + 1), Continuant(alpha, beta, z, k + 2);
      if below.Some? {
        assert k + 2 == |alpha| ==> q == ONE;
        ProductVanishes(below.value, q);
        if below.value != ZERO {
          LevelTimes(s, Square(beta[k]), below.value, q);
        }
      }
    }
  }

  lemma SubNothing(a: C)
    ensures Sub(a, ZERO) == a
  {
  }

  /**
   For given coefficients and any frequency and broadening, zero included, no denominator of the loop
   is zero exactly when no trailing continuant of z - T is.
   */
  lemma FiniteIffRegular(alpha: seq<real>, beta: seq<real>, z: C)
    requires |alpha| == |beta| && 1 <= |alpha|
    ensures Resolvent(alpha, beta, z).Some? <==> Regular(alpha, beta, z, 0)
  {
    hide Mul, Div;
    LevelIsQuotient(alpha, beta, z, 0);
    if Regular(alpha, beta, z, 1) {
      assert 1 == |alpha| ==> Continuant(alpha, beta, z, 1) == ONE;
      ProductVanishes(Level(alpha, beta, z, 0).value, Continuant(alpha, beta, z, 1));
    }
  }

  // ---------------------------------------------------------------- the tridiagonal resolvent

  /** Row k of (z - T) x, for the symmetric tridiagonal T of alpha and beta. */
  function RowOf(alpha: seq<real>, beta: seq<real>, z: C, x: seq<C>, k: nat): C
    requires |alpha| == |beta| == |x| && k < |alpha|
  {
    var diagonal := Mul(Sub(z, C(alpha[k], 0.0)), x[k]);
    var left := if k == 0 then ZERO else Scale(beta[k - 1], x[k - 1]);
    var right := if k + 1 == |alpha| then ZERO else Scale(beta[k], x[k + 1]);
    Sub(Sub(diagonal, left), right)
  }

  /** x solves (z - T) x = e1. */
  ghost predicate Solves(alpha: seq<real>, beta: seq<real>, z: C, x: seq<C>)
    requires |alpha| == |beta|
  {
    |x| == |alpha| && forall k :: 0 <= k < |alpha| ==> RowOf(alpha, beta, z, x, k) == if k == 0 then ONE else ZERO
  }

  /** The entries of the solution from x[k-1] on: x[k] = beta[k-1] x[k-1] / level k. */
  function Follow(alpha: seq<real>, beta: seq<real>, z: C, k: nat, previous: C): (x: seq<C>)
    requires |alpha| == |beta| && 1 <= k <= |alpha| && z.im != 0.0
    ensures |x| == |alpha| - k
    decreases |alpha| - k
  {
    if k == |alpha| then []
    else
      LevelIsOffAxis(alpha, beta, z, k);
      var x := Div(Scale(beta[k - 1], previous), Level(alpha, beta, z, k).value);
      [x] + Follow(alpha, beta, z, k + 1, x)
  }

  lemma {:induction false} FollowAt(alpha: seq<real>, beta: seq<real>, z: C, k: nat, previous: C, i: nat)
    requires |alpha| == |beta| && 1 <= k && k + i < |alpha| && z.im != 0.0
    ensures Level(alpha, beta, z, k + i).Some? && Level(alpha, beta, z, k + i).value != ZERO
    ensures var f := Follow(alpha, beta, z, k, previous);
      f[i] == Div(Scale(beta[k + i - 1], if i == 0 then previous else f[i - 1]), Level(alpha, beta, z, k + i).value)
    decreases i
  {
    LevelIsOffAxis(alpha, beta, z, k);
    if i > 0 {
      var x := Div(Scale(beta[k - 1], previous), Level(alpha, beta, z, k).value);
      FollowAt(alpha, beta, z, k + 1, x, i - 1);
    }
  }

  /** beta times an entry that follows its predecessor is the tail times that predecessor. */
  lemma TailTimes(alpha: seq<real>, beta: seq<real>, z: C, k: nat, previous: C, x: C)
    requires |alpha| == |beta| && 1 <= k < |alpha| && z.im != 0.0
    requires Level(alpha, beta, z, k).Some? && Level(alpha, beta, z, k).value != ZERO
    requires x == Div(Scale(beta[k - 1], previous), Level(alpha, beta, z, k).value)
    ensures Tail(alpha, beta, z, k).Some?
    ensures Scale(beta[k - 1], x) == Mul(Tail(alpha, beta, z, k).value, previous)
  {
    hide Mul, Scale, Div, Square;
    var b, d := beta[k - 1], Level(alpha, beta, z, k).value;
    var t := Tail(alpha, beta, z, k).value;
    calc {
      Mul(d, Scale(b, x));
      { MulScale(b, d, x); DivCancels(Scale(b, previous), d); }
      Scale(b, Scale(b, previous));
      { ScaleScale(b, b, previous); SquareIs(b); MulReal(previous, Square(b)); }
      Mul(C(Square(b), 0.0), previous);
      { DivCancels(C(Square(b), 0.0), d); }
      Mul(Mul(d, t), previous);
      { MulAssociative(d, t, previous); }
      Mul(d, Mul(t, previous));
    }
    DivUnique(Mul(d, Mul(t, previous)), d, Scale(b, x));
    DivUnique(Mul(d, Mul(t, previous)), d, Mul(t, previous));
  }

  lemma SquareIs(b: real)
    ensures b * b == Square(b)
  {
  }

  /** The part of row k at and right of the diagonal, once x[k+1] follows x[k]. */
  lemma RowCollapses(alpha: seq<real>, beta: seq<real>, z: C, x: seq<C>, k: nat)
    requires |alpha| == |beta| == |x| && k < |alpha| && z.im != 0.0
    requires k + 1 < |alpha| ==>
      && Level(alpha, beta, z, k + 1).Some? && Level(alpha, beta, z, k + 1).value != ZERO
      && x[k + 1] == Div(Scale(beta[k], x[k]), Level(alpha, beta, z, k + 1).value)
    ensures Level(alpha, beta, z, k).Some?
    ensures RowOf(alpha, beta, z, x, k)
         == Sub(Mul(Level(alpha, beta, z, k).value, x[k]), if k == 0 then ZERO else Scale(beta[k - 1], x[k - 1]))
  {
    hide Mul, Scale, Div;
    LevelIsOffAxis(alpha, beta, z, k);
    var s := Sub(z, C(alpha[k], 0.0));
    var t := Tail(alpha, beta, z, k + 1).value;
    if k + 1 < |alpha| {
      TailTimes(alpha, beta, z, k + 1, x[k], x[k + 1]);
    } else {
      MulZero(x[k]);
    }
    MulCommutes(x[k], Sub(s, t));
    MulCommutes(x[k], s);
    MulCommutes(x[k], t);
    MulSub(x[k], s, t);
  }

  /** The solution the continued fraction spells out. */
  function Solution(alpha: seq<real>, beta: seq<real>, z: C): (x: seq<C>)
    requires |alpha| == |beta| && 1 <= |alpha| && z.im != 0.0
    ensures |x| == |alpha|
  {
    LevelIsOffAxis(alpha, beta, z, 0);
    var g := Resolvent(alpha, beta, z).value;
    [g] + Follow(alpha, beta, z, 1, g)
  }

  lemma SolutionExists(alpha: seq<real>, beta: seq<real>, z: C)
    requires |alpha| == |beta| && 1 <= |alpha| && z.im != 0.0
    ensures Solves(alpha, beta, z, Solution(alpha, beta, z))
  {
    hide Mul, Scale, Div;
    var x := Solution(alpha, beta, z);
    LevelIsOffAxis(alpha, beta, z, 0);
    forall k | 0 <= k < |alpha|
      ensures RowOf(alpha, beta, z, x, k) == if k == 0 then ONE else ZERO
    {
      if k + 1 < |alpha| {
        FollowAt(alpha, beta, z, 1, x[0], k);
      }
      RowCollapses(alpha, beta, z, x, k);
      if k == 0 {
        DivCancels(ONE, Level(alpha, beta, z, 0).value);
      } else {
        FollowAt(alpha, beta, z, 1, x[0], k - 1);
        DivCancels(Scale(beta[k - 1], x[k - 1]), Level(alpha, beta, z, k).value);
      }
    }
  }

  /** In any solution each entry follows its predecessor. */
  lemma {:induction false} SolutionFollows(alpha: seq<real>, beta: seq<real>, z: C, x: seq<C>, k: nat)
    requires |alpha| == |beta| && 1 <= k < |alpha| && z.im != 0.0
    requires Solves(alpha, beta, z, x)
    ensures Level(alpha, beta, z, k).Some? && Level(alpha, beta, z, k).value != ZERO
    ensures x[k] == Div(Scale(beta[k - 1], x[k - 1]), Level(alpha, beta, z, k).value)
    decreases |alpha| - k
  {
    hide Mul, Scale, Div;
    LevelIsOffAxis(alpha, beta, z, k);
    if k + 1 < |alpha| {
      SolutionFollows(alpha, beta, z, x, k + 1);
    }
    RowCollapses(alpha, beta, z, x, k);
    var d := Level(alpha, beta, z, k).value;
    assert Mul(d, x[k]) == Scale(beta[k - 1], x[k - 1]) by {
      SubZero(Mul(d, x[k]), Scale(beta[k - 1], x[k - 1]));
    }
    DivUnique(Scale(beta[k - 1], x[k - 1]), d, x[k]);
  }

  lemma SubZero(a: C, b: C)
    requires Sub(a, b) == ZERO
    ensures a == b
  {
  }

  /** g is the first component of the one solution of (z - T) x = e1. */
  lemma FractionIsTheResolvent(alpha: seq<real>, beta: seq<real>, z: C)
    requires |alpha| == |beta| && 1 <= |alpha| && z.im != 0.0
    ensures Resolvent(alpha, beta, z).Some?
    ensures exists x :: Solves(alpha, beta, z, x)
    ensures forall x :: Solves(alpha, beta, z, x) ==> x[0] == Resolvent(alpha, beta, z).value
  {
    hide Mul, Scale, Div;
    LevelIsOffAxis(alpha, beta, z, 0);
    SolutionExists(alpha, beta, z);
    forall x | Solves(alpha, beta, z, x)
      ensures x[0] == Resolvent(alpha, beta, z).value
    {
      if 1 < |alpha| {
        SolutionFollows(alpha, beta, z, x, 1);
      }
      RowCollapses(alpha, beta, z, x, 0);
      var d := Level(alpha, beta, z, 0).value;
      assert Mul(d, x[0]) == ONE by {
        assert Sub(Mul(d, x[0]), ZERO) == ONE;
      }
      DivUnique(ONE, d, x[0]);
    }
  }

  /** The tail depends only on coefficients up to the first zero beta. */
  lemma {:induction false} TailStopsAtZeroBeta(a: seq<real>, b: seq<real>, a': seq<real>, b': seq<real>, z: C, m: nat, n: nat)
    requires |a| == |b| && |a'| == |b'| && z.im != 0.0
    requires 1 <= n <= m < |a| && m < |a'|
    requires a[..m] == a'[..m] && b[..m] == b'[..m] && b[m - 1] == 0.0
    ensures Tail(a, b, z, n) == Tail(a', b', z, n)
    decreases m - n
  {
    hide Div;
    if n < m {
      TailStopsAtZeroBeta(a, b, a', b', z, m, n + 1);
      assert a[n] == a[..m][n] == a'[n];
      assert b[n - 1] == b[..m][n - 1] == b'[n - 1];
    } else {
      assert b[m - 1] == b[..m][m - 1] == b'[m - 1];
      LevelIsOffAxis(a, b, z, m);
      LevelIsOffAxis(a', b', z, m);
      ZeroOver(Level(a, b, z, m).value);
      ZeroOver(Level(a', b', z, m).value);
    }
  }

  lemma ZeroOver(d: C)
    requires d != ZERO
    ensures Div(C(Square(0.0), 0.0), d) == ZERO
  {
    Norm2Sign(d);
    assert Square(0.0) == 0.0;
    MulZero(Conj(d));
    ScaleDelta(1.0 / Norm2(d));
  }

  /** A zero beta decouples the rest: g is the same whatever coefficients follow it. */
  lemma ZeroBetaDecouples(a: seq<real>, b: seq<real>, a': seq<real>, b': seq<real>, z: C, m: nat)
    requires |a| == |b| && |a'| == |b'| && z.im != 0.0
    requires 1 <= m < |a| && m < |a'|
    requires a[..m] == a'[..m] && b[..m] == b'[..m] && b[m - 1] == 0.0
    ensures Resolvent(a, b, z) == Resolvent(a', b', z)
  {
    TailStopsAtZeroBeta(a, b, a', b', z, m, 1);
    assert a[0] == a[..m][0] == a'[0];
  }

  // ---------------------------------------------------------------- coefficients that may not be numbers

  /** The numbers among coefficients. */
  function Values(nums: seq<Num>): (r: seq<real>)
    ensures |r| == |nums| && forall k :: 0 <= k < |nums| && nums[k].Some? ==> r[k] == nums[k].value
  {
    seq(|nums|, k requires 0 <= k < |nums| => if nums[k].Some? then nums[k].value else 0.0)
  }

  /** What the loop reads at index k are numbers. */
  predicate NumberAt(alpha: seq<Num>, beta: seq<Num>, k: nat)
    requires |alpha| == |beta| && k < |alpha|
  {
    alpha[k].Some? && (k > 0 ==> beta[k - 1].Some?)
  }

  /** Every coefficient that the loop reads from index n on is a number; it never reads the last beta. */
  predicate NumbersFrom(alpha: seq<Num>, beta: seq<Num>, n: nat)
    requires |alpha| == |beta|
  {
    forall k :: n <= k < |alpha| ==> NumberAt(alpha, beta, k)
  }

  function BelowNum(z: C, alpha: Num, cf: Option<C>): Option<C> { if alpha.Some? then Below(z, alpha.value, cf) else None }

  function SquareOver(beta: Num, d: Option<C>): Option<C> {
    if beta.Some? then Divide(C(Square(beta.value), 0.0), d) else None
  }

  /** The value of `cf` at index n, none as soon as a coefficient from there on is no number. */
  function NumTail(alpha: seq<Num>, beta: seq<Num>, z: C, n: nat): Option<C>
    requires |alpha| == |beta| && 1 <= n <= |alpha|
  {
    if NumbersFrom(alpha, beta, n) then Tail(Values(alpha), Values(beta), z, n) else None
  }

  function NumResolvent(alpha: seq<Num>, beta: seq<Num>, z: C): Option<C>
    requires |alpha| == |beta| && 1 <= |alpha|
  {
    if NumbersFrom(alpha, beta, 0) then Resolvent(Values(alpha), Values(beta), z) else None
  }

  /** One round of the loop, and the last division, on coefficients of either kind. */
  lemma NumStep(alpha: seq<Num>, beta: seq<Num>, z: C, n: nat)
    requires |alpha| == |beta| && n < |alpha|
    ensures n > 0 ==> NumTail(alpha, beta, z, n) == SquareOver(beta[n - 1], BelowNum(z, alpha[n], NumTail(alpha, beta, z, n + 1)))
    ensures n == 0 ==> NumResolvent(alpha, beta, z) == Divide(ONE, BelowNum(z, alpha[0], NumTail(alpha, beta, z, 1)))
  {
    hide Div, Square;
    assert NumbersFrom(alpha, beta, n) <==> NumberAt(alpha, beta, n) && NumbersFrom(alpha, beta, n + 1);
  }

  // ---------------------------------------------------------------- the loop

  datatype Outcome<T> = Spectrum(eps2: T) | ZeroDivision | IndexError

  /** 16 pi^2 / (V n_k n_spin n_spinor) */
  function Prefactor(pi: real, cells: real): real
    requires cells != 0.0
  {
    16.0 * Square(pi) / cells
  }

  /** What every entry of the filled spectrum holds. */
  function Entry(omega: real, eta: real, alpha: seq<Num>, beta: seq<Num>, norm: real, pi: real, cells: real): Num
    requires |alpha| == |beta| && 1 <= |alpha| && pi != 0.0 && cells != 0.0
  {
    Epsilon2(NumResolvent(alpha, beta, C(omega, eta)), norm, Prefactor(pi, cells), pi)
  }

  /**
   An entry is a number exactly when the coefficients read for it are and no trailing continuant
   vanishes; with a broadening none does.
   */
  lemma EntryIffNumbers(omega: real, eta: real, alpha: seq<Num>, beta: seq<Num>, norm: real, pi: real, cells: real)
    requires |alpha| == |beta| && 1 <= |alpha| && pi != 0.0 && cells != 0.0
    ensures Entry(omega, eta, alpha, beta, norm, pi, cells).Some?
      <==> NumbersFrom(alpha, beta, 0) && Regular(Values(alpha), Values(beta), C(omega, eta), 0)
    ensures eta != 0.0 ==> Regular(Values(alpha), Values(beta), C(omega, eta), 0)
  {
    FiniteIffRegular(Values(alpha), Values(beta), C(omega, eta));
    if eta != 0.0 {
      LevelIsOffAxis(Values(alpha), Values(beta), C(omega, eta), 0);
    }
  }

  lemma Scaled(pi: real, cells: real, n2: real, im: real)
    requires pi > 0.0 && cells != 0.0
    ensures -(16.0 * Square(pi) / cells) * n2 * im / pi * cells == -16.0 * pi * (n2 * im)
  {
    var p, y := 16.0 * Square(pi) / cells, n2 * im;
    assert -p * n2 * im == -(p * y);
    var e := -(p * y) / pi;
    assert p * cells == 16.0 * Square(pi);
    assert e * pi == -(p * y);
    assert (e * cells) * pi == (e * pi) * cells == -(p * cells) * y == -16.0 * Square(pi) * y;
    assert -16.0 * Square(pi) * y == (-16.0 * pi * y) * pi;
    CancelPi(e * cells, -16.0 * pi * y, pi);
  }

  lemma CancelPi(a: real, b: real, pi: real)
    requires pi > 0.0 && a * pi == b * pi
    ensures a == b
  {
    assert (a - b) * pi == 0.0;
  }

  /**
   The scale of an entry: times the cells it is -16 pi times the squared norm times the imaginary part
   of the first component of any solution of (z - T) x = e1.
   */
  lemma EntryScale(omega: real, eta: real, alpha: seq<Num>, beta: seq<Num>, norm: real, pi: real, cells: real, x: seq<C>)
    requires |alpha| == |beta| && 1 <= |alpha| && pi > 0.0 && cells != 0.0 && eta != 0.0 && NumbersFrom(alpha, beta, 0)
    requires Solves(Values(alpha), Values(beta), C(omega, eta), x)
    ensures var e := Entry(omega, eta, alpha, beta, norm, pi, cells);
      e.Some? && e.value * cells == -16.0 * pi * (norm * norm * x[0].im)
  {
    FractionIsTheResolvent(Values(alpha), Values(beta), C(omega, eta));
    hide Resolvent, Solves;
    SquareIs(norm);
    Scaled(pi, cells, norm * norm, x[0].im);
  }

  /**
   One continued fraction per row of `alphas`, for all frequencies at once.  `cells` is the
   product V n_k n_spin n_spinor of the prefactor's denominator.
   */
  method AbsorptionFromHaydock(omegas: seq<real>, eta: real, alphas: seq<seq<Num>>, betas: seq<seq<Num>>,
                               norms: seq<real>, nIter: nat, pi: real, cells: real)
    returns (r: Outcome<array2<Num>>)
    requires |alphas| == |betas| == |norms| && pi > 0.0
    requires forall a :: 0 <= a < |alphas| ==> |alphas[a]| == |betas[a]| == nIter
    ensures r.ZeroDivision? <==> cells == 0.0
    ensures r.IndexError? <==> cells != 0.0 && nIter == 0 && |alphas| > 0
    ensures r.Spectrum? ==>
      && r.eps2.Length0 == |omegas| && r.eps2.Length1 == |alphas|
      && forall w, a :: 0 <= w < |omegas| && 0 <= a < |alphas| ==>
           r.eps2[w, a] == Entry(omegas[w], eta, alphas[a], betas[a], norms[a], pi, cells)
    ensures r.Spectrum? && eta != 0.0 && nIter > 0 ==>
      forall w, a, x: seq<C> {:trigger Solves(Values(alphas[a]), Values(betas[a]), C(omegas[w], eta), x)} ::
        0 <= w < |omegas| && 0 <= a < |alphas| && NumbersFrom(alphas[a], betas[a], 0)
        && Solves(Values(alphas[a]), Values(betas[a]), C(omegas[w], eta), x) ==>
          r.eps2[w, a].Some? && r.eps2[w, a].value * cells == -16.0 * pi * (norms[a] * norms[a] * x[0].im)
  {
    hide Div, Square, NumTail, NumResolvent, Solves, NumbersFrom;
    if cells == 0.0 {
      return ZeroDivision;
    }
    var pref := Prefactor(pi, cells);
    var z := seq(|omegas|, w requires 0 <= w < |omegas| => C(omegas[w], eta));
    var eps2 := new Num[|omegas|, |alphas|]((_, _) => Some(0.0));
    for a := 0 to |alphas|
      invariant nIter > 0 || a == 0
      invariant forall w, b :: 0 <= w < |omegas| && 0 <= b < a ==>
        eps2[w, b] == Entry(omegas[w], eta, alphas[b], betas[b], norms[b], pi, cells)
    {
      if nIter == 0 {
        return IndexError;
      }
      var cf: seq<Option<C>> := seq(|z|, _ => Some(ZERO));
      NothingRead(alphas[a], betas[a], z);
      var n: int := nIter - 1;
      while n > 0
        invariant 0 <= n < nIter && |cf| == |z|
        invariant forall w :: 0 <= w < |z| ==> cf[w] == NumTail(alphas[a], betas[a], z[w], n + 1)
      {
        forall w | 0 <= w < |z|
          ensures NumTail(alphas[a], betas[a], z[w], n) == SquareOver(betas[a][n - 1], BelowNum(z[w], alphas[a][n], cf[w]))
        {
          NumStep(alphas[a], betas[a], z[w], n);
        }
        cf := seq(|z|, w requires 0 <= w < |z| => SquareOver(betas[a][n - 1], BelowNum(z[w], alphas[a][n], cf[w])));
        n := n - 1;
      }
      forall w | 0 <= w < |z|
        ensures NumResolvent(alphas[a], betas[a], z[w]) == Divide(ONE, BelowNum(z[w], alphas[a][0], cf[w]))
      {
        NumStep(alphas[a], betas[a], z[w], 0);
      }
      var g := seq(|z|, w requires 0 <= w < |z| => Divide(ONE, BelowNum(z[w], alphas[a][0], cf[w])));
      forall w | 0 <= w < |z| {
        eps2[w, a] := Epsilon2(g[w], norms[a], pref, pi);
      }
    }
    hide Entry, Prefactor;
    if nIter > 0 && eta != 0.0 {
      EntriesScale(omegas, eta, alphas, betas, norms, pi, cells);
    }
    return Spectrum(eps2);
  }

  lemma EntriesScale(omegas: seq<real>, eta: real, alphas: seq<seq<Num>>, betas: seq<seq<Num>>, norms: seq<real>, pi: real,
                     cells: real)
    requires |alphas| == |betas| == |norms| && pi > 0.0 && cells != 0.0 && eta != 0.0
    requires forall a :: 0 <= a < |alphas| ==> |alphas[a]| == |betas[a]| > 0
    ensures forall w, a, x: seq<C> {:trigger Solves(Values(alphas[a]), Values(betas[a]), C(omegas[w], eta), x)} ::
      0 <= w < |omegas| && 0 <= a < |alphas| && NumbersFrom(alphas[a], betas[a], 0)
      && Solves(Values(alphas[a]), Values(betas[a]), C(omegas[w], eta), x) ==>
        var e := Entry(omegas[w], eta, alphas[a], betas[a], norms[a], pi, cells);
        |x| > 0 && e.Some? && e.value * cells == -16.0 * pi * (norms[a] * norms[a] * x[0].im)
  {
    hide Solves, Entry, NumbersFrom;
    forall w, a, x: seq<C> | 0 <= w < |omegas| && 0 <= a < |alphas| && NumbersFrom(alphas[a], betas[a], 0)
                             && Solves(Values(alphas[a]), Values(betas[a]), C(omegas[w], eta), x)
      ensures var e := Entry(omegas[w], eta, alphas[a], betas[a], norms[a], pi, cells);
        |x| > 0 && e.Some? && e.value * cells == -16.0 * pi * (norms[a] * norms[a] * x[0].im)
    {
      SolutionLength(Values(alphas[a]), Values(betas[a]), C(omegas[w], eta), x);
      EntryScale(omegas[w], eta, alphas[a], betas[a], norms[a], pi, cells, x);
    }
  }

  lemma SolutionLength(alpha: seq<real>, beta: seq<real>, z: C, x: seq<C>)
    requires |alpha| == |beta| && Solves(alpha, beta, z, x)
    ensures |x| == |alpha|
  {
  }

  lemma NothingRead(alpha: seq<Num>, beta: seq<Num>, z: seq<C>)
    requires |alpha| == |beta| && 1 <= |alpha|
    ensures forall w :: 0 <= w < |z| ==> NumTail(alpha, beta, z[w], |alpha|) == Some(ZERO)
  {
  }
}
