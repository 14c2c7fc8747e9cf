/**
 What a truncated Haydock run is worth: the tridiagonal matrix of its first m steps has the first
 2 m moments of H for the seed.
 */
module HaydockMoments {
  import opened Complex
  import opened Vectors
  import opened HaydockKrylov
  import opened HaydockRecursion
  import opened HaydockResolvent
  import Spectrum = HaydockSpectrum

  // ---------------------------------------------------------------- the tridiagonal matrix

  /** Entry k of T x, for the symmetric tridiagonal T of alpha and beta. */
  function RowTimes(alpha: seq<real>, beta: seq<real>, x: seq<C>, k: nat): C
    requires |alpha| == |beta| == |x| && k < |x|
  {
    Add(Add(if k + 1 == |x| then ZERO else Scale(beta[k], x[k + 1]), Scale(alpha[k], x[k])),
        if k == 0 then ZERO else Scale(beta[k - 1], x[k - 1]))
  }

  function TimesT(alpha: seq<real>, beta: seq<real>, x: seq<C>): (y: seq<C>)
    requires |alpha| == |beta| == |x|
    ensures |y| == |x|
  {
    seq(|x|, k requires 0 <= k < |x| => RowTimes(alpha, beta, x, k))
  }

  /** It is the T of the continued fraction: row k of (z - T) x is z x_k less entry k of T x. */
  lemma SameMatrix(alpha: seq<real>, beta: seq<real>, z: C, x: seq<C>, k: nat)
    requires |alpha| == |beta| == |x| && k < |x|
    ensures Spectrum.RowOf(alpha, beta, z, x, k) == Sub(Mul(z, x[k]), TimesT(alpha, beta, x)[k])
  {
    hide Mul, Scale;
    JoinShift(z, alpha[k], x[k], if k + 1 == |x| then 0.0 else beta[k], if k + 1 == |x| then ZERO else x[k + 1],
              if k == 0 then ZERO else Scale(beta[k - 1], x[k - 1]));
    ScaleDelta(0.0);
  }

  /** T^k e1 */
  function TPower(alpha: seq<real>, beta: seq<real>, k: nat): (x: seq<C>)
    requires |alpha| == |beta|
    ensures |x| == |alpha|
  {
    if k == 0 then Unit(|alpha|, 0) else TimesT(alpha, beta, TPower(alpha, beta, k - 1))
  }

  // ---------------------------------------------------------------- components and mixtures

  /** <s_i, w> for the first m vectors. */
  ghost function Project(row: Row, m: nat, w: Vec): (x: seq<C>)
    requires Runs(row, m) && |w| == row.n
    ensures |x| == m
  {
    seq(m, i requires 0 <= i < m => Component(row, m, w, i))
  }

  /** The inner product with a mixture is the one of the components. */
  lemma {:induction false} InnerMix(row: Row, m: nat, x: seq<C>, y: Vec, count: nat)
    requires Runs(row, m) && |x| == m && count <= m && |y| == row.n
    ensures Inner(y, Mix(row, m, x, count)) == Inner(Project(row, m, y)[..count], x[..count])
    ensures count == m ==> Inner(y, Mix(row, m, x, m)) == Inner(Project(row, m, y), x)
    decreases count
  {
    hide Mul, Inner, Row.At, Row.S, Sum, Times, Zero;
    var p := Project(row, m, y);
    if count == 0 {
      InnerZero(y);
      EmptyInner();
    } else {
      var k := count - 1;
      LiveBefore(row, k, m - 1);
      var s := row.S(k);
      InnerMix(row, m, x, y, k);
      InnerSum(y, Mix(row, m, x, k), Times(x[k], s));
      InnerTimes(y, x[k], s);
      InnerConjugate(s, y);
      MulCommutes(x[k], Inner(y, s));
      InnerLast(p[..k], x[..k], p[k], x[k]);
      assert p[..k] + [p[k]] == p[..count] && x[..k] + [x[k]] == x[..count];
    }
    assert p[..m] == p && x[..m] == x;
  }

  lemma EmptyInner()
    ensures Inner([], []) == ZERO
  {
  }

  lemma ProjectBasis(row: Row, m: nat, i: nat)
    requires Runs(row, m) && i < m
    ensures row.At(i).Live? && Project(row, m, row.S(i)) == Unit(m, i)
  {
    hide Inner, Row.At, Row.S, Mul;
    LiveBefore(row, i, m - 1);
    RecursionIsOrthonormal(row, m - 1);
    forall l | 0 <= l < m
      ensures Component(row, m, row.S(i), l) == if l == i then ONE else ZERO
    {
      OrthonormalAt(row, m - 1, l, i);
    }
  }

  /** A mixture has the components it was made with. */
  lemma ProjectMix(row: Row, m: nat, x: seq<C>)
    requires Runs(row, m) && |x| == m
    ensures Project(row, m, Mix(row, m, x, m)) == x
  {
    hide Inner, Row.At, Row.S, Mix;
    forall i | 0 <= i < m
      ensures Component(row, m, Mix(row, m, x, m), i) == x[i]
    {
      ProjectBasis(row, m, i);
      InnerMix(row, m, x, row.S(i), m);
      InnerUnit(x, i);
    }
  }

  /** w less its mixture is orthogonal to the first m vectors. */
  lemma RestOfMix(row: Row, m: nat, w: Vec, i: nat)
    requires Runs(row, m) && |w| == row.n && i < m
    ensures row.At(i).Live?
    ensures Inner(Sum(w, Times(C(-1.0, 0.0), Mix(row, m, Project(row, m, w), m))), row.S(i)) == ZERO
  {
    hide Inner, Row.At, Row.S, Mix, Mul, Sum, Times, Scale;
    LiveBefore(row, i, m - 1);
    var x := Project(row, m, w);
    var v := Mix(row, m, x, m);
    var minus := Times(C(-1.0, 0.0), v);
    ProjectMix(row, m, x);
    assert Component(row, m, v, i) == x[i] == Component(row, m, w, i);
    InnerSum(row.S(i), w, minus);
    InnerTimes(row.S(i), C(-1.0, 0.0), v);
    MulReal(Inner(row.S(i), v), -1.0);
    MinusOne(Inner(row.S(i), w), Inner(row.S(i), v));
    InnerConjugate(row.S(i), Sum(w, minus));
  }

  lemma RestUpTo(row: Row, m: nat, w: Vec, j: nat)
    requires Runs(row, m) && |w| == row.n && j < m
    ensures OrthogonalUpTo(row, Sum(w, Times(C(-1.0, 0.0), Mix(row, m, Project(row, m, w), m))), j)
  {
    hide Inner, Row.At, Row.S, Row.Valid, Mix, Sum, Times, Project;
    var rest := Sum(w, Times(C(-1.0, 0.0), Mix(row, m, Project(row, m, w), m)));
    forall i | 0 <= i <= j && row.At(i).Live?
      ensures Inner(rest, row.S(i)) == ZERO
    {
      RestOfMix(row, m, w, i);
    }
  }

  /** A low power lies among the first m vectors, so its inner products are those of the components. */
  lemma PowerByComponents(row: Row, m: nat, j: nat, w: Vec)
    requires Runs(row, m) && |w| == row.n && j < m
    ensures Inner(Power(row, j), w) == Inner(Project(row, m, Power(row, j)), Project(row, m, w))
  {
    hide Inner, Row.At, Row.S, Row.Valid, Row.Norm, Row.Rest, Mul, Scale, Conj, Sub, Add, Sum, Times, Mix, Project, Component, Power;
    var p, x := Power(row, j), Project(row, m, w);
    var v := Mix(row, m, x, m);
    var minus := Times(C(-1.0, 0.0), v);
    var rest := Sum(w, minus);
    LiveBefore(row, j, m - 1);
    RestUpTo(row, m, w, j);
    OrthogonalToPower(row, rest, j);
    InnerConjugate(rest, p);
    ConjZero();
    InnerSum(p, w, minus);
    InnerTimes(p, C(-1.0, 0.0), v);
    MulReal(Inner(p, v), -1.0);
    MinusOne(Inner(p, w), Inner(p, v));
    Spectrum.SubZero(Inner(p, w), Inner(p, v));
    InnerMix(row, m, x, p, m);
  }

  lemma ConjZero()
    ensures Conj(ZERO) == ZERO
  {
  }

  // ---------------------------------------------------------------- H becomes T

  lemma LiveCoefficients(row: Row, m: nat, i: nat)
    requires Runs(row, m) && i < m
    ensures row.At(i).Live? && Alphas(row, m)[i] == row.Alpha(row.At(i))
    ensures i + 1 < m ==> row.At(i + 1).Live? && Betas(row, m)[i] == row.At(i + 1).beta
    ensures i > 0 ==> row.At(i - 1).Live? && Betas(row, m)[i - 1] == row.At(i).beta
  {
    hide Row.At, Row.Scan, Row.Alpha;
    LiveBefore(row, i, m - 1);
    Emitted(row, m, i);
    if i + 1 < m {
      LiveBefore(row, i + 1, m - 1);
    }
    if i > 0 {
      LiveBefore(row, i - 1, m - 1);
      Emitted(row, m, i - 1);
    }
  }

  /** <w, H s_i> inside the first m vectors. */
  lemma AppliedInside(row: Row, m: nat, w: Vec, i: nat)
    requires Runs(row, m) && |w| == row.n && i < m && Inner(w, row.Rest(row.At(m - 1))) == ZERO
    ensures row.At(i).Live? && |row.H(row.S(i))| == row.n
    ensures Inner(w, row.H(row.S(i)))
         == Add(Add(if i + 1 == m then ZERO else Scale(Betas(row, m)[i], Conj(Component(row, m, w, i + 1))),
                    Scale(Alphas(row, m)[i], Conj(Component(row, m, w, i)))),
                if i == 0 then ZERO else Scale(Betas(row, m)[i - 1], Conj(Component(row, m, w, i - 1))))
  {
    hide Inner, Row.At, Row.Rest, Row.Alpha, Mul, Scale, Alphas, Betas, Zero;
    LiveCoefficients(row, m, i);
    Previous(row, i);
    Moved(row, w, row.S(i));
    InnerConjugate(row.S(i), w);
    if i == 0 {
      InnerZero(w);
      ScaleDelta(0.0);
    } else {
      InnerConjugate(row.S(i - 1), w);
    }
    if i + 1 < m {
      Applied(row, i, w);
      InnerConjugate(row.S(i + 1), w);
    } else {
      InnerRest(row, i, w);
      MoveOver(Inner(w, row.H(row.S(i))), Scale(row.Alpha(row.At(i)), Inner(w, row.S(i))),
               Scale(row.At(i).beta, Inner(w, row.At(i).prev)));
    }
  }

  lemma MoveOver(h: C, a: C, b: C)
    requires Sub(Sub(h, a), b) == ZERO
    ensures h == Add(Add(ZERO, a), b)
  {
  }

  /** On components H acts as T, for vectors that the last residual does not see. */
  lemma ProjectApplied(row: Row, m: nat, w: Vec)
    requires Runs(row, m) && |w| == row.n && Inner(w, row.Rest(row.At(m - 1))) == ZERO
    ensures |row.H(w)| == row.n
    ensures Project(row, m, row.H(w)) == TimesT(Alphas(row, m), Betas(row, m), Project(row, m, w))
  {
    Moved(row, w, w);
    hide Inner, Row.At, Row.Rest, Row.S, Row.Valid, Component, RowTimes, Alphas, Betas;
    forall i | 0 <= i < m
      ensures Component(row, m, row.H(w), i) == RowTimes(Alphas(row, m), Betas(row, m), Project(row, m, w), i)
    {
      ComponentApplied(row, m, w, i);
    }
  }

  lemma ComponentApplied(row: Row, m: nat, w: Vec, i: nat)
    requires Runs(row, m) && |w| == row.n && i < m && Inner(w, row.Rest(row.At(m - 1))) == ZERO
    ensures |row.H(w)| == row.n
    ensures Component(row, m, row.H(w), i) == RowTimes(Alphas(row, m), Betas(row, m), Project(row, m, w), i)
  {
    Moved(row, w, w);
    hide Inner, Row.At, Row.Rest, Row.S, Mul, Scale, Alphas, Betas, Row.Valid, Conj, Add, Component;
    var a, b := Alphas(row, m), Betas(row, m);
    var x := Project(row, m, w);
    assert forall l :: 0 <= l < m ==> x[l] == Component(row, m, w, l);
    AppliedInside(row, m, w, i);
    ComponentConjugate(row, m, w, i);
    ConjTerms(i + 1 == m, b[i], if i + 1 == m then ZERO else x[i + 1], a[i], x[i],
              i == 0, if i == 0 then 0.0 else b[i - 1], if i == 0 then ZERO else x[i - 1]);
  }

  lemma ComponentConjugate(row: Row, m: nat, w: Vec, i: nat)
    requires Runs(row, m) && |w| == row.n && i < m
    ensures row.At(i).Live? && |row.H(w)| == |row.H(row.S(i))| == row.n
    ensures Component(row, m, row.H(w), i) == Conj(Inner(w, row.H(row.S(i))))
  {
    hide Inner, Row.At, Row.S, Row.Valid, Conj;
    LiveBefore(row, i, m - 1);
    Moved(row, row.S(i), w);
    InnerConjugate(w, row.H(row.S(i)));
  }

  /** T is real: it commutes with real multiples. */
  lemma TimesTScaled(alpha: seq<real>, beta: seq<real>, t: real, x: seq<C>)
    requires |alpha| == |beta| == |x|
    ensures TimesT(alpha, beta, Times(C(t, 0.0), x)) == Times(C(t, 0.0), TimesT(alpha, beta, x))
  {
    hide Mul, Scale;
    var y := Times(C(t, 0.0), x);
    forall k | 0 <= k < |x|
      ensures RowTimes(alpha, beta, y, k) == Mul(C(t, 0.0), RowTimes(alpha, beta, x, k))
    {
      ScaledTerms(t, if k + 1 == |x| then 0.0 else beta[k], if k + 1 == |x| then ZERO else x[k + 1], alpha[k], x[k],
                  if k == 0 then 0.0 else beta[k - 1], if k == 0 then ZERO else x[k - 1]);
      ScaleDelta(0.0);
    }
  }

  lemma ScaledTerms(t: real, b: real, p: C, a: real, q: C, e: real, r: C)
    ensures Add(Add(Scale(b, Mul(C(t, 0.0), p)), Scale(a, Mul(C(t, 0.0), q))), Scale(e, Mul(C(t, 0.0), r)))
         == Mul(C(t, 0.0), Add(Add(Scale(b, p), Scale(a, q)), Scale(e, r)))
    ensures Mul(C(t, 0.0), ZERO) == ZERO
  {
    hide Mul, Scale;
    MulReal(p, t);
    MulReal(q, t);
    MulReal(r, t);
    MulZero(C(t, 0.0));
    ScaleSwap(b, t, p);
    ScaleSwap(a, t, q);
    ScaleSwap(e, t, r);
    ScaleAdd(t, Scale(b, p), Scale(a, q));
    ScaleAdd(t, Add(Scale(b, p), Scale(a, q)), Scale(e, r));
    MulReal(Add(Add(Scale(b, p), Scale(a, q)), Scale(e, r)), t);
  }

  lemma ProjectSeed(row: Row, m: nat)
    requires Runs(row, m)
    ensures Project(row, m, row.seed) == Times(C(row.Norm(row.seed), 0.0), Unit(m, 0))
  {
    hide Inner, Row.At, Row.S, Mul, Row.Norm, Sum, Zero;
    var t := C(row.Norm(row.seed), 0.0);
    LiveBefore(row, 0, m - 1);
    SeedAlong(row);
    ProjectBasis(row, m, 0);
    forall i | 0 <= i < m
      ensures Component(row, m, row.seed, i) == Mul(t, Unit(m, 0)[i])
    {
      LiveBefore(row, i, m - 1);
      var s, s0 := row.S(i), row.S(0);
      InnerSum(s, Times(t, s0), Zero(row.n));
      InnerTimes(s, t, s0);
      InnerZero(s);
      AddZero(Mul(t, Inner(s, s0)));
      assert Project(row, m, s0)[i] == Inner(s, s0);
    }
  }

  /** The components of the first m powers of H are those of T. */
  lemma {:induction false} PowersProject(row: Row, m: nat, k: nat)
    requires Runs(row, m) && k <= m
    ensures Project(row, m, Power(row, k)) == Times(C(row.Norm(row.seed), 0.0), TPower(Alphas(row, m), Betas(row, m), k))
    decreases k
  {
    hide Inner, Row.At, Row.S, Mul, Row.Norm, Row.Rest, Project, TimesT, Times, Alphas, Betas, Unit;
    if k == 0 {
      ProjectSeed(row, m);
    } else {
      PowersProject(row, m, k - 1);
      RestAgainstPower(row, m - 1, k - 1);
      ProjectApplied(row, m, Power(row, k - 1));
      TimesTScaled(Alphas(row, m), Betas(row, m), row.Norm(row.seed), TPower(Alphas(row, m), Betas(row, m), k - 1));
    }
  }

  // ---------------------------------------------------------------- T is symmetric

  lemma MixUnseen(row: Row, m: nat, x: seq<C>)
    requires Runs(row, m) && |x| == m
    ensures Inner(Mix(row, m, x, m), row.Rest(row.At(m - 1))) == ZERO
  {
    hide Inner, Row.At, Row.S, Row.Rest, Mix, Mul;
    var r := row.Rest(row.At(m - 1));
    RecursionIsOrthonormal(row, m - 1);
    forall i | 0 <= i < m
      ensures Component(row, m, r, i) == ZERO
    {
      RestIsOrthogonal(row, m - 1, i);
    }
    assert Project(row, m, r) == Zero(m);
    InnerMix(row, m, x, r, m);
    InnerZero(x);
    InnerConjugate(r, Mix(row, m, x, m));
  }

  /** T x is the components of H applied to the mixture of x. */
  lemma TimesTByMix(row: Row, m: nat, x: seq<C>)
    requires Runs(row, m) && |x| == m
    ensures var v := Mix(row, m, x, m);
      |row.H(v)| == row.n && TimesT(Alphas(row, m), Betas(row, m), x) == Project(row, m, row.H(v))
  {
    hide Inner, Row.At, Row.S, Row.Rest, Mix, Mul, Project, TimesT, Alphas, Betas;
    MixUnseen(row, m, x);
    ProjectApplied(row, m, Mix(row, m, x, m));
    ProjectMix(row, m, x);
  }

  lemma TIsSymmetric(row: Row, m: nat, y: seq<C>, x: seq<C>)
    requires Runs(row, m) && |x| == |y| == m
    ensures Inner(y, TimesT(Alphas(row, m), Betas(row, m), x)) == Inner(TimesT(Alphas(row, m), Betas(row, m), y), x)
  {
    hide Inner, Row.At, Row.S, Mix, Mul, Project, TimesT, Alphas, Betas;
    var u, v := Mix(row, m, y, m), Mix(row, m, x, m);
    TimesTByMix(row, m, x);
    TimesTByMix(row, m, y);
    InnerMix(row, m, y, row.H(v), m);
    InnerMix(row, m, x, row.H(u), m);
    InnerConjugate(Project(row, m, row.H(v)), y);
    InnerConjugate(row.H(v), u);
    Moved(row, u, v);
  }

  lemma {:induction false} TPowersMove(row: Row, m: nat, j: nat, l: nat)
    requires Runs(row, m)
    ensures var a, b := Alphas(row, m), Betas(row, m);
      Inner(TPower(a, b, j), TPower(a, b, l)) == Inner(Unit(m, 0), TPower(a, b, j + l))
    decreases j
  {
    hide Inner, Row.At, TimesT, Alphas, Betas, Unit;
    if j > 0 {
      var a, b := Alphas(row, m), Betas(row, m);
      TIsSymmetric(row, m, TPower(a, b, j - 1), TPower(a, b, l));
      assert TPower(a, b, l + 1) == TimesT(a, b, TPower(a, b, l));
      TPowersMove(row, m, j - 1, l + 1);
    }
  }

  lemma {:induction false} PowersMove(row: Row, j: nat, l: nat)
    requires row.Valid()
    ensures Inner(Power(row, j), Power(row, l)) == Inner(row.seed, Power(row, j + l))
    decreases j
  {
    hide Inner, Row.Valid;
    if j > 0 {
      Moved(row, Power(row, j - 1), Power(row, l));
      assert Power(row, l + 1) == row.H(Power(row, l));
      PowersMove(row, j - 1, l + 1);
    }
  }

  // ---------------------------------------------------------------- the moments

  lemma ScaledInner(t: real, x: Vec, y: Vec)
    requires |x| == |y|
    ensures Inner(Times(C(t, 0.0), x), Times(C(t, 0.0), y)) == Scale(Square(t), Inner(x, y))
  {
    hide Inner, Mul, Scale, Times;
    InnerTimes(Times(C(t, 0.0), x), C(t, 0.0), y);
    InnerTimes(x, C(t, 0.0), y);
    MulReal(Inner(x, y), t);
    MulReal(Scale(t, Inner(x, y)), t);
    ScaleScale(t, t, Inner(x, y));
  }

  /**
   After m live steps the seed's moments of H agree with those of the tridiagonal matrix of the m
   emitted alphas and the m - 1 betas between them, up to order 2 m - 1.
   */
  lemma MomentsMatch(row: Row, m: nat, k: nat)
    requires Runs(row, m) && k < 2 * m
    ensures Inner(row.seed, Power(row, k))
         == Scale(Square(row.Norm(row.seed)), TPower(Alphas(row, m), Betas(row, m), k)[0])
  {
    hide Inner, Row.At, Mul, Scale, Times, TimesT, Alphas, Betas, Unit, Project, Power, TPower, Square, Row.Norm;
    var j := if k < m then k else m - 1;
    var l := k - j;
    var t := row.Norm(row.seed);
    var a, b := Alphas(row, m), Betas(row, m);
    PowersMove(row, j, l);
    PowerByComponents(row, m, j, Power(row, l));
    PowersProject(row, m, j);
    PowersProject(row, m, l);
    ScaledInner(t, TPower(a, b, j), TPower(a, b, l));
    TPowersMove(row, m, j, l);
    InnerUnit(TPower(a, b, k), 0);
  }
}
