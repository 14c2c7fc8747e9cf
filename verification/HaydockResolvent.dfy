/**
 The two halves of the Haydock route together: when the recursion terminates, the
 continued fraction of its coefficients is the exact resolvent of the Hamiltonian, and
 it always terminates within the dimension of the space.
 */
module HaydockResolvent {
  import opened Complex
  import opened Vectors
  import opened HaydockRecursion
  import Spectrum = HaydockSpectrum
  import opened Wrappers

  /** The recursion made exactly m vectors: the m-th beta is the first zero norm. */
  ghost predicate TerminatesAt(row: Row, m: nat) {
    row.Valid() && 1 <= m && row.At(m - 1).Live? && row.At(m).Lost?
  }

  /** The recursion made at least m vectors. */
  ghost predicate Runs(row: Row, m: nat) {
    row.Valid() && 1 <= m && row.At(m - 1).Live?
  }

  ghost function Alphas(row: Row, m: nat): (a: seq<real>)
    requires row.Valid()
    ensures |a| == m
  {
    Spectrum.Values(row.Scan(row.Start(), m).0)
  }

  ghost function Betas(row: Row, m: nat): (b: seq<real>)
    requires row.Valid()
    ensures |b| == m
  {
    Spectrum.Values(row.Scan(row.Start(), m).1)
  }

  lemma Coefficients(row: Row, m: nat, k: nat)
    requires TerminatesAt(row, m) && k < m
    ensures row.At(k).Live? && row.Scan(row.Start(), m).0[k].Some? && row.Scan(row.Start(), m).1[k].Some?
    ensures Alphas(row, m)[k] == row.Alpha(row.At(k))
    ensures k + 1 < m ==> row.At(k + 1).Live? && Betas(row, m)[k] == row.At(k + 1).beta
    ensures k + 1 == m ==> Betas(row, m)[k] == 0.0
  {
    hide Mul, Inner, Residual, Times, Scale, Row.Scan;
    LiveBefore(row, k, m - 1);
    Emitted(row, m, k);
    ScanFrom(row, 0, m, k);
    if k + 1 < m {
      LiveBefore(row, k + 1, m - 1);
    }
  }

  /** <y, s_k>, and zero past the last vector. */
  ghost function Along(row: Row, m: nat, y: Vec, k: int): C
    requires TerminatesAt(row, m) && |y| == row.n && 0 <= k <= m
  {
    if k == m then ZERO
    else
      LiveBefore(row, k, m - 1);
      Inner(y, row.S(k))
  }

  lemma LastRestHasNoNorm(row: Row, m: nat)
    requires TerminatesAt(row, m)
    ensures row.Norm(row.Rest(row.At(m - 1))) == 0.0
  {
    hide Mul, Inner, Residual, Times, Scale, Row.Rest, Row.Norm, Row.Alpha;
    assert row.At(m) == row.Body(row.At(m - 1)).0;
  }

  lemma ZeroNorm(row: Row, r: Vec, y: Vec)
    requires row.Valid() && |r| == |y| && row.Norm(r) == 0.0
    ensures Inner(y, r) == ZERO
  {
    hide Mul, Inner, Times, Row.Norm;
    NormSquare(row, r);
    InnerSelfZero(r);
    assert r == Zero(|r|);
    InnerZero(y);
  }

  lemma LastRestIsZero(row: Row, m: nat, y: Vec)
    requires TerminatesAt(row, m) && |y| == row.n
    ensures Inner(y, row.Rest(row.At(m - 1))) == ZERO
  {
    LastRestHasNoNorm(row, m);
    ZeroNorm(row, row.Rest(row.At(m - 1)), y);
  }

  /** <y, H s_k> in terms of the coefficients alone. */
  lemma ThreeTerm(row: Row, m: nat, y: Vec, k: nat)
    requires TerminatesAt(row, m) && |y| == row.n && k < m
    ensures row.At(k).Live?
    ensures Inner(y, row.H(row.S(k)))
         == Add(Add(Scale(Betas(row, m)[k], Along(row, m, y, k + 1)),
                    Scale(Alphas(row, m)[k], Along(row, m, y, k))),
                if k == 0 then ZERO else Scale(Betas(row, m)[k - 1], Along(row, m, y, k - 1)))
  {
    hide Mul, Inner, Residual, Times, Scale, Row.Scan, Alphas, Betas;
    Coefficients(row, m, k);
    Previous(row, k);
    if k > 0 {
      Coefficients(row, m, k - 1);
    } else {
      InnerZero(y);
    }
    ScaleDelta(row.At(k).beta);
    ScaleDelta(Betas(row, m)[k]);
    if k + 1 < m {
      Applied(row, k, y);
    } else {
      var c := row.At(k);
      LastRestIsZero(row, m, y);
      InnerResidual(y, row.H(c.curr), row.Alpha(c), c.curr, c.beta, c.prev);
    }
  }

  /** z v - H v */
  ghost function Shift(row: Row, z: C, v: Vec): (w: Vec)
    requires row.Valid() && |v| == row.n
    ensures |w| == row.n
  {
    Sum(Times(z, v), Times(C(-1.0, 0.0), row.H(v)))
  }

  lemma InnerShift(row: Row, z: C, y: Vec, v: Vec)
    requires row.Valid() && |v| == |y| == row.n
    ensures Inner(y, Shift(row, z, v)) == Sub(Mul(z, Inner(y, v)), Inner(y, row.H(v)))
  {
    hide Mul, Inner, Times, Scale;
    InnerSum(y, Times(z, v), Times(C(-1.0, 0.0), row.H(v)));
    InnerTimes(y, z, v);
    InnerTimes(y, C(-1.0, 0.0), row.H(v));
    MulReal(Inner(y, row.H(v)), -1.0);
    MinusOne(Mul(z, Inner(y, v)), Inner(y, row.H(v)));
  }

  lemma MinusOne(a: C, b: C)
    ensures Add(a, Scale(-1.0, b)) == Sub(a, b)
  {
  }

  /** The seed is its norm times the first vector. */
  lemma SeedIsNorm(row: Row, m: nat, y: Vec)
    requires TerminatesAt(row, m) && |y| == row.n
    ensures row.At(0).Live? && row.Norm(row.seed) > 0.0
    ensures Inner(y, row.seed) == Scale(row.Norm(row.seed), Inner(y, row.S(0)))
  {
    hide Mul, Inner, Times, Scale, Residual;
    LiveBefore(row, 0, m - 1);
    var b := row.Norm(row.seed);
    NormSquare(row, row.seed);
    InnerTimes(y, C(1.0 / b, 0.0), row.seed);
    MulReal(Inner(y, row.seed), 1.0 / b);
    ScaleInverse(1.0 / b, Inner(y, row.seed));
    assert 1.0 / (1.0 / b) == b;
  }

  // ---------------------------------------------------------------- every solution

  lemma SeedHasNorm(row: Row, m: nat)
    requires TerminatesAt(row, m)
    ensures row.At(0).Live? && row.Norm(row.seed) > 0.0
  {
    LiveBefore(row, 0, m - 1);
    NormSquare(row, row.seed);
  }

  /** <s_k, v>, and zero past the first m vectors. */
  ghost function Component(row: Row, m: nat, v: Vec, k: nat): C
    requires Runs(row, m) && |v| == row.n && k <= m
  {
    if k == m then ZERO
    else
      LiveBefore(row, k, m - 1);
      Inner(row.S(k), v)
  }

  /** The components of v along the basis, in units of the seed's norm. */
  ghost function Components(row: Row, m: nat, v: Vec): (x: seq<C>)
    requires TerminatesAt(row, m) && |v| == row.n
    ensures |x| == m
  {
    SeedHasNorm(row, m);
    seq(m, k requires 0 <= k < m => Scale(1.0 / row.Norm(row.seed), Component(row, m, v, k)))
  }

  lemma ConjTerms(top: bool, b: real, p: C, a: real, q: C, bottom: bool, e: real, r: C)
    ensures Conj(Add(Add(if top then ZERO else Scale(b, Conj(p)), Scale(a, Conj(q))), if bottom then ZERO else Scale(e, Conj(r))))
         == Add(Add(if top then ZERO else Scale(b, p), Scale(a, q)), if bottom then ZERO else Scale(e, r))
  {
  }

  /** z u - (b un + a u + bp up), with z and a joined and the other terms in either order. */
  lemma JoinShift(z: C, a: real, u: C, b: real, un: C, r: C)
    ensures Sub(Mul(z, u), Add(Add(Scale(b, un), Scale(a, u)), r))
         == Sub(Sub(Mul(Sub(z, C(a, 0.0)), u), Scale(b, un)), r)
         == Sub(Sub(Mul(Sub(z, C(a, 0.0)), u), r), Scale(b, un))
  {
    hide Mul, Scale;
    MulCommutes(z, u);
    MulCommutes(Sub(z, C(a, 0.0)), u);
    MulSub(u, z, C(a, 0.0));
    MulReal(u, a);
  }

  lemma ComponentIsConj(row: Row, m: nat, v: Vec, k: nat)
    requires TerminatesAt(row, m) && |v| == row.n && k <= m
    ensures Along(row, m, v, k) == Conj(Component(row, m, v, k))
  {
    hide Inner;
    if k < m {
      LiveBefore(row, k, m - 1);
      InnerConjugate(row.S(k), v);
    }
  }

  /** <s_k, H v> as the conjugate of <v, H s_k>. */
  lemma AppliedLeft(row: Row, v: Vec, k: nat)
    requires row.Valid() && row.At(k).Live? && |v| == row.n
    ensures |row.H(v)| == |row.H(row.S(k))| == row.n
    ensures Inner(row.S(k), row.H(v)) == Conj(Inner(v, row.H(row.S(k))))
  {
    hide Inner, Row.At, Row.S;
    SelfAdjoint(row.H, row.n, row.S(k), v);
    InnerConjugate(v, row.H(row.S(k)));
  }

  /** The three terms with components in the place of their conjugates. */
  lemma ThreeTermConj(row: Row, m: nat, v: Vec, k: nat, b: real, a: real, e: real)
    requires TerminatesAt(row, m) && |v| == row.n && k < m
    ensures Conj(Add(Add(Scale(b, Along(row, m, v, k + 1)), Scale(a, Along(row, m, v, k))),
                     if k == 0 then ZERO else Scale(e, Along(row, m, v, k - 1))))
         == Add(Add(Scale(b, Component(row, m, v, k + 1)), Scale(a, Component(row, m, v, k))),
                if k == 0 then ZERO else Scale(e, Component(row, m, v, k - 1)))
  {
    assert Runs(row, m);
    hide Scale, Along, Component, Add, Conj, TerminatesAt, Runs;
    ComponentIsConj(row, m, v, k);
    ComponentIsConj(row, m, v, k + 1);
    if k > 0 {
      ComponentIsConj(row, m, v, k - 1);
    }
    ConjTerms(false, b, Component(row, m, v, k + 1), a, Component(row, m, v, k),
              k == 0, e, if k == 0 then ZERO else Component(row, m, v, k - 1));
  }

  /** <s_k, H v> in terms of the coefficients and the components of v. */
  lemma ThreeTermLeft(row: Row, m: nat, v: Vec, k: nat)
    requires TerminatesAt(row, m) && |v| == row.n && k < m
    ensures row.At(k).Live? && |row.H(v)| == row.n
    ensures Inner(row.S(k), row.H(v))
         == Add(Add(Scale(Betas(row, m)[k], Component(row, m, v, k + 1)),
                    Scale(Alphas(row, m)[k], Component(row, m, v, k))),
                if k == 0 then ZERO else Scale(Betas(row, m)[k - 1], Component(row, m, v, k - 1)))
  {
    hide Inner, Scale, Row.Scan, Alphas, Betas, Row.At, Row.S, Along, Component, Add, Conj;
    ThreeTerm(row, m, v, k);
    AppliedLeft(row, v, k);
    ThreeTermConj(row, m, v, k, Betas(row, m)[k], Alphas(row, m)[k], if k == 0 then 0.0 else Betas(row, m)[k - 1]);
  }

  /** <s_k, (z - H) v> is row k of (z - T) on the components of v. */
  lemma RowOfComponents(row: Row, m: nat, z: C, v: Vec, k: nat)
    requires TerminatesAt(row, m) && |v| == row.n && k < m
    ensures row.At(k).Live?
    ensures Inner(row.S(k), Shift(row, z, v))
         == Sub(Sub(Mul(Sub(z, C(Alphas(row, m)[k], 0.0)), Component(row, m, v, k)),
                    if k == 0 then ZERO else Scale(Betas(row, m)[k - 1], Component(row, m, v, k - 1))),
                Scale(Betas(row, m)[k], Component(row, m, v, k + 1)))
  {
    hide Mul, Inner, Times, Scale, Residual, Row.Scan, Alphas, Betas, Row.At, Shift, Add, Sub;
    ThreeTermLeft(row, m, v, k);
    InnerShift(row, z, row.S(k), v);
    LiveBefore(row, k, m - 1);
    InnerConjugate(v, row.S(k));
    JoinShift(z, Alphas(row, m)[k], Component(row, m, v, k), Betas(row, m)[k], Component(row, m, v, k + 1),
              if k == 0 then ZERO else Scale(Betas(row, m)[k - 1], Component(row, m, v, k - 1)));
  }

  /** Scaling all entries scales a row. */
  lemma ScaledRow(t: real, s: C, u: C, bp: real, up: C, b: real, un: C)
    ensures Sub(Sub(Mul(s, Scale(t, u)), Scale(bp, Scale(t, up))), Scale(b, Scale(t, un)))
         == Scale(t, Sub(Sub(Mul(s, u), Scale(bp, up)), Scale(b, un)))
  {
    hide Mul, Scale;
    MulScale(t, s, u);
    ScaleSwap(bp, t, up);
    ScaleSwap(b, t, un);
    ScaleSub(t, Mul(s, u), Scale(bp, up));
    ScaleSub(t, Sub(Mul(s, u), Scale(bp, up)), Scale(b, un));
  }

  lemma ScaleSwap(s: real, t: real, a: C)
    ensures Scale(s, Scale(t, a)) == Scale(t, Scale(s, a))
  {
    assert s * (t * a.re) == t * (s * a.re);
    assert s * (t * a.im) == t * (s * a.im);
  }

  lemma ScaleSub(t: real, a: C, b: C)
    ensures Scale(t, Sub(a, b)) == Sub(Scale(t, a), Scale(t, b))
  {
  }

  lemma SeedAgainst(row: Row, m: nat, k: nat)
    requires TerminatesAt(row, m) && k < m
    ensures row.At(k).Live? && row.Norm(row.seed) > 0.0
    ensures Scale(1.0 / row.Norm(row.seed), Inner(row.S(k), row.seed)) == if k == 0 then ONE else ZERO
  {
    hide Mul, Inner, Times, Scale, Residual, Row.Scan, Row.Norm;
    SeedHasNorm(row, m);
    RecursionIsOrthonormal(row, m - 1);
    OrthonormalAt(row, m - 1, k, 0);
    SeedIsNorm(row, m, row.S(k));
    ScaleInverse(row.Norm(row.seed), Delta(k, 0));
  }

  /** A row of (z - T) on entries scaled by t. */
  lemma RowOfScaled(a: seq<real>, b: seq<real>, z: C, u: seq<C>, x: seq<C>, t: real, k: nat)
    requires |a| == |b| == |x| && |u| == |x| + 1 && k < |x|
    requires forall j :: 0 <= j < |x| ==> x[j] == Scale(t, u[j])
    requires u[|x|] == ZERO
    ensures Spectrum.RowOf(a, b, z, x, k)
         == Scale(t, Sub(Sub(Mul(Sub(z, C(a[k], 0.0)), u[k]), if k == 0 then ZERO else Scale(b[k - 1], u[k - 1])), Scale(b[k], u[k + 1])))
  {
    hide Mul, Scale, Sub;
    var bp := if k == 0 then 0.0 else b[k - 1];
    var up := if k == 0 then ZERO else u[k - 1];
    ScaledRow(t, Sub(z, C(a[k], 0.0)), u[k], bp, up, b[k], u[k + 1]);
    ScaleDelta(bp);
    ScaleDelta(t);
    ScaleDelta(b[k]);
  }

  lemma RowOfScaledComponents(row: Row, m: nat, z: C, v: Vec, k: nat)
    requires TerminatesAt(row, m) && |v| == row.n && k < m
    ensures row.At(k).Live? && row.Norm(row.seed) > 0.0
    ensures Spectrum.RowOf(Alphas(row, m), Betas(row, m), z, Components(row, m, v), k)
         == Scale(1.0 / row.Norm(row.seed), Inner(row.S(k), Shift(row, z, v)))
  {
    hide Mul, Inner, Times, Scale, Residual, Row.Scan, Alphas, Betas, Shift, Row.At, Row.Norm, Add, Sub, Spectrum.RowOf, Component;
    SeedHasNorm(row, m);
    RowOfComponents(row, m, z, v, k);
    LastComponent(row, m, v);
    var u := seq(m + 1, j requires 0 <= j <= m => Component(row, m, v, j));
    RowOfScaled(Alphas(row, m), Betas(row, m), z, u, Components(row, m, v), 1.0 / row.Norm(row.seed), k);
  }

  lemma LastComponent(row: Row, m: nat, v: Vec)
    requires TerminatesAt(row, m) && |v| == row.n
    ensures Component(row, m, v, m) == ZERO
  {
  }

  lemma ComponentsSolve(row: Row, m: nat, z: C, v: Vec)
    requires TerminatesAt(row, m) && |v| == row.n && Shift(row, z, v) == row.seed
    ensures Spectrum.Solves(Alphas(row, m), Betas(row, m), z, Components(row, m, v))
  {
    hide Mul, Inner, Times, Scale, Residual, Row.Scan, Alphas, Betas, Shift, Row.At, Row.S, Row.Norm, Components, Spectrum.RowOf;
    forall k | 0 <= k < m
      ensures Spectrum.RowOf(Alphas(row, m), Betas(row, m), z, Components(row, m, v), k) == if k == 0 then ONE else ZERO
    {
      RowOfScaledComponents(row, m, z, v, k);
      SeedAgainst(row, m, k);
    }
  }

  // ---------------------------------------------------------------- one solution

  /** sum of x_k s_k over k < count */
  ghost function Mix(row: Row, m: nat, x: seq<C>, count: nat): (v: Vec)
    requires Runs(row, m) && |x| == m && count <= m
    ensures |v| == row.n
  {
    if count == 0 then Zero(row.n)
    else
      LiveBefore(row, count - 1, m - 1);
      Sum(Mix(row, m, x, count - 1), Times(x[count - 1], row.S(count - 1)))
  }

  /** Adding c w to v adds c times the shift of w. */
  lemma ShiftOfSum(row: Row, z: C, y: Vec, v: Vec, c: C, w: Vec)
    requires row.Valid() && |v| == |w| == |y| == row.n
    ensures Inner(y, Shift(row, z, Sum(v, Times(c, w))))
         == Add(Inner(y, Shift(row, z, v)), Mul(c, Inner(y, Shift(row, z, w))))
  {
    hide Mul, Inner, Scale, Shift;
    var cw := Times(c, w);
    InnerShift(row, z, y, Sum(v, cw));
    InnerShift(row, z, y, v);
    InnerShift(row, z, y, w);
    HermitianSum(row.H, row.n, v, cw);
    HermitianTimes(row.H, row.n, c, w);
    InnerSum(y, v, cw);
    InnerSum(y, row.H(v), row.H(cw));
    InnerTimes(y, c, w);
    InnerTimes(y, c, row.H(w));
    MulAdd(z, Inner(y, v), Mul(c, Inner(y, w)));
    MulAssociative(z, c, Inner(y, w));
    MulCommutes(z, c);
    MulAssociative(c, z, Inner(y, w));
    MulSub(c, Mul(z, Inner(y, w)), Inner(y, row.H(w)));
  }

  /** The step that telescopes: x solves row k, u holds the inner products. */
  lemma TelescopeStep(s: C, bp: real, b: real, xp: C, x: C, xn: C, up: C, u: C, un: C, e: C)
    requires Sub(Sub(Mul(s, x), Scale(bp, xp)), Scale(b, xn)) == e
    ensures Add(Sub(Scale(bp, Mul(up, x)), Scale(bp, Mul(xp, u))),
                Mul(x, Sub(Sub(Mul(s, u), Scale(b, un)), Scale(bp, up))))
         == Add(Mul(u, e), Sub(Scale(b, Mul(u, xn)), Scale(b, Mul(x, un))))
  {
    hide Mul, Scale;
    MulSub(x, Sub(Mul(s, u), Scale(b, un)), Scale(bp, up));
    MulSub(x, Mul(s, u), Scale(b, un));
    MulScale(b, x, un);
    MulScale(bp, x, up);
    MulCommutes(x, up);
    MulAssociative(x, s, u);
    MulCommutes(x, s);
    MulCommutes(Mul(s, x), u);
    MulSub(u, Sub(Mul(s, x), Scale(bp, xp)), Scale(b, xn));
    MulSub(u, Mul(s, x), Scale(bp, xp));
    MulScale(bp, u, xp);
    MulScale(b, u, xn);
    MulCommutes(u, xp);
  }

  /** Entries, projections and coefficients, zero outside their range. */
  function EntryAt(x: seq<C>, k: int): C { if 0 <= k < |x| then x[k] else ZERO }

  ghost function ProjectionAt(row: Row, m: nat, y: Vec, k: int): C
    requires TerminatesAt(row, m) && |y| == row.n
  {
    if 0 <= k < m then Along(row, m, y, k) else ZERO
  }

  ghost function BetaAt(row: Row, m: nat, k: int): real
    requires TerminatesAt(row, m)
  {
    if 0 <= k < m then Betas(row, m)[k] else 0.0
  }

  /** <y, (z - H) s_k> by the three-term recurrence. */
  ghost function ShiftTerms(row: Row, m: nat, z: C, y: Vec, k: nat): C
    requires TerminatesAt(row, m) && |y| == row.n && k < m
  {
    Sub(Sub(Mul(Sub(z, C(Alphas(row, m)[k], 0.0)), ProjectionAt(row, m, y, k)),
            Scale(BetaAt(row, m, k), ProjectionAt(row, m, y, k + 1))),
        Scale(BetaAt(row, m, k - 1), ProjectionAt(row, m, y, k - 1)))
  }

  lemma ShiftOfRow(row: Row, m: nat, z: C, y: Vec, k: nat)
    requires TerminatesAt(row, m) && |y| == row.n && k < m
    ensures row.At(k).Live?
    ensures Inner(y, Shift(row, z, row.S(k))) == ShiftTerms(row, m, z, y, k)
  {
    hide Mul, Inner, Times, Scale, Residual, Row.Scan, Alphas, Betas, Shift, Row.At, Row.S;
    LiveBefore(row, k, m - 1);
    ThreeTerm(row, m, y, k);
    InnerShift(row, z, y, row.S(k));
    ScaleDelta(0.0);
    JoinShift(z, Alphas(row, m)[k], Along(row, m, y, k), Betas(row, m)[k], Along(row, m, y, k + 1),
              Scale(BetaAt(row, m, k - 1), ProjectionAt(row, m, y, k - 1)));
  }

  /** What the first k rows of the system leave over. */
  ghost function EdgeTerms(row: Row, m: nat, x: seq<C>, y: Vec, k: nat): C
    requires TerminatesAt(row, m) && |y| == row.n
  {
    Sub(Scale(BetaAt(row, m, k - 1), Mul(ProjectionAt(row, m, y, k - 1), EntryAt(x, k))),
        Scale(BetaAt(row, m, k - 1), Mul(EntryAt(x, k - 1), ProjectionAt(row, m, y, k))))
  }

  lemma EdgesVanish(row: Row, m: nat, x: seq<C>, y: Vec)
    requires TerminatesAt(row, m) && |y| == row.n && |x| == m
    ensures EdgeTerms(row, m, x, y, 0) == ZERO == EdgeTerms(row, m, x, y, m)
  {
    hide Mul, Scale, TerminatesAt, Betas, Along;
    Constants(0.0, BetaAt(row, m, m - 1), EntryAt(x, m - 1), ProjectionAt(row, m, y, m - 1));
    Constants(0.0, 0.0, EntryAt(x, 0), ProjectionAt(row, m, y, 0));
  }

  lemma RowSolved(row: Row, m: nat, z: C, x: seq<C>, k: nat)
    requires TerminatesAt(row, m) && |x| == m && k < m
    requires Spectrum.Solves(Alphas(row, m), Betas(row, m), z, x)
    ensures Sub(Sub(Mul(Sub(z, C(Alphas(row, m)[k], 0.0)), x[k]), Scale(BetaAt(row, m, k - 1), EntryAt(x, k - 1))),
                Scale(BetaAt(row, m, k), EntryAt(x, k + 1)))
         == if k == 0 then ONE else ZERO
  {
    hide Mul, Scale, Alphas, Betas, Row.At;
    ScaleDelta(0.0);
    ScaleDelta(BetaAt(row, m, k));
    assert Spectrum.RowOf(Alphas(row, m), Betas(row, m), z, x, k) == if k == 0 then ONE else ZERO;
  }

  lemma TermsAre(row: Row, m: nat, z: C, x: seq<C>, y: Vec, k: nat)
    requires TerminatesAt(row, m) && |y| == row.n && |x| == m && k < m
    ensures row.Valid()
    ensures EdgeTerms(row, m, x, y, k)
         == Sub(Scale(BetaAt(row, m, k - 1), Mul(ProjectionAt(row, m, y, k - 1), x[k])),
                Scale(BetaAt(row, m, k - 1), Mul(EntryAt(x, k - 1), Along(row, m, y, k))))
    ensures EdgeTerms(row, m, x, y, k + 1)
         == Sub(Scale(BetaAt(row, m, k), Mul(Along(row, m, y, k), EntryAt(x, k + 1))),
                Scale(BetaAt(row, m, k), Mul(x[k], ProjectionAt(row, m, y, k + 1))))
    ensures ShiftTerms(row, m, z, y, k)
         == Sub(Sub(Mul(Sub(z, C(Alphas(row, m)[k], 0.0)), Along(row, m, y, k)),
                    Scale(BetaAt(row, m, k), ProjectionAt(row, m, y, k + 1))),
                Scale(BetaAt(row, m, k - 1), ProjectionAt(row, m, y, k - 1)))
  {
    hide Add, Sub, Mul, Scale, Alphas, Betas, Along;
  }

  /** Row k of the system moves the edge one step. */
  lemma EdgeStep(row: Row, m: nat, z: C, x: seq<C>, y: Vec, k: nat)
    requires TerminatesAt(row, m) && |y| == row.n && |x| == m && k < m
    requires Spectrum.Solves(Alphas(row, m), Betas(row, m), z, x)
    ensures Add(EdgeTerms(row, m, x, y, k), Mul(x[k], ShiftTerms(row, m, z, y, k)))
         == Add(if k == 0 then Along(row, m, y, 0) else ZERO, EdgeTerms(row, m, x, y, k + 1))
  {
    hide *;
    TermsAre(row, m, z, x, y, k);
    RowSolved(row, m, z, x, k);
    var u := Along(row, m, y, k);
    TelescopeStep(Sub(z, C(Alphas(row, m)[k], 0.0)), BetaAt(row, m, k - 1), BetaAt(row, m, k),
                  EntryAt(x, k - 1), x[k], EntryAt(x, k + 1),
                  ProjectionAt(row, m, y, k - 1), u, ProjectionAt(row, m, y, k + 1), if k == 0 then ONE else ZERO);
    Constants(0.0, 0.0, x[k], u);
  }

  lemma {:induction false} PartialShift(row: Row, m: nat, z: C, x: seq<C>, y: Vec, count: nat)
    requires TerminatesAt(row, m) && |y| == row.n && |x| == m && 1 <= count <= m
    requires Spectrum.Solves(Alphas(row, m), Betas(row, m), z, x)
    ensures Inner(y, Shift(row, z, Mix(row, m, x, count)))
         == Add(Along(row, m, y, 0), EdgeTerms(row, m, x, y, count))
    decreases count
  {
    hide Mul, Inner, Times, Scale, Residual, Row.Scan, Alphas, Betas, Shift, Sum, Row.At, Row.S, EdgeTerms, Along,
      ShiftTerms, Spectrum.Solves;
    var k := count - 1;
    ShiftOfRow(row, m, z, y, k);
    ShiftOfSum(row, z, y, Mix(row, m, x, k), x[k], row.S(k));
    EdgeStep(row, m, z, x, y, k);
    if k > 0 {
      PartialShift(row, m, z, x, y, k);
    } else {
      EdgesVanish(row, m, x, y);
      InnerShift(row, z, y, Zero(row.n));
      InnerZero(y);
      SelfAdjoint(row.H, row.n, y, Zero(row.n));
      InnerZero(row.H(y));
      MulZero(z);
    }
  }

  lemma Constants(bp: real, b: real, x: C, u: C)
    ensures Scale(bp, ZERO) == ZERO == Scale(b, ZERO) == Scale(0.0, ZERO)
    ensures Mul(ZERO, x) == ZERO == Mul(x, ZERO) == Mul(ZERO, u) == Mul(u, ZERO)
    ensures Mul(u, ONE) == u
    ensures Scale(0.0, Mul(x, u)) == ZERO == Scale(0.0, Mul(u, x))
  {
    hide Mul;
    ScaleDelta(bp);
    ScaleDelta(b);
    MulZero(x);
    MulZero(u);
    MulOne(u);
  }

  /** norm times the combination that the continued fraction's solution spells out. */
  ghost function Response(row: Row, m: nat, z: C): (v: Vec)
    requires TerminatesAt(row, m) && z.im != 0.0
    ensures |v| == row.n
  {
    Times(C(row.Norm(row.seed), 0.0),
          Mix(row, m, Spectrum.Solution(Alphas(row, m), Betas(row, m), z), m))
  }

  lemma ResponseResolves(row: Row, m: nat, z: C)
    requires TerminatesAt(row, m) && z.im != 0.0
    ensures Shift(row, z, Response(row, m, z)) == row.seed
  {
    hide Mul, Inner, Scale, Residual, Row.Scan, Alphas, Betas, Shift, Sum, Times, Row.At, Row.S;
    var x := Spectrum.Solution(Alphas(row, m), Betas(row, m), z);
    var t := C(row.Norm(row.seed), 0.0);
    var v := Mix(row, m, x, m);
    Spectrum.SolutionExists(Alphas(row, m), Betas(row, m), z);
    forall y | |y| == row.n
      ensures Inner(y, Shift(row, z, Response(row, m, z))) == Inner(y, row.seed)
    {
      PartialShift(row, m, z, x, y, m);
      EdgesVanish(row, m, x, y);
      SeedIsNorm(row, m, y);
      ShiftOfTimes(row, z, y, t, v);
      MulReal(Inner(y, row.S(0)), row.Norm(row.seed));
      LiveBefore(row, 0, m - 1);
    }
    EqualByInner(row.n, Shift(row, z, Response(row, m, z)), row.seed);
  }

  lemma ShiftOfTimes(row: Row, z: C, y: Vec, c: C, v: Vec)
    requires row.Valid() && |v| == |y| == row.n
    ensures Inner(y, Shift(row, z, Times(c, v))) == Mul(c, Inner(y, Shift(row, z, v)))
  {
    hide Mul, Inner, Scale, Shift, Times;
    InnerShift(row, z, y, Times(c, v));
    InnerShift(row, z, y, v);
    HermitianTimes(row.H, row.n, c, v);
    InnerTimes(y, c, v);
    InnerTimes(y, c, row.H(v));
    MulAssociative(z, c, Inner(y, v));
    MulCommutes(z, c);
    MulAssociative(c, z, Inner(y, v));
    MulSub(c, Mul(z, Inner(y, v)), Inner(y, row.H(v)));
  }

  lemma RescaleBack(b: real, u: C)
    requires b != 0.0
    ensures Scale(Square(b), Scale(1.0 / b, u)) == Scale(b, u)
  {
    hide Scale;
    Spectrum.SquareIs(b);
    ScaleScale(b, b, Scale(1.0 / b, u));
    ScaleSwap(b, 1.0 / b, u);
    ScaleInverse(b, u);
  }

  lemma ConjScaled(b: real, u: C)
    ensures Conj(Scale(b, Conj(u))) == Scale(b, u)
  {
  }

  /** <d, v> is the squared norm times the first scaled component. */
  lemma SeedComponent(row: Row, m: nat, v: Vec)
    requires TerminatesAt(row, m) && |v| == row.n
    ensures Inner(row.seed, v) == Scale(Square(row.Norm(row.seed)), Components(row, m, v)[0])
  {
    hide Mul, Inner, Scale, Residual, Times, Row.Norm, Square, Row.At;
    SeedHasNorm(row, m);
    SeedIsNorm(row, m, v);
    InnerConjugate(v, row.seed);
    var b := row.Norm(row.seed);
    ComponentIsConj(row, m, v, 0);
    ConjScaled(b, Component(row, m, v, 0));
    RescaleBack(b, Component(row, m, v, 0));
  }

  /**
   When the recursion terminates after m vectors, (z - H) v = d has a solution, and for
   every solution <d, v> is |d|^2 times the g of the continued fraction of the m emitted
   coefficients: the spectrum is the exact one of H.
   */
  lemma TerminatedFractionIsExact(row: Row, m: nat, z: C)
    requires TerminatesAt(row, m) && z.im != 0.0
    ensures Spectrum.Resolvent(Alphas(row, m), Betas(row, m), z).Some?
    ensures exists v :: |v| == row.n && Shift(row, z, v) == row.seed
    ensures forall v :: |v| == row.n && Shift(row, z, v) == row.seed ==>
      Inner(row.seed, v) == Scale(Square(row.Norm(row.seed)), Spectrum.Resolvent(Alphas(row, m), Betas(row, m), z).value)
  {
    hide Mul, Inner, Scale, Residual, Row.Scan, Alphas, Betas, Shift, Sum, Times, Row.At, Row.S, Row.Norm, Square, Components,
         Spectrum.Resolvent, Spectrum.RowOf;
    Spectrum.FractionIsTheResolvent(Alphas(row, m), Betas(row, m), z);
    ResponseResolves(row, m, z);
    forall v | |v| == row.n && Shift(row, z, v) == row.seed
      ensures Inner(row.seed, v) == Scale(Square(row.Norm(row.seed)), Spectrum.Resolvent(Alphas(row, m), Betas(row, m), z).value)
    {
      ComponentsSolve(row, m, z, v);
      SeedComponent(row, m, v);
    }
  }
}
