/**
 The recursion cannot make more orthonormal vectors than the space has dimensions: by
 Bessel's inequality it meets a zero norm within n steps, in exact arithmetic.
 */
module HaydockDimension {
  import opened Complex
  import opened Vectors
  import opened HaydockKrylov
  import opened HaydockRecursion
  import opened HaydockResolvent
  import opened Wrappers

  /** The unit vector e_i less its components along the first `count` vectors. */
  ghost function Leftover(row: Row, m: nat, i: nat, count: nat): (w: Vec)
    requires row.Valid() && row.At(m).Live? && i < row.n && count <= m + 1
    ensures |w| == row.n
  {
    if count == 0 then Unit(row.n, i)
    else
      LiveBefore(row, count - 1, m);
      var w := Leftover(row, m, i, count - 1);
      var s := row.S(count - 1);
      Sum(w, Times(Scale(-1.0, Inner(s, w)), s))
  }

  lemma {:induction false} LeftoverAgainst(row: Row, m: nat, i: nat, count: nat, j: nat)
    requires row.Valid() && row.At(m).Live? && i < row.n && count <= m + 1 && j <= m
    ensures row.At(j).Live?
    ensures Inner(row.S(j), Leftover(row, m, i, count)) == if j < count then ZERO else Conj(row.S(j)[i])
    decreases count
  {
    hide Mul, Inner, Times, Scale, Residual, Sum, Row.At, Row.S;
    LiveBefore(row, j, m);
    if count == 0 {
      InnerUnit(row.S(j), i);
      InnerConjugate(Unit(row.n, i), row.S(j));
    } else {
      var k := count - 1;
      LeftoverAgainst(row, m, i, k, j);
      LeftoverAgainst(row, m, i, k, k);
      RecursionIsOrthonormal(row, m);
      OrthonormalAt(row, m, j, k);
      var c := Inner(row.S(k), Leftover(row, m, i, k));
      RemoveAgainst(row.S(j), Leftover(row, m, i, k), c, row.S(k));
      MulOne(c);
      MulZero(c);
    }
  }

  /** Taking c s away from w, seen from x. */
  lemma RemoveAgainst(x: Vec, w: Vec, c: C, s: Vec)
    requires |x| == |w| == |s|
    ensures Inner(x, Sum(w, Times(Scale(-1.0, c), s))) == Sub(Inner(x, w), Mul(c, Inner(x, s)))
  {
    hide Mul, Inner, Times, Sum;
    var d := Scale(-1.0, c);
    InnerSum(x, w, Times(d, s));
    InnerTimes(x, d, s);
    NegatedProduct(c, Inner(x, s));
  }

  lemma NegatedProduct(c: C, u: C)
    ensures Mul(Scale(-1.0, c), u) == Scale(-1.0, Mul(c, u))
  {
  }

  lemma NormOfConj(c: C)
    ensures Norm2(Conj(c)) == Norm2(c) == Norm2(Scale(-1.0, c))
  {
    assert (-c.im) * (-c.im) == c.im * c.im;
    assert (-1.0 * c.im) * (-1.0 * c.im) == c.im * c.im;
    assert (-1.0 * c.re) * (-1.0 * c.re) == c.re * c.re;
  }

  /** |w - c s|^2 = |w|^2 - |c|^2 for a unit vector s and c = <s, w>. */
  lemma RemoveComponent(w: Vec, s: Vec)
    requires |w| == |s| && Inner(s, s) == ONE
    ensures var c := Inner(s, w);
      var r := Sum(w, Times(Scale(-1.0, c), s));
      Inner(r, r).re == Inner(w, w).re - Norm2(c)
  {
    hide Mul, Inner, Times, Scale, Sum, Norm2;
    var c := Inner(s, w);
    var d := Scale(-1.0, c);
    var p := Times(d, s);
    var r := Sum(w, p);
    InnerSum(r, w, p);
    InnerSumLeft(w, w, p);
    InnerSumLeft(p, w, p);
    InnerTimes(s, d, w);
    InnerTimes(w, d, s);
    InnerTimes(s, d, s);
    InnerTimes(p, d, s);
    InnerConjugate(s, w);
    MulOne(d);
    MulOne(Conj(d));
    ConjProduct(c);
    MulConj(d);
    NormOfConj(c);
  }

  lemma ConjProduct(c: C)
    ensures Mul(Conj(Scale(-1.0, c)), c).re == -Norm2(c)
    ensures Mul(Scale(-1.0, c), Conj(c)).re == -Norm2(c)
  {
  }

  /** sum over k < count of |s_k[i]|^2 */
  ghost function Weight(row: Row, m: nat, i: nat, count: nat): real
    requires row.Valid() && row.At(m).Live? && i < row.n && count <= m + 1
  {
    if count == 0 then 0.0
    else
      LiveBefore(row, count - 1, m);
      Weight(row, m, i, count - 1) + Norm2(row.S(count - 1)[i])
  }

  /** What is left of e_i has squared length 1 - Weight: Bessel's inequality. */
  lemma {:induction false} Bessel(row: Row, m: nat, i: nat, count: nat)
    requires row.Valid() && row.At(m).Live? && i < row.n && count <= m + 1
    ensures Inner(Leftover(row, m, i, count), Leftover(row, m, i, count)).re == 1.0 - Weight(row, m, i, count)
    ensures Weight(row, m, i, count) <= 1.0
    decreases count
  {
    hide Mul, Inner, Times, Scale, Residual, Sum, Row.At, Norm2;
    InnerSelfSign(Leftover(row, m, i, count));
    if count == 0 {
      InnerUnit(Unit(row.n, i), i);
    } else {
      var k := count - 1;
      LiveBefore(row, k, m);
      Bessel(row, m, i, k);
      UnitNorm(row, k);
      LeftoverAgainst(row, m, i, k, k);
      NormOfConj(row.S(k)[i]);
      RemoveComponent(Leftover(row, m, i, k), row.S(k));
    }
  }

  /** Weights summed over the coordinates from i on. */
  ghost function Total(row: Row, m: nat, i: nat, count: nat): real
    requires row.Valid() && row.At(m).Live? && i <= row.n && count <= m + 1
    decreases row.n - i
  {
    if i == row.n then 0.0 else Weight(row, m, i, count) + Total(row, m, i + 1, count)
  }

  lemma {:induction false} TotalBound(row: Row, m: nat, i: nat, count: nat)
    requires row.Valid() && row.At(m).Live? && i <= row.n && count <= m + 1
    ensures Total(row, m, i, count) <= (row.n - i) as real
    decreases row.n - i
  {
    if i < row.n {
      TotalBound(row, m, i + 1, count);
      Bessel(row, m, i, count);
    }
  }

  lemma {:induction false} TotalStep(row: Row, m: nat, i: nat, count: nat)
    requires row.Valid() && row.At(m).Live? && i <= row.n && count <= m
    ensures row.At(count).Live?
    ensures Total(row, m, i, count + 1) == Total(row, m, i, count) + Inner(row.S(count)[i..], row.S(count)[i..]).re
    decreases row.n - i
  {
    hide Mul, Norm2, Row.At;
    LiveBefore(row, count, m);
    if i < row.n {
      TotalStep(row, m, i + 1, count);
      var v := row.S(count)[i..];
      InnerSelfStep(v);
      assert v[1..] == row.S(count)[i + 1..];
    }
  }

  lemma {:induction false} TotalIsCount(row: Row, m: nat, count: nat)
    requires row.Valid() && row.At(m).Live? && count <= m + 1
    ensures Total(row, m, 0, count) == count as real
    decreases count
  {
    hide Mul, Norm2, Row.At, Inner;
    if count == 0 {
      EmptyTotal(row, m, 0);
    } else {
      TotalIsCount(row, m, count - 1);
      TotalStep(row, m, 0, count - 1);
      UnitNorm(row, count - 1);
      assert row.S(count - 1)[0..] == row.S(count - 1);
    }
  }

  lemma {:induction false} EmptyTotal(row: Row, m: nat, i: nat)
    requires row.Valid() && row.At(m).Live? && i <= row.n
    ensures Total(row, m, i, 0) == 0.0
    decreases row.n - i
  {
    if i < row.n {
      EmptyTotal(row, m, i + 1);
    }
  }

  /** A live carry after m steps means at least m + 1 dimensions. */
  lemma LiveWithinDimension(row: Row, m: nat)
    requires row.Valid() && row.At(m).Live?
    ensures m < row.n
  {
    TotalIsCount(row, m, m + 1);
    TotalBound(row, m, 0, m + 1);
  }

  /** A nonzero seed always terminates, after at most n vectors. */
  lemma TerminatesWithinDimension(row: Row)
    requires row.Valid() && row.Norm(row.seed) != 0.0
    ensures exists m: nat :: m <= row.n && TerminatesAt(row, m)
  {
    var m: nat := 1;
    while row.At(m).Live?
      invariant 1 <= m && row.At(m - 1).Live?
      decreases row.n - m
    {
      LiveWithinDimension(row, m);
      m := m + 1;
    }
    LiveWithinDimension(row, m - 1);
    assert TerminatesAt(row, m);
  }

  /**
   A run of more steps than dimensions emits numbers only before some step m <= n: the
   unguarded division leaves every later alpha and beta not a number.
   */
  lemma LongRunsLoseTheirCoefficients(row: Row, steps: nat, k: nat)
    requires row.Valid() && row.n <= k < steps
    ensures row.Scan(row.Start(), steps).0[k] == None == row.Scan(row.Start(), steps).1[k]
  {
    hide Mul, Inner, Times, Scale, Residual, Row.Rest, Row.Norm;
    ScanFrom(row, 0, steps, k);
    if row.At(k).Live? {
      LiveWithinDimension(row, k);
    }
  }

  /** A recursion of m vectors emits numbers at its first m steps and at no later one. */
  lemma NumbersEndAtTermination(row: Row, m: nat, steps: nat, k: nat)
    requires TerminatesAt(row, m) && k < steps
    ensures var (alphas, betas) := row.Scan(row.Start(), steps);
      (alphas[k].Some? <==> k < m) && (betas[k].Some? <==> k < m)
  {
    hide Row.Scan, Row.At, Row.Start;
    NumbersIffLive(row, steps, k);
    if k < m {
      LiveBefore(row, k, m - 1);
    } else if row.At(k).Live? {
      LiveBefore(row, m, k);
    }
  }
}
