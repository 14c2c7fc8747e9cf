/**
 When a Haydock run emits numbers: exactly as long as the seed and its images under powers of H
 are linearly independent.
 */
module HaydockKrylov {
  import opened Complex
  import opened Vectors
  import opened HaydockRecursion
  import opened Wrappers

  /** H^k d */
  ghost function Power(row: Row, k: nat): (v: Vec)
    requires row.Valid()
    ensures |v| == row.n
  {
    if k == 0 then row.seed else row.H(Power(row, k - 1))
  }

  /** c_0 d + c_1 H d + ... */
  ghost function Combo(row: Row, c: seq<C>): (v: Vec)
    requires row.Valid()
    ensures |v| == row.n
  {
    if c == [] then Zero(row.n)
    else
      var k := |c| - 1;
      Sum(Combo(row, c[..k]), Times(c[k], Power(row, k)))
  }

  /** v is a combination of the first k powers. */
  ghost predicate Spanned(row: Row, v: Vec, k: nat)
    requires row.Valid()
  {
    exists c :: |c| == k && Combo(row, c) == v
  }

  /** No power is a combination of the earlier ones. */
  ghost predicate Independent(row: Row, count: nat)
    requires row.Valid()
  {
    forall k :: 0 <= k < count ==> !Spanned(row, Power(row, k), k)
  }

  // ---------------------------------------------------------------- combinations

  /** (p + q) + (x + y) w, regrouped. */
  lemma RegroupSums(p: Vec, q: Vec, x: C, y: C, w: Vec)
    requires |p| == |q| == |w|
    ensures Sum(Sum(p, q), Times(Add(x, y), w)) == Sum(Sum(p, Times(x, w)), Sum(q, Times(y, w)))
  {
    hide Mul;
    forall i | 0 <= i < |w|
      ensures Mul(Add(x, y), w[i]) == Add(Mul(x, w[i]), Mul(y, w[i]))
    {
      MulCommutes(Add(x, y), w[i]);
      MulCommutes(x, w[i]);
      MulCommutes(y, w[i]);
      MulAdd(w[i], x, y);
    }
  }

  lemma {:induction false} ComboSum(row: Row, a: seq<C>, b: seq<C>)
    requires row.Valid() && |a| == |b|
    ensures Combo(row, Sum(a, b)) == Sum(Combo(row, a), Combo(row, b))
  {
    hide Mul, Add, Row.Valid;
    if a == [] {
      assert Sum(Zero(row.n), Zero(row.n)) == Zero(row.n) by {
        assert Add(ZERO, ZERO) == ZERO by { AddZero(ZERO); }
      }
    } else {
      var k := |a| - 1;
      ComboSum(row, a[..k], b[..k]);
      assert Sum(a, b)[..k] == Sum(a[..k], b[..k]);
      RegroupSums(Combo(row, a[..k]), Combo(row, b[..k]), a[k], b[k], Power(row, k));
    }
  }

  /** t (p + c w) == t p + (t c) w */
  lemma TimesSum(t: C, p: Vec, c: C, w: Vec)
    requires |p| == |w|
    ensures Times(t, Sum(p, Times(c, w))) == Sum(Times(t, p), Times(Mul(t, c), w))
    ensures Times(t, Sum(p, w)) == Sum(Times(t, p), Times(t, w))
  {
    hide Mul;
    forall i | 0 <= i < |w|
      ensures Mul(t, Add(p[i], Mul(c, w[i]))) == Add(Mul(t, p[i]), Mul(Mul(t, c), w[i]))
      ensures Mul(t, Add(p[i], w[i])) == Add(Mul(t, p[i]), Mul(t, w[i]))
    {
      MulAdd(t, p[i], Mul(c, w[i]));
      MulAdd(t, p[i], w[i]);
      MulAssociative(t, c, w[i]);
    }
  }

  lemma {:induction false} ComboTimes(row: Row, t: C, a: seq<C>)
    requires row.Valid()
    ensures Combo(row, Times(t, a)) == Times(t, Combo(row, a))
    decreases |a|
  {
    hide Mul, Row.Valid;
    if a == [] {
      MulZero(t);
      assert Times(t, Zero(row.n)) == Zero(row.n);
    } else {
      var k := |a| - 1;
      ComboTimes(row, t, a[..k]);
      assert Times(t, a)[..k] == Times(t, a[..k]);
      TimesSum(t, Combo(row, a[..k]), a[k], Power(row, k));
    }
  }

  lemma ComboExtend(row: Row, c: seq<C>)
    requires row.Valid()
    ensures Combo(row, c + [ZERO]) == Combo(row, c)
  {
    hide Mul, Add, Row.Valid;
    var p := Power(row, |c|);
    assert (c + [ZERO])[..|c|] == c;
    forall i | 0 <= i < row.n
      ensures Add(Combo(row, c)[i], Mul(ZERO, p[i])) == Combo(row, c)[i]
    {
      MulZero(p[i]);
      AddZero(Combo(row, c)[i]);
    }
    assert Sum(Combo(row, c), Times(ZERO, p)) == Combo(row, c);
  }

  lemma ApplyZero(row: Row)
    requires row.Valid()
    ensures row.H(Zero(row.n)) == Zero(row.n)
  {
    hide Mul;
    var z := Zero(row.n);
    MulZero(ZERO);
    assert Times(ZERO, z) == z;
    HermitianTimes(row.H, row.n, ZERO, z);
    forall i | 0 <= i < row.n
      ensures Times(ZERO, row.H(z))[i] == ZERO
    {
      MulZero(row.H(z)[i]);
    }
    assert Times(ZERO, row.H(z)) == z;
  }

  /** H moves every power one up. */
  lemma {:induction false} ComboApply(row: Row, c: seq<C>)
    requires row.Valid()
    ensures row.H(Combo(row, c)) == Combo(row, [ZERO] + c)
  {
    hide Mul, Add, Sum, Times;
    if c == [] {
      ApplyZero(row);
      ComboExtend(row, []);
      assert [ZERO] + c == [] + [ZERO];
    } else {
      var k := |c| - 1;
      ComboApply(row, c[..k]);
      assert ([ZERO] + c)[..|c|] == [ZERO] + c[..k];
      var a, p := Combo(row, c[..k]), Power(row, k);
      HermitianSum(row.H, row.n, a, Times(c[k], p));
      HermitianTimes(row.H, row.n, c[k], p);
    }
  }

  lemma SpanSum(row: Row, v: Vec, w: Vec, k: nat)
    requires row.Valid() && |v| == |w| && Spanned(row, v, k) && Spanned(row, w, k)
    ensures Spanned(row, Sum(v, w), k)
  {
    hide Combo, Row.Valid;
    var a :| |a| == k && Combo(row, a) == v;
    var b :| |b| == k && Combo(row, b) == w;
    ComboSum(row, a, b);
  }

  lemma SpanTimes(row: Row, t: C, v: Vec, k: nat)
    requires row.Valid() && Spanned(row, v, k)
    ensures Spanned(row, Times(t, v), k)
  {
    hide Combo, Row.Valid, Mul;
    var a :| |a| == k && Combo(row, a) == v;
    ComboTimes(row, t, a);
  }

  lemma SpanMore(row: Row, v: Vec, k: nat)
    requires row.Valid() && Spanned(row, v, k)
    ensures Spanned(row, v, k + 1)
  {
    hide Combo, Row.Valid;
    var a :| |a| == k && Combo(row, a) == v;
    ComboExtend(row, a);
  }

  lemma SpanApply(row: Row, v: Vec, k: nat)
    requires row.Valid() && Spanned(row, v, k)
    ensures Spanned(row, row.H(v), k + 1)
  {
    hide Combo, Row.Valid;
    var a :| |a| == k && Combo(row, a) == v;
    ComboApply(row, a);
  }

  lemma {:induction false} SpanZero(row: Row, k: nat)
    requires row.Valid()
    ensures Spanned(row, Zero(row.n), k)
  {
    hide Row.Valid;
    if k == 0 {
      assert Combo(row, []) == Zero(row.n);
    } else {
      SpanZero(row, k - 1);
      SpanMore(row, Zero(row.n), k - 1);
    }
  }

  lemma ZeroPlusOne(p: Vec)
    ensures Sum(Zero(|p|), Times(ONE, p)) == p
  {
    hide Mul, Add;
    forall i | 0 <= i < |p|
      ensures Add(ZERO, Mul(ONE, p[i])) == p[i]
    {
      MulOne(p[i]);
      AddZero(p[i]);
    }
  }

  lemma SpanPower(row: Row, k: nat)
    requires row.Valid()
    ensures Spanned(row, Power(row, k), k + 1)
  {
    hide Sum, Times, Zero, Row.Valid, Combo;
    SpanZero(row, k);
    var z :| |z| == k && Combo(row, z) == Zero(row.n);
    ZeroPlusOne(Power(row, k));
    ComboMore(row, z, ONE);
    assert |z + [ONE]| == k + 1;
  }

  lemma ComboMore(row: Row, c: seq<C>, t: C)
    requires row.Valid()
    ensures Combo(row, c + [t]) == Sum(Combo(row, c), Times(t, Power(row, |c|)))
  {
    hide Sum, Times, Row.Valid;
    assert (c + [t])[..|c|] == c;
  }

  // ---------------------------------------------------------------- the basis inside the span

  /** H^i d is t s_i plus a combination of the lower powers, with t nonzero. */
  ghost predicate Leads(row: Row, i: nat, t: real, u: Vec)
    requires row.Valid() && row.At(i).Live?
  {
    t != 0.0 && |u| == row.n && Spanned(row, u, i) && Power(row, i) == Sum(Times(C(t, 0.0), row.S(i)), u)
  }

  /** ((t x + u) - u) / t == x */
  lemma SolveFor(t: real, x: Vec, u: Vec)
    requires t != 0.0 && |x| == |u|
    ensures var p := Sum(Times(C(t, 0.0), x), u);
      Times(C(1.0 / t, 0.0), Sum(p, Times(C(-1.0, 0.0), u))) == x
  {
    hide Mul, Scale;
    forall i | 0 <= i < |x|
      ensures Mul(C(1.0 / t, 0.0), Add(Add(Mul(C(t, 0.0), x[i]), u[i]), Mul(C(-1.0, 0.0), u[i]))) == x[i]
    {
      MulReal(x[i], t);
      MulReal(u[i], -1.0);
      Cancels(Scale(t, x[i]), u[i]);
      MulReal(Scale(t, x[i]), 1.0 / t);
      ScaleInverse(t, x[i]);
    }
  }

  lemma Cancels(a: C, u: C)
    ensures Add(Add(a, u), Scale(-1.0, u)) == a
  {
  }

  lemma BasisFromLead(row: Row, i: nat, t: real, u: Vec)
    requires row.Valid() && row.At(i).Live? && Leads(row, i, t, u)
    ensures Spanned(row, row.S(i), i + 1)
  {
    hide Mul, Sum, Times, Spanned, Row.Valid, Row.At, Row.S;
    var minus := Times(C(-1.0, 0.0), u);
    SolveFor(t, row.S(i), u);
    SpanPower(row, i);
    SpanTimes(row, C(-1.0, 0.0), u, i);
    SpanMore(row, minus, i);
    SpanSum(row, Power(row, i), minus, i + 1);
    SpanTimes(row, C(1.0 / t, 0.0), Sum(Power(row, i), minus), i + 1);
  }

  /** h == (h - a s - b p) + (a s + b p) */
  lemma AddBack(h: Vec, a: real, s: Vec, b: real, p: Vec)
    requires |h| == |s| == |p|
    ensures h == Sum(Residual(h, a, s, b, p), Sum(Times(C(a, 0.0), s), Times(C(b, 0.0), p)))
  {
    hide Mul, Scale;
    forall i | 0 <= i < |h|
      ensures h[i] == Add(Sub(Sub(h[i], Scale(a, s[i])), Scale(b, p[i])), Add(Mul(C(a, 0.0), s[i]), Mul(C(b, 0.0), p[i])))
    {
      MulReal(s[i], a);
      MulReal(p[i], b);
    }
  }

  /** The next power is t times the residual plus a combination of the powers so far. */
  lemma NextPower(row: Row, i: nat, t: real, u: Vec) returns (v: Vec)
    requires row.Valid() && row.At(i).Live? && Leads(row, i, t, u)
    requires Spanned(row, row.At(i).prev, i + 1)
    ensures |v| == row.n && Spanned(row, v, i + 1)
    ensures Power(row, i + 1) == Sum(Times(C(t, 0.0), row.Rest(row.At(i))), v)
  {
    var c := row.At(i);
    var h, r := row.H(c.curr), row.Rest(c);
    var w := Sum(Times(C(row.Alpha(c), 0.0), c.curr), Times(C(c.beta, 0.0), c.prev));
    AddBack(h, row.Alpha(c), c.curr, c.beta, c.prev);
    HermitianSum(row.H, row.n, Times(C(t, 0.0), c.curr), u);
    HermitianTimes(row.H, row.n, C(t, 0.0), c.curr);
    hide Mul, Sum, Times, Spanned, Residual, Row.Valid, Row.At, Row.Rest, Row.Alpha;
    v := Sum(Times(C(t, 0.0), w), row.H(u));
    BasisFromLead(row, i, t, u);
    SpanTimes(row, C(row.Alpha(c), 0.0), c.curr, i + 1);
    SpanTimes(row, C(c.beta, 0.0), c.prev, i + 1);
    SpanSum(row, Times(C(row.Alpha(c), 0.0), c.curr), Times(C(c.beta, 0.0), c.prev), i + 1);
    SpanTimes(row, C(t, 0.0), w, i + 1);
    SpanApply(row, u, i);
    SpanSum(row, Times(C(t, 0.0), w), row.H(u), i + 1);
    TimesSum(C(t, 0.0), r, ONE, w);
    SumAssociates(Times(C(t, 0.0), r), Times(C(t, 0.0), w), row.H(u));
  }

  lemma SumAssociates(a: Vec, b: Vec, c: Vec)
    requires |a| == |b| == |c|
    ensures Sum(Sum(a, b), c) == Sum(a, Sum(b, c))
  {
  }

  lemma {:induction false} Leading(row: Row, i: nat) returns (t: real, u: Vec)
    requires row.Valid() && row.At(i).Live?
    ensures Leads(row, i, t, u)
    decreases i, 0
  {
    hide Row.Valid, Row.At, Row.S, Mul, Sum, Times, Spanned, Row.Rest, Row.Norm, Power, Leads;
    if i == 0 {
      t, u := row.Norm(row.seed), Zero(row.n);
      LeadZero(row);
    } else {
      LiveBefore(row, i - 1, i);
      var t0, u0 := Leading(row, i - 1);
      PreviousSpanned(row, i - 1);
      LeadsFar(row, i - 1, t0, u0);
      u := NextPower(row, i - 1, t0, u0);
      t := LeadStep(row, i, t0, u);
    }
  }

  lemma LeadsFar(row: Row, i: nat, t: real, u: Vec)
    requires row.Valid() && row.At(i).Live? && Leads(row, i, t, u)
    ensures t != 0.0
  {
  }

  lemma LeadZero(row: Row)
    requires row.Valid() && row.At(0).Live?
    ensures Leads(row, 0, row.Norm(row.seed), Zero(row.n))
  {
    hide Row.Valid, Row.At, Row.S, Mul, Sum, Times, Spanned, Row.Norm;
    SpanZero(row, 0);
    SeedAlong(row);
  }

  lemma LeadStep(row: Row, i: nat, t: real, v: Vec) returns (q: real)
    requires row.Valid() && i > 0 && row.At(i).Live? && row.At(i - 1).Live? && t != 0.0
    requires |v| == row.n && Spanned(row, v, i)
    requires Power(row, i) == Sum(Times(C(t, 0.0), row.Rest(row.At(i - 1))), v)
    ensures Leads(row, i, q, v)
  {
    hide Row.Valid, Row.At, Mul, Sum, Times, Spanned, Row.Rest, Power;
    Advance(row, i - 1);
    var b := row.At(i).beta;
    NonzeroProduct(t, b);
    q := Product(t, b);
    Rescale(t, b, q, row.Rest(row.At(i - 1)));
  }

  lemma NonzeroProduct(a: real, b: real)
    requires a != 0.0 && b != 0.0
    ensures Product(a, b) != 0.0
  {
  }

  /** t r == (t b) (r / b) */
  lemma Rescale(t: real, b: real, q: real, r: Vec)
    requires b != 0.0 && q == t * b
    ensures Times(C(t, 0.0), r) == Times(C(q, 0.0), Times(C(1.0 / b, 0.0), r))
  {
    hide Mul, Scale;
    var w := 1.0 / b;
    forall i | 0 <= i < |r|
      ensures Mul(C(t, 0.0), r[i]) == Mul(C(q, 0.0), Mul(C(w, 0.0), r[i]))
    {
      MulReal(r[i], t);
      MulReal(r[i], w);
      MulReal(Scale(w, r[i]), q);
      RescaleOne(t, b, q, w, r[i]);
    }
  }

  lemma RescaleOne(t: real, b: real, q: real, w: real, a: C)
    requires b * w == 1.0 && q == t * b
    ensures Scale(t, a) == Scale(q, Scale(w, a))
  {
    assert q * w == t * (b * w) == t * 1.0;
    assert q * (w * a.re) == (q * w) * a.re;
    assert q * (w * a.im) == (q * w) * a.im;
  }

  /** The seed is its norm times the first vector. */
  lemma SeedAlong(row: Row)
    requires row.Valid() && row.At(0).Live?
    ensures row.Norm(row.seed) > 0.0
    ensures row.seed == Sum(Times(C(row.Norm(row.seed), 0.0), row.S(0)), Zero(row.n))
  {
    hide Mul, Scale, Add;
    var b := row.Norm(row.seed);
    NormSquare(row, row.seed);
    forall i | 0 <= i < row.n
      ensures Add(Mul(C(b, 0.0), row.S(0)[i]), ZERO) == row.seed[i]
    {
      var x := row.seed[i];
      MulReal(x, 1.0 / b);
      MulReal(Scale(1.0 / b, x), b);
      ScaleInverse(1.0 / b, x);
      assert 1.0 / (1.0 / b) == b;
      AddZero(x);
    }
  }

  lemma BasisSpanned(row: Row, i: nat)
    requires row.Valid() && row.At(i).Live?
    ensures Spanned(row, row.S(i), i + 1)
    decreases i, 1
  {
    var t, u := Leading(row, i);
    BasisFromLead(row, i, t, u);
  }

  lemma PreviousSpanned(row: Row, i: nat)
    requires row.Valid() && row.At(i).Live?
    ensures Spanned(row, row.At(i).prev, i + 1)
    decreases i, 2
  {
    Previous(row, i);
    if i == 0 {
      SpanZero(row, 1);
    } else {
      BasisSpanned(row, i - 1);
      SpanMore(row, row.S(i - 1), i);
    }
  }

  /** A first zero norm after vector i makes the next power a combination of the earlier ones. */
  lemma LostIsSpanned(row: Row, i: nat)
    requires row.Valid() && row.At(i).Live? && row.At(i + 1).Lost?
    ensures Spanned(row, Power(row, i + 1), i + 1)
  {
    var t, u := Leading(row, i);
    PreviousSpanned(row, i);
    var v := NextPower(row, i, t, u);
    RestVanishes(row, i);
    ZeroPlus(t, v);
  }

  lemma RestVanishes(row: Row, i: nat)
    requires row.Valid() && row.At(i).Live? && row.At(i + 1).Lost?
    ensures row.Rest(row.At(i)) == Zero(row.n)
  {
    hide Mul, Inner, Times, Residual, Row.Rest, Row.Alpha;
    var r := row.Rest(row.At(i));
    assert row.Norm(r) == 0.0;
    NormVanishes(row, r);
  }

  lemma NormVanishes(row: Row, r: Vec)
    requires row.Valid() && |r| == row.n && row.Norm(r) == 0.0
    ensures r == Zero(row.n)
  {
    hide Mul, Inner, Row.Norm;
    NormSquare(row, r);
    InnerSelfZero(r);
  }

  lemma ZeroPlus(t: real, v: Vec)
    ensures Sum(Times(C(t, 0.0), Zero(|v|)), v) == v
  {
    hide Mul, Add;
    MulZero(C(t, 0.0));
    forall i | 0 <= i < |v|
      ensures Add(ZERO, v[i]) == v[i]
    {
      AddZero(v[i]);
    }
  }

  // ---------------------------------------------------------------- the basis against the powers

  ghost predicate OrthogonalUpTo(row: Row, x: Vec, j: nat)
    requires row.Valid() && |x| == row.n
  {
    forall i :: 0 <= i <= j && row.At(i).Live? ==> Inner(x, row.S(i)) == ZERO
  }

  lemma OrthogonalTo(row: Row, x: Vec, j: nat, i: nat)
    requires row.Valid() && |x| == row.n && OrthogonalUpTo(row, x, j) && i <= j && row.At(i).Live?
    ensures Inner(x, row.S(i)) == ZERO
  {
  }

  /** H moves to the other side of an inner product. */
  lemma Moved(row: Row, x: Vec, y: Vec)
    requires row.Valid() && |x| == |y| == row.n
    ensures |row.H(x)| == |row.H(y)| == row.n && Inner(x, row.H(y)) == Inner(row.H(x), y)
  {
    SelfAdjoint(row.H, row.n, x, y);
  }

  /** The residual seen from p. */
  lemma InnerRest(row: Row, k: nat, p: Vec)
    requires row.Valid() && row.At(k).Live? && |p| == row.n
    ensures var c := row.At(k); |row.H(c.curr)| == row.n
    ensures var c := row.At(k);
      Inner(p, row.Rest(c)) == Sub(Sub(Inner(p, row.H(c.curr)), Scale(row.Alpha(c), Inner(p, c.curr))), Scale(c.beta, Inner(p, c.prev)))
  {
    hide Mul, Inner, Scale, Residual, Row.At, Row.Alpha;
    var c := row.At(k);
    InnerResidual(p, row.H(c.curr), row.Alpha(c), c.curr, c.beta, c.prev);
  }

  lemma AppliedOrthogonal(row: Row, x: Vec, j: nat, i: nat)
    requires row.Valid() && row.At(j).Live? && |x| == row.n && OrthogonalUpTo(row, x, j) && i < j
    ensures |row.H(x)| == row.n && row.At(i).Live? && Inner(row.H(x), row.S(i)) == ZERO
  {
    hide *;
    LiveBefore(row, i, j);
    LiveBefore(row, i + 1, j);
    Applied(row, i, x);
    Moved(row, x, row.S(i));
    OrthogonalTo(row, x, j, i);
    OrthogonalTo(row, x, j, i + 1);
    Previous(row, i);
    if i > 0 {
      OrthogonalTo(row, x, j, i - 1);
    } else {
      InnerZero(x);
    }
    ScaleDelta(row.At(i + 1).beta);
    ScaleDelta(row.Alpha(row.At(i)));
    ScaleDelta(row.At(i).beta);
    AddZero(ZERO);
  }

  lemma AppliedUpTo(row: Row, x: Vec, j: nat)
    requires row.Valid() && row.At(j).Live? && |x| == row.n && OrthogonalUpTo(row, x, j) && j > 0
    ensures |row.H(x)| == row.n && OrthogonalUpTo(row, row.H(x), j - 1)
  {
    Moved(row, x, x);
    hide Row.Valid, Row.At, Row.S, Inner;
    forall i | 0 <= i <= j - 1 && row.At(i).Live?
      ensures Inner(row.H(x), row.S(i)) == ZERO
    {
      AppliedOrthogonal(row, x, j, i);
    }
  }

  /** What is orthogonal to the first vectors is orthogonal to as many powers. */
  lemma {:induction false} OrthogonalToPower(row: Row, x: Vec, j: nat)
    requires row.Valid() && row.At(j).Live? && |x| == row.n && OrthogonalUpTo(row, x, j)
    ensures Inner(x, Power(row, j)) == ZERO
    decreases j
  {
    hide Mul, Inner, Row.At, Row.S, Row.Valid, Row.Norm, OrthogonalUpTo, Sum, Times, Zero, Add;
    if j == 0 {
      var t := C(row.Norm(row.seed), 0.0);
      OrthogonalTo(row, x, 0, 0);
      SeedAlong(row);
      InnerSum(x, Times(t, row.S(0)), Zero(row.n));
      InnerTimes(x, t, row.S(0));
      MulZero(t);
      InnerZero(x);
      AddZero(ZERO);
    } else {
      LiveBefore(row, j - 1, j);
      Moved(row, x, Power(row, j - 1));
      AppliedUpTo(row, x, j);
      OrthogonalToPower(row, row.H(x), j - 1);
    }
  }

  /** Vector k is orthogonal to every lower power. */
  lemma BasisAgainstPower(row: Row, k: nat, j: nat)
    requires row.Valid() && row.At(k).Live? && j < k
    ensures Inner(row.S(k), Power(row, j)) == ZERO
  {
    hide Mul, Inner, Row.At, Row.S, Row.Valid;
    LiveBefore(row, j, k);
    RecursionIsOrthonormal(row, k);
    forall i | 0 <= i <= j && row.At(i).Live?
      ensures Inner(row.S(k), row.S(i)) == ZERO
    {
      OrthonormalAt(row, k, k, i);
    }
    OrthogonalToPower(row, row.S(k), j);
  }

  lemma RestAgainstPower(row: Row, k: nat, j: nat)
    requires row.Valid() && row.At(k).Live? && j <= k
    ensures Inner(Power(row, j), row.Rest(row.At(k))) == ZERO
  {
    hide Mul, Inner, Row.At, Row.S, Row.Valid, Row.Rest;
    var r := row.Rest(row.At(k));
    LiveBefore(row, j, k);
    RecursionIsOrthonormal(row, k);
    forall i | 0 <= i <= j && row.At(i).Live?
      ensures Inner(r, row.S(i)) == ZERO
    {
      RestIsOrthogonal(row, k, i);
      InnerConjugate(row.S(i), r);
    }
    OrthogonalToPower(row, r, j);
    InnerConjugate(r, Power(row, j));
  }

  /** The power of a live vector has a component along it. */
  lemma {:induction false} LeadingEntry(row: Row, k: nat)
    requires row.Valid() && row.At(k).Live?
    ensures Inner(Power(row, k), row.S(k)) != ZERO
    decreases k
  {
    hide Mul, Inner, Scale, Residual, Row.At, Row.Alpha, Row.Rest, Row.Valid;
    if k == 0 {
      SeedEntry(row);
    } else {
      var p := Power(row, k - 1);
      LiveBefore(row, k - 1, k);
      Previous(row, k);
      LeadingEntry(row, k - 1);
      RestAgainstPower(row, k, k - 1);
      BasisAgainstPower(row, k, k - 1);
      InnerConjugate(row.S(k), p);
      var c := row.At(k);
      InnerRest(row, k, p);
      ScaleDelta(row.Alpha(c));
      Moved(row, p, row.S(k));
      ScaleNonzero(c.beta, Inner(p, c.prev), Inner(p, row.H(c.curr)));
    }
  }

  lemma ScaleNonzero(b: real, a: C, h: C)
    requires b != 0.0 && a != ZERO && Sub(Sub(h, ZERO), Scale(b, a)) == ZERO
    ensures h != ZERO
  {
    hide Scale;
    ScaleInverse(b, a);
    ScaleDelta(1.0 / b);
    assert h == Scale(b, a);
  }

  lemma SeedEntry(row: Row)
    requires row.Valid() && row.At(0).Live?
    ensures Inner(row.seed, row.S(0)) != ZERO
  {
    hide Mul, Inner, Row.S, Times, Zero;
    var t := C(row.Norm(row.seed), 0.0);
    var s := row.S(0);
    SeedAlong(row);
    UnitNorm(row, 0);
    InnerSumLeft(s, Times(t, s), Zero(row.n));
    InnerTimes(s, t, s);
    InnerZero(s);
    MulOne(Conj(t));
  }

  lemma {:induction false} ComboOrthogonal(row: Row, x: Vec, c: seq<C>)
    requires row.Valid() && |x| == row.n
    requires forall i :: 0 <= i < |c| ==> Inner(x, Power(row, i)) == ZERO
    ensures Inner(x, Combo(row, c)) == ZERO
  {
    hide Mul, Inner, Row.Valid;
    if c == [] {
      InnerZero(x);
    } else {
      var k := |c| - 1;
      ComboOrthogonal(row, x, c[..k]);
      InnerSum(x, Combo(row, c[..k]), Times(c[k], Power(row, k)));
      InnerTimes(x, c[k], Power(row, k));
      MulZero(c[k]);
    }
  }

  lemma LiveIsNotSpanned(row: Row, k: nat)
    requires row.Valid() && row.At(k).Live?
    ensures !Spanned(row, Power(row, k), k)
  {
    hide Mul, Inner, Row.At, Row.S, Row.Valid, Combo, Power;
    if Spanned(row, Power(row, k), k) {
      var c :| |c| == k && Combo(row, c) == Power(row, k);
      forall i | 0 <= i < k
        ensures Inner(row.S(k), Power(row, i)) == ZERO
      {
        BasisAgainstPower(row, k, i);
      }
      ComboOrthogonal(row, row.S(k), c);
      LeadingEntry(row, k);
      InnerConjugate(row.S(k), Power(row, k));
    }
  }

  // ---------------------------------------------------------------- when a run emits numbers

  /** The carry entering step k is live exactly when the first k + 1 powers are independent. */
  lemma {:induction false} LiveIffIndependent(row: Row, k: nat)
    requires row.Valid()
    ensures row.At(k).Live? <==> Independent(row, k + 1)
  {
    hide Row.Valid, Spanned, Power;
    if row.At(k).Live? {
      forall j | 0 <= j < k + 1
        ensures !Spanned(row, Power(row, j), j)
      {
        LiveBefore(row, j, k);
        LiveIsNotSpanned(row, j);
      }
    } else if k == 0 {
      SeedVanishes(row);
    } else {
      LiveIffIndependent(row, k - 1);
      if row.At(k - 1).Live? {
        LostIsSpanned(row, k - 1);
      }
    }
  }

  lemma SeedVanishes(row: Row)
    requires row.Valid() && row.At(0).Lost?
    ensures Spanned(row, Power(row, 0), 0)
  {
    hide Mul, Inner, Times, Row.Norm;
    NormVanishes(row, row.seed);
    assert Combo(row, []) == Power(row, 0);
  }

  /** A step emits numbers exactly when its carry is live. */
  lemma NumbersIffLive(row: Row, steps: nat, k: nat)
    requires row.Valid() && k < steps
    ensures var (alphas, betas) := row.Scan(row.Start(), steps);
      && (alphas[k].Some? <==> row.At(k).Live?)
      && (betas[k].Some? <==> row.At(k).Live?)
  {
    hide Row.Scan, Row.Rest, Row.Alpha, Row.Norm, Times;
    ScanFrom(row, 0, steps, k);
  }

  /**
   Every alpha and beta of a run is a number exactly when no H^k d with k below the number of
   steps is a combination of the earlier ones.
   */
  lemma RunIsNumericIffIndependent(row: Row, steps: nat)
    requires row.Valid()
    ensures var (alphas, betas) := row.Scan(row.Start(), steps);
      (forall k :: 0 <= k < steps ==> alphas[k].Some? && betas[k].Some?) <==> Independent(row, steps)
  {
    hide Row.Valid, Row.Scan, Row.At, Independent;
    if steps == 0 {
      assert Independent(row, 0) by { NoneDependent(row); }
    } else {
      forall k | 0 <= k < steps
        ensures row.Scan(row.Start(), steps).0[k].Some? <==> row.At(k).Live?
        ensures row.Scan(row.Start(), steps).1[k].Some? <==> row.At(k).Live?
      {
        NumbersIffLive(row, steps, k);
      }
      LiveIffIndependent(row, steps - 1);
      assert row.Scan(row.Start(), steps).0[steps - 1].Some? <==> row.At(steps - 1).Live?;
      if row.At(steps - 1).Live? {
        forall k | 0 <= k < steps
          ensures row.At(k).Live?
        {
          LiveBefore(row, k, steps - 1);
        }
      }
    }
  }

  lemma NoneDependent(row: Row)
    requires row.Valid()
    ensures Independent(row, 0)
  {
  }

  /** An eigenvector as seed: the second step already emits no number. */
  lemma EigenvectorSeedFails(row: Row, lambda: C, steps: nat)
    requires row.Valid() && row.H(row.seed) == Times(lambda, row.seed) && steps >= 2
    ensures row.Scan(row.Start(), steps).0[1] == None == row.Scan(row.Start(), steps).1[1]
  {
    EigenvectorSpans(row, lambda);
    hide Row.Valid, Row.Scan, Row.At, Times, Power, Spanned;
    LiveIffIndependent(row, 1);
    NumbersIffLive(row, steps, 1);
  }

  lemma EigenvectorSpans(row: Row, lambda: C)
    requires row.Valid() && row.H(row.seed) == Times(lambda, row.seed)
    ensures Spanned(row, Power(row, 1), 1)
  {
    hide Row.Valid, Times;
    assert Power(row, 0) == row.seed && Power(row, 1) == row.H(row.seed);
    SpanPower(row, 0);
    SpanTimes(row, lambda, row.seed, 1);
  }
}
