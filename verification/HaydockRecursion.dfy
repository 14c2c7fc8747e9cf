/**
 The Haydock (Lanczos) recursion of `haydock_recursion_block`: a scan whose carry
 holds the current and previous vector and the last beta, without reorthogonalisation.

 The program divides by norms without a guard.  A zero norm makes every entry of the next
 vector 0/0, and everything computed from it is not a number: the carry is then `Lost`.
 */
module HaydockRecursion {
  import opened Complex
  import opened Vectors
  import opened Wrappers

  datatype Carry = Live(curr: Vec, prev: Vec, beta: real) | Lost

  ghost predicate RootOf(s: real, x: real) {
    s >= 0.0 && Product(s, s) == x
  }

  ghost predicate IsSqrt(sqrt: real -> real) {
    forall x {:trigger RootOf(sqrt(x), x)} :: x >= 0.0 ==> RootOf(sqrt(x), x)
  }

  /** v / norm, or `Lost` where the norm is zero. */
  function Next(v: Vec, norm: real, prev: Vec, beta: real): Carry {
    if norm == 0.0 then Lost else Live(Times(C(1.0 / norm, 0.0), v), prev, beta)
  }

  /** One row of the block: the matvec on n entries, the square root and the seed row. */
  datatype Row = Row(H: Vec -> Vec, sqrt: real -> real, n: nat, seed: Vec) {

    ghost predicate Valid() {
      Hermitian(H, n) && IsSqrt(sqrt) && |seed| == n
    }

    ghost predicate Shaped(c: Carry) {
      c.Live? ==> |c.curr| == |c.prev| == n
    }

    function Norm(v: Vec): real { sqrt(Inner(v, v).re) }

    function Start(): (c: Carry)
      requires Valid()
      ensures Shaped(c)
    {
      Next(seed, Norm(seed), Zero(n), 0.0)
    }

    function Alpha(c: Carry): real
      requires Valid() && Shaped(c) && c.Live?
    {
      Inner(c.curr, H(c.curr)).re
    }

    function Rest(c: Carry): (r: Vec)
      requires Valid() && Shaped(c) && c.Live?
      ensures |r| == n
    {
      Residual(H(c.curr), Alpha(c), c.curr, c.beta, c.prev)
    }

    /** The scan body: the next carry and the emitted alpha and beta. */
    function Body(c: Carry): (r: (Carry, Num, Num))
      requires Valid() && Shaped(c)
      ensures Shaped(r.0)
    {
      if c.Lost? then (Lost, None, None)
      else
        var r := Rest(c);
        (Next(r, Norm(r), c.curr, Norm(r)), Some(Alpha(c)), Some(Norm(r)))
    }

    /** The alphas and betas of `steps` scan steps. */
    function Scan(c: Carry, steps: nat): (r: (seq<Num>, seq<Num>))
      requires Valid() && Shaped(c)
      ensures |r.0| == |r.1| == steps
      decreases steps
    {
      if steps == 0 then ([], [])
      else
        var (next, a, b) := Body(c);
        var (alphas, betas) := Scan(next, steps - 1);
        ([a] + alphas, [b] + betas)
    }

    /** The carry entering step k. */
    function At(k: nat): (c: Carry)
      requires Valid()
      ensures Shaped(c)
    {
      if k == 0 then Start() else Body(At(k - 1)).0
    }

    ghost function S(k: nat): (v: Vec)
      requires Valid() && At(k).Live?
      ensures |v| == n
    {
      At(k).curr
    }
  }

  // ---------------------------------------------------------------- the scan and its carries

  lemma {:induction false} ScanFrom(row: Row, from: nat, steps: nat, k: nat)
    requires row.Valid() && k < steps
    ensures row.Scan(row.At(from), steps).0[k] == row.Body(row.At(from + k)).1
    ensures row.Scan(row.At(from), steps).1[k] == row.Body(row.At(from + k)).2
    decreases steps
  {
    hide Mul, Scale, Inner;
    assert row.At(from + 1) == row.Body(row.At(from)).0;
    if k > 0 {
      ScanFrom(row, from + 1, steps - 1, k - 1);
    }
  }

  /** A lost carry stays lost, so a live one was live at every earlier step. */
  lemma {:induction false} LiveBefore(row: Row, i: nat, m: nat)
    requires row.Valid() && i <= m && row.At(m).Live?
    ensures row.At(i).Live?
    decreases m - i
  {
    if i < m {
      assert row.At(m) == row.Body(row.At(m - 1)).0;
      LiveBefore(row, i, m - 1);
    }
  }

  lemma NormSquare(row: Row, v: Vec)
    requires row.Valid()
    ensures row.Norm(v) >= 0.0
    ensures Inner(v, v) == C(Product(row.Norm(v), row.Norm(v)), 0.0)
  {
    InnerSelfSign(v);
    assert RootOf(row.sqrt(Inner(v, v).re), Inner(v, v).re);
    assert Inner(v, v) == C(Inner(v, v).re, Inner(v, v).im);
  }

  lemma ReciprocalSquare(b: real)
    requires b != 0.0
    ensures Mul(C(1.0 / b, 0.0), Mul(Conj(C(1.0 / b, 0.0)), C(Product(b, b), 0.0))) == ONE
  {
    var t := 1.0 / b;
    assert t * b == 1.0;
    assert t * (t * (b * b)) == (t * b) * (t * b) == 1.0;
  }

  lemma Normalized(row: Row, v: Vec)
    requires row.Valid() && row.Norm(v) != 0.0
    ensures var u := Times(C(1.0 / row.Norm(v), 0.0), v); Inner(u, u) == ONE
  {
    hide Mul, Conj;
    var t := C(1.0 / row.Norm(v), 0.0);
    NormSquare(row, v);
    InnerTimes(Times(t, v), t, v);
    InnerTimes(v, t, v);
    ReciprocalSquare(row.Norm(v));
  }

  /** Every live vector has norm one. */
  lemma UnitNorm(row: Row, k: nat)
    requires row.Valid() && row.At(k).Live?
    ensures Inner(row.S(k), row.S(k)) == ONE
  {
    if k == 0 {
      Normalized(row, row.seed);
    } else {
      Normalized(row, row.Rest(row.At(k - 1)));
    }
  }

  /** What a live next carry says about this step. */
  lemma Advance(row: Row, k: nat)
    requires row.Valid() && row.At(k + 1).Live?
    ensures row.At(k).Live?
    ensures row.At(k + 1).beta > 0.0
    ensures row.At(k + 1).prev == row.S(k)
    ensures row.Body(row.At(k)).2 == Some(row.At(k + 1).beta)
    ensures row.S(k + 1) == Times(C(1.0 / row.At(k + 1).beta, 0.0), row.Rest(row.At(k)))
  {
    NormSquare(row, row.Rest(row.At(k)));
  }

  /** The residual is beta times the next vector. */
  lemma RestIsNext(row: Row, k: nat, x: Vec)
    requires row.Valid() && row.At(k + 1).Live? && |x| == row.n
    ensures row.At(k).Live?
    ensures Inner(x, row.Rest(row.At(k))) == Scale(row.At(k + 1).beta, Inner(x, row.S(k + 1)))
  {
    hide Mul, Inner, Residual, Times;
    hide Mul, Scale;
    Advance(row, k);
    var b := row.At(k + 1).beta;
    var q := Inner(x, row.Rest(row.At(k)));
    InnerTimes(x, C(1.0 / b, 0.0), row.Rest(row.At(k)));
    MulReal(q, 1.0 / b);
    ScaleInverse(1.0 / b, q);
    assert 1.0 / (1.0 / b) == b;
  }

  /** <x, H s_k> through the three neighbours of s_k. */
  lemma Applied(row: Row, k: nat, x: Vec)
    requires row.Valid() && row.At(k + 1).Live? && |x| == row.n
    ensures row.At(k).Live?
    ensures Inner(x, row.H(row.S(k)))
         == Add(Add(Scale(row.At(k + 1).beta, Inner(x, row.S(k + 1))),
                    Scale(row.Alpha(row.At(k)), Inner(x, row.S(k)))),
                Scale(row.At(k).beta, Inner(x, row.At(k).prev)))
  {
    hide Scale;
    RestIsNext(row, k, x);
    var c := row.At(k);
    InnerResidual(x, row.H(c.curr), row.Alpha(c), c.curr, c.beta, c.prev);
  }

  // ---------------------------------------------------------------- orthonormality

  function Delta(i: nat, j: nat): C { if i == j then ONE else ZERO }

  ghost predicate Orthonormal(row: Row, m: nat)
    requires row.Valid() && row.At(m).Live?
  {
    forall i, j :: 0 <= i <= m && 0 <= j <= m && row.At(i).Live? && row.At(j).Live? ==>
      Inner(row.S(i), row.S(j)) == Delta(i, j)
  }

  lemma OrthonormalAt(row: Row, m: nat, i: nat, j: nat)
    requires row.Valid() && row.At(m).Live? && Orthonormal(row, m) && i <= m && j <= m
    ensures row.At(i).Live? && row.At(j).Live?
    ensures Inner(row.S(i), row.S(j)) == Delta(i, j)
  {
    LiveBefore(row, i, m);
    LiveBefore(row, j, m);
  }

  /** The previous vector in the carry: s_(k-1), or the zero vector with beta 0. */
  lemma Previous(row: Row, k: nat)
    requires row.Valid() && row.At(k).Live?
    ensures k == 0 ==> row.At(0).prev == Zero(row.n) && row.At(0).beta == 0.0
    ensures k > 0 ==> row.At(k - 1).Live? && row.At(k).prev == row.S(k - 1) && row.At(k).beta > 0.0
  {
    if k > 0 {
      Advance(row, k - 1);
    }
  }

  lemma AgainstPrevious(row: Row, m: nat, i: nat, k: nat)
    requires row.Valid() && row.At(m).Live? && Orthonormal(row, m) && i <= m && k <= m
    ensures row.At(i).Live? && row.At(k).Live?
    ensures Inner(row.S(i), row.At(k).prev) == if k == i + 1 then ONE else ZERO
  {
    hide Mul, Inner, Residual, Times;
    LiveBefore(row, i, m);
    LiveBefore(row, k, m);
    Previous(row, k);
    if k == 0 {
      InnerZero(row.S(i));
    } else {
      OrthonormalAt(row, m, i, k - 1);
    }
  }

  /** The entries of H above the diagonal, among vectors already known to be orthonormal. */
  lemma UpperEntry(row: Row, m: nat, i: nat, j: nat)
    requires row.Valid() && row.At(m).Live? && Orthonormal(row, m) && i < j <= m
    ensures row.At(i).Live? && row.At(j).Live?
    ensures Inner(row.S(i), row.H(row.S(j))) == if j == i + 1 then C(row.At(j).beta, 0.0) else ZERO
  {
    hide Mul, Inner, Residual, Times, Scale;
    OrthonormalAt(row, m, j, i);
    OrthonormalAt(row, m, j, i + 1);
    AgainstPrevious(row, m, j, i);
    Applied(row, i, row.S(j));
    ScaleDelta(row.At(i + 1).beta);
    ScaleDelta(row.Alpha(row.At(i)));
    ScaleDelta(row.At(i).beta);
    SelfAdjoint(row.H, row.n, row.S(i), row.S(j));
    InnerConjugate(row.S(j), row.H(row.S(i)));
  }

  lemma DiagonalEntry(row: Row, c: Carry)
    requires row.Valid() && row.Shaped(c) && c.Live?
    ensures Inner(c.curr, row.H(c.curr)) == C(row.Alpha(c), 0.0)
  {
    SelfAdjoint(row.H, row.n, c.curr, c.curr);
    InnerConjugate(c.curr, row.H(c.curr));
  }

  /** The new residual is orthogonal to every vector so far, not just to the two subtracted. */
  lemma RestIsOrthogonal(row: Row, m: nat, i: nat)
    requires row.Valid() && row.At(m).Live? && Orthonormal(row, m) && i <= m
    ensures row.At(i).Live?
    ensures Inner(row.S(i), row.Rest(row.At(m))) == ZERO
  {
    hide Mul, Inner, Residual, Times, Scale;
    var c := row.At(m);
    ScaleDelta(row.Alpha(c));
    ScaleDelta(c.beta);
    OrthonormalAt(row, m, i, m);
    AgainstPrevious(row, m, i, m);
    InnerResidual(row.S(i), row.H(c.curr), row.Alpha(c), c.curr, c.beta, c.prev);
    if i == m {
      DiagonalEntry(row, c);
    } else {
      UpperEntry(row, m, i, m);
    }
  }

  lemma NewVectorIsOrthogonal(row: Row, m: nat, i: nat)
    requires row.Valid() && row.At(m + 1).Live? && row.At(m).Live? && Orthonormal(row, m) && i <= m
    ensures row.At(i).Live?
    ensures Inner(row.S(i), row.S(m + 1)) == ZERO == Inner(row.S(m + 1), row.S(i))
  {
    hide Mul, Inner, Residual, Times;
    RestIsOrthogonal(row, m, i);
    Advance(row, m);
    InnerTimes(row.S(i), C(1.0 / row.At(m + 1).beta, 0.0), row.Rest(row.At(m)));
    MulZero(C(1.0 / row.At(m + 1).beta, 0.0));
    InnerConjugate(row.S(i), row.S(m + 1));
  }

  /**
   All vectors up to a live carry are pairwise orthonormal, although each step subtracts
   only the two latest ones.
   */
  lemma {:induction false} RecursionIsOrthonormal(row: Row, m: nat)
    requires row.Valid() && row.At(m).Live?
    ensures Orthonormal(row, m)
  {
    hide Mul, Inner, Residual, Times;
    if m == 0 {
      UnitNorm(row, 0);
    } else {
      LiveBefore(row, m - 1, m);
      RecursionIsOrthonormal(row, m - 1);
      UnitNorm(row, m);
      forall i, j | 0 <= i <= m && 0 <= j <= m && row.At(i).Live? && row.At(j).Live?
        ensures Inner(row.S(i), row.S(j)) == Delta(i, j)
      {
        if i < m && j < m {
          OrthonormalAt(row, m - 1, i, j);
        } else if i < m {
          NewVectorIsOrthogonal(row, m - 1, i);
        } else if j < m {
          NewVectorIsOrthogonal(row, m - 1, j);
        }
      }
    }
  }

  /** The matrix element between s_i and s_j, in terms of the carries. */
  lemma MatrixEntry(row: Row, i: nat, j: nat)
    requires row.Valid() && row.At(i).Live? && row.At(j).Live?
    ensures Inner(row.S(i), row.H(row.S(j)))
         == if i == j then C(row.Alpha(row.At(i)), 0.0)
            else if j == i + 1 then C(row.At(j).beta, 0.0)
            else if i == j + 1 then C(row.At(i).beta, 0.0)
            else ZERO
  {
    hide Mul, Inner, Residual, Times, Scale;
    if i == j {
      DiagonalEntry(row, row.At(i));
    } else if i < j {
      RecursionIsOrthonormal(row, j);
      UpperEntry(row, j, i, j);
    } else {
      RecursionIsOrthonormal(row, i);
      UpperEntry(row, i, j, i);
      SelfAdjoint(row.H, row.n, row.S(i), row.S(j));
      InnerConjugate(row.S(j), row.H(row.S(i)));
    }
  }

  /** The alpha and beta emitted at a step. */
  lemma Emitted(row: Row, steps: nat, k: nat)
    requires row.Valid() && k < steps
    ensures var (alphas, betas) := row.Scan(row.Start(), steps);
      && (row.At(k).Live? ==> alphas[k] == Some(row.Alpha(row.At(k))))
      && (row.At(k + 1).Live? ==> betas[k] == Some(row.At(k + 1).beta))
  {
    hide Mul, Inner, Residual, Times, Scale;
    ScanFrom(row, 0, steps, k);
    if row.At(k + 1).Live? {
      Advance(row, k);
    }
  }

  /** The matrix of H in the recursion's basis is the tridiagonal one of the emitted alphas and betas. */
  lemma RecursionTridiagonalises(row: Row, steps: nat, i: nat, j: nat)
    requires row.Valid() && i < steps && j < steps && row.At(i).Live? && row.At(j).Live?
    ensures var (alphas, betas) := row.Scan(row.Start(), steps);
      var entry := Inner(row.S(i), row.H(row.S(j)));
      if i == j then alphas[i].Some? && entry == C(alphas[i].value, 0.0)
      else if j == i + 1 then betas[i].Some? && entry == C(betas[i].value, 0.0)
      else if i == j + 1 then betas[j].Some? && entry == C(betas[j].value, 0.0)
      else entry == ZERO
  {
    hide Mul, Inner, Residual, Times, Scale, Row.Body, Row.Scan;
    MatrixEntry(row, i, j);
    Emitted(row, steps, i);
    Emitted(row, steps, j);
  }

  // ---------------------------------------------------------------- the block

  /** The scan over a whole block: the matvec applies the same map to every row. */
  function BlockScan(rows: seq<Row>, carries: seq<Carry>, steps: nat): (r: (seq<seq<Num>>, seq<seq<Num>>))
    requires |rows| == |carries|
    requires forall a :: 0 <= a < |rows| ==> rows[a].Valid() && rows[a].Shaped(carries[a])
    ensures |r.0| == |r.1| == |rows|
    ensures forall a :: 0 <= a < |rows| ==> |r.0[a]| == |r.1[a]| == steps
    decreases steps
  {
    if steps == 0 then (seq(|rows|, _ => []), seq(|rows|, _ => []))
    else
      var bodies := seq(|rows|, a requires 0 <= a < |rows| => rows[a].Body(carries[a]));
      var next := seq(|rows|, a requires 0 <= a < |rows| => bodies[a].0);
      var (alphas, betas) := BlockScan(rows, next, steps - 1);
      (seq(|rows|, a requires 0 <= a < |rows| => [bodies[a].1] + alphas[a]),
       seq(|rows|, a requires 0 <= a < |rows| => [bodies[a].2] + betas[a]))
  }

  /** The rows of a block never mix: each is its own recursion. */
  lemma {:induction false} BlockRowsAreSeparate(rows: seq<Row>, carries: seq<Carry>, steps: nat, a: nat)
    requires |rows| == |carries| && a < |rows|
    requires forall a :: 0 <= a < |rows| ==> rows[a].Valid() && rows[a].Shaped(carries[a])
    ensures BlockScan(rows, carries, steps).0[a] == rows[a].Scan(carries[a], steps).0
    ensures BlockScan(rows, carries, steps).1[a] == rows[a].Scan(carries[a], steps).1
    decreases steps
  {
    if steps > 0 {
      var next := seq(|rows|, b requires 0 <= b < |rows| => rows[b].Body(carries[b]).0);
      BlockRowsAreSeparate(rows, next, steps - 1, a);
      assert next == seq(|rows|, b requires 0 <= b < |rows|
        => seq(|rows|, c requires 0 <= c < |rows| => rows[c].Body(carries[c]))[b].0);
    }
  }
}
