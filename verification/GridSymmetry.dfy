/**
 Averaging a field on the FFT grid over symmetry operations (`symmetrize_on_grid`).  The
 symmetry service supplies one pullback row of grid positions per operation.
 */
module GridSymmetry {
  import opened Sequences
  import opened Sums

  datatype Outcome = Field(values: seq<real>) | WrongShiftCount | WrongShape | NotANumber

  /** Row entries are positions of an n-point grid. */
  predicate OnGrid(row: seq<nat>, n: nat) {
    forall p :: 0 <= p < |row| ==> row[p] < n
  }

  predicate FullRows(rows: seq<seq<nat>>, n: nat) {
    forall k :: 0 <= k < |rows| ==> |rows[k]| == n && OnGrid(rows[k], n)
  }

  /** Where the operations take point p. */
  function Images(rows: seq<seq<nat>>, n: nat, p: nat): (r: seq<nat>)
    requires FullRows(rows, n) && p < n
    ensures |r| == |rows| && forall k {:trigger r[k]} :: 0 <= k < |r| ==> r[k] == rows[k][p] && r[k] < n
  {
    seq(|rows|, k requires 0 <= k < |rows| => rows[k][p])
  }

  /** The values summed at point p. */
  function Column(f: seq<real>, rows: seq<seq<nat>>, p: nat): (c: seq<real>)
    requires FullRows(rows, |f|) && p < |f|
    ensures |c| == |rows| && forall k {:trigger c[k]} :: 0 <= k < |c| ==> c[k] == f[rows[k][p]]
  {
    Gather(f, Images(rows, |f|, p))
  }

  function Accumulated(f: seq<real>, rows: seq<seq<nat>>): (r: seq<real>)
    requires FullRows(rows, |f|)
    ensures |r| == |f| && forall p :: 0 <= p < |r| ==> r[p] == Total(Column(f, rows, p))
  {
    seq(|f|, p requires 0 <= p < |f| => Total(Column(f, rows, p)))
  }

  /** The average over a nonempty list of operations. */
  function Average(f: seq<real>, rows: seq<seq<nat>>): (r: seq<real>)
    requires FullRows(rows, |f|) && rows != []
    ensures |r| == |f|
  {
    Divided(Accumulated(f, rows), |rows| as real)
  }

  lemma AppendRow(f: seq<real>, rows: seq<seq<nat>>, k: nat, p: nat)
    requires FullRows(rows, |f|) && k < |rows| && p < |f|
    ensures Total(Column(f, rows[..k + 1], p)) == Total(Column(f, rows[..k], p)) + f[rows[k][p]]
  {
    assert Column(f, rows[..k + 1], p) == Column(f, rows[..k], p) + [f[rows[k][p]]];
    TotalConcat(Column(f, rows[..k], p), [f[rows[k][p]]]);
  }

  /**
   `shifts` is the number of fractional translations, when they are given.  Without them a
   list of at most one operation returns the field itself.
   */
  method SymmetrizeOnGrid(f: seq<real>, rows: seq<seq<nat>>, translated: bool, shifts: nat) returns (r: Outcome)
    requires forall k :: 0 <= k < |rows| ==> OnGrid(rows[k], |f|)
    requires !translated ==> FullRows(rows, |f|)
    ensures r.WrongShiftCount? <==> translated && shifts != |rows|
    ensures r.WrongShape? <==> translated && shifts == |rows| && !FullRows(rows, |f|)
    ensures r.NotANumber? <==> translated && shifts == |rows| == 0
    ensures r.Field? && !translated && |rows| <= 1 ==> r.values == f
    ensures r.Field? && (translated || |rows| > 1) ==> FullRows(rows, |f|) && rows != [] && r.values == Average(f, rows)
  {
    if |rows| <= 1 && !translated {
      return Field(f);
    }
    if translated && shifts != |rows| {
      return WrongShiftCount;
    }
    var acc := new real[|f|](_ => 0.0);
    for k := 0 to |rows|
      invariant FullRows(rows[..k], |f|)
      invariant forall p :: 0 <= p < |f| ==> acc[p] == Total(Column(f, rows[..k], p))
    {
      var row := rows[k];
      if |row| != |f| {
        return WrongShape;
      }
      assert rows[..k + 1] == rows[..k] + [row];
      forall p | 0 <= p < |f|
        ensures Total(Column(f, rows[..k + 1], p)) == Total(Column(f, rows[..k], p)) + f[row[p]]
      {
        AppendRow(f, rows[..k + 1], k, p);
        assert rows[..k + 1][..k] == rows[..k] && rows[..k + 1][..k + 1] == rows[..k + 1];
      }
      forall p | 0 <= p < |f| {
        acc[p] := acc[p] + f[row[p]];
      }
    }
    assert rows[..|rows|] == rows;
    if |rows| == 0 {
      return NotANumber;
    }
    assert acc[..] == Accumulated(f, rows);
    return Field(Divided(acc[..], |rows| as real));
  }

  // ---------------------------------------------------------------- when the average is symmetric

  /** The field read through one row. */
  ghost predicate Invariant(f: seq<real>, row: seq<nat>)
    requires |row| == |f| && forall p :: 0 <= p < |row| ==> row[p] < |f|
  {
    Gather(f, row) == f
  }

  /** Every image of a point has the same list of images as the point, up to order. */
  ghost predicate Uniform(rows: seq<seq<nat>>, n: nat)
    requires FullRows(rows, n)
  {
    forall j, p :: 0 <= j < |rows| && 0 <= p < n ==> multiset(Images(rows, n, rows[j][p])) == multiset(Images(rows, n, p))
  }

  lemma UniformAverages(f: seq<real>, rows: seq<seq<nat>>, j: nat)
    requires FullRows(rows, |f|) && j < |rows| && Uniform(rows, |f|)
    ensures Invariant(Average(f, rows), rows[j])
  {
    var n := |f|;
    forall p | 0 <= p < n
      ensures Accumulated(f, rows)[rows[j][p]] == Accumulated(f, rows)[p]
    {
      GatherTotal(f, Images(rows, n, rows[j][p]), Images(rows, n, p));
    }
    assert Gather(Average(f, rows), rows[j]) == Average(f, rows);
  }

  lemma GatherTotal(f: seq<real>, a: seq<nat>, b: seq<nat>)
    requires multiset(a) == multiset(b)
    requires forall i :: 0 <= i < |a| ==> a[i] < |f|
    requires forall i :: 0 <= i < |b| ==> b[i] < |f|
    ensures Total(Gather(f, a)) == Total(Gather(f, b))
  {
    GatherSameMultiset(f, a, b);
    TotalOfMultiset(Gather(f, a), Gather(f, b));
  }

  lemma {:induction false} GatherSameMultiset(f: seq<real>, a: seq<nat>, b: seq<nat>)
    requires multiset(a) == multiset(b)
    requires forall i :: 0 <= i < |a| ==> a[i] < |f|
    requires forall i :: 0 <= i < |b| ==> b[i] < |f|
    ensures multiset(Gather(f, a)) == multiset(Gather(f, b))
  {
    if a == [] {
      assert |multiset(b)| == 0;
    } else {
      assert a[0] in multiset(b);
      var j :| 0 <= j < |b| && b[j] == a[0];
      WithoutFirst(a, b, j);
      GatherSameMultiset(f, a[1..], Without(b, j));
      assert Without(Gather(f, b), j) == Gather(f, Without(b, j));
      hide Without;
      WithoutMultiset(Gather(f, b), j);
      assert Gather(f, a) == [f[a[0]]] + Gather(f, a[1..]);
    }
  }

  /** The field that is one at q and zero elsewhere. */
  function Point(n: nat, q: nat): (f: seq<real>)
    ensures |f| == n
  {
    seq(n, p => if p == q then 1.0 else 0.0)
  }

  lemma {:induction false} PointCounts(n: nat, q: nat, a: seq<nat>)
    requires q < n && forall i :: 0 <= i < |a| ==> a[i] < n
    ensures Total(Gather(Point(n, q), a)) == multiset(a)[q] as real
  {
    if a != [] {
      PointCounts(n, q, a[1..]);
      assert a == [a[0]] + a[1..];
      assert Gather(Point(n, q), a)[1..] == Gather(Point(n, q), a[1..]);
    }
  }

  lemma QuotientInjective(x: real, y: real, d: real)
    requires d != 0.0 && Quotient(x, d) == Quotient(y, d)
    ensures x == y
  {
    assert x == (x / d) * d;
    assert y == (y / d) * d;
  }

  /** If averages of point fields are invariant, the images are uniform. */
  lemma InvariantIsUniform(rows: seq<seq<nat>>, n: nat, j: nat, p: nat)
    requires FullRows(rows, n) && j < |rows| && p < n
    requires forall q :: 0 <= q < n ==> Invariant(Average(Point(n, q), rows), rows[j])
    ensures multiset(Images(rows, n, rows[j][p])) == multiset(Images(rows, n, p))
  {
    var a, b := Images(rows, n, rows[j][p]), Images(rows, n, p);
    var counts, counts' := multiset(a), multiset(b);
    forall q: nat
      ensures counts[q] == counts'[q]
    {
      if q < n {
        PointCounts(n, q, a);
        PointCounts(n, q, b);
        var avg := Average(Point(n, q), rows);
        assert Gather(avg, rows[j])[p] == avg[p];
        QuotientInjective(Total(Gather(Point(n, q), a)), Total(Gather(Point(n, q), b)), |rows| as real);
      } else {
        assert q !in a && q !in b;
      }
    }
  }

  /** Averages of all fields are invariant under all operations exactly when the images are uniform. */
  lemma InvariantIffUniform(rows: seq<seq<nat>>, n: nat)
    requires FullRows(rows, n) && rows != []
    ensures Uniform(rows, n) <==>
      forall f, j :: |f| == n && 0 <= j < |rows| ==> Invariant(Average(f, rows), rows[j])
  {
    if Uniform(rows, n) {
      forall f, j | |f| == n && 0 <= j < |rows|
        ensures Invariant(Average(f, rows), rows[j])
      {
        UniformAverages(f, rows, j);
      }
    } else {
      var j, p :| 0 <= j < |rows| && 0 <= p < n && multiset(Images(rows, n, rows[j][p])) != multiset(Images(rows, n, p));
      if forall f, j :: |f| == n && 0 <= j < |rows| ==> Invariant(Average(f, rows), rows[j]) {
        assert forall q :: 0 <= q < n ==> |Point(n, q)| == n;
        InvariantIsUniform(rows, n, j, p);
      }
    }
  }

  /** Averaging an average changes nothing. */
  lemma AverageIsIdempotent(f: seq<real>, rows: seq<seq<nat>>)
    requires FullRows(rows, |f|) && rows != [] && Uniform(rows, |f|)
    ensures Average(Average(f, rows), rows) == Average(f, rows)
  {
    hide Uniform;
    var a := Average(f, rows);
    forall p | 0 <= p < |f|
      ensures Average(a, rows)[p] == a[p]
    {
      forall k | 0 <= k < |rows|
        ensures Column(a, rows, p)[k] == a[p]
      {
        UniformAverages(f, rows, k);
        assert Gather(a, rows[k])[p] == a[p];
      }
      TotalConstant(Column(a, rows, p), a[p]);
      QuotientOfRepeated(a[p], |rows|);
    }
  }

  lemma {:induction false} AccumulatedTotal(f: seq<real>, rows: seq<seq<nat>>)
    requires FullRows(rows, |f|)
    requires forall k :: 0 <= k < |rows| ==> IsPermutation(rows[k], |f|)
    ensures Total(Accumulated(f, rows)) == Repeated(Total(f), |rows|)
  {
    hide IsPermutation, Column, Repeated;
    if rows == [] {
      TotalConstant(Accumulated(f, rows), 0.0);
      RepeatedOnce(0.0, |f|);
      RepeatedOnce(Total(f), 0);
    } else {
      var rest := rows[1..];
      AccumulatedTotal(f, rest);
      GatherMultiset(f, rows[0]);
      TotalOfMultiset(Gather(f, rows[0]), f);
      forall p | 0 <= p < |f|
        ensures Accumulated(f, rows)[p] == Gather(f, rows[0])[p] + Accumulated(f, rest)[p]
      {
        assert Column(f, rows, p)[1..] == Column(f, rest, p);
      }
      assert Accumulated(f, rows) == Added(Gather(f, rows[0]), Accumulated(f, rest));
      TotalAdded(Gather(f, rows[0]), Accumulated(f, rest));
      RepeatedOnce(Total(f), |rest|);
    }
  }

  /** Permutation rows conserve the field's total, whatever else they are. */
  lemma AverageConservesTotal(f: seq<real>, rows: seq<seq<nat>>)
    requires FullRows(rows, |f|) && rows != []
    requires forall k :: 0 <= k < |rows| ==> IsPermutation(rows[k], |f|)
    ensures Total(Average(f, rows)) == Total(f)
  {
    hide IsPermutation, Quotient, Accumulated, Total, FullRows, Repeated;
    AccumulatedTotal(f, rows);
    TotalDivided(Accumulated(f, rows), |rows| as real);
    QuotientOfRepeated(Total(f), |rows|);
  }

  // ---------------------------------------------------------------- groups of operations

  /** Apply row b, then look the result up in row a. */
  function Compose(a: seq<nat>, b: seq<nat>): (r: seq<nat>)
    requires forall p :: 0 <= p < |b| ==> b[p] < |a|
    ensures |r| == |b| && forall p {:trigger r[p]} :: 0 <= p < |r| ==> r[p] == a[b[p]]
  {
    seq(|b|, p requires 0 <= p < |b| => a[b[p]])
  }

  ghost predicate HasProduct(rows: seq<seq<nat>>, n: nat, i: nat, j: nat)
    requires FullRows(rows, n) && i < |rows| && j < |rows|
  {
    Compose(rows[i], rows[j]) in rows
  }

  /** Right multiplication by row j moves row i to place order[i], different rows to different places. */
  ghost predicate Rearranges(rows: seq<seq<nat>>, n: nat, j: nat, order: seq<nat>)
    requires FullRows(rows, n) && j < |rows|
  {
    && IsPermutation(order, |rows|)
    && forall i :: 0 <= i < |rows| ==> rows[order[i]] == Compose(rows[i], rows[j])
  }

  ghost predicate Rearranged(rows: seq<seq<nat>>, n: nat, j: nat)
    requires FullRows(rows, n) && j < |rows|
  {
    exists order :: Rearranges(rows, n, j, order)
  }

  /**
   The rows of a group of operations, in any order: permutations among which multiplying by each
   of them only rearranges.  Operations that act alike on the grid may share a row.
   */
  ghost predicate IsGroup(rows: seq<seq<nat>>, n: nat)
    requires FullRows(rows, n)
  {
    && (forall k :: 0 <= k < |rows| ==> IsPermutation(rows[k], n))
    && (forall j :: 0 <= j < |rows| ==> Rearranged(rows, n, j))
  }

  /** Where right multiplication by row j sends each of the first `count` rows. */
  lemma RightProducts(rows: seq<seq<nat>>, n: nat, j: nat, count: nat) returns (order: seq<nat>)
    requires FullRows(rows, n) && j < |rows| && count <= |rows|
    requires forall i :: 0 <= i < |rows| ==> HasProduct(rows, n, i, j)
    ensures |order| == count
    ensures forall i :: 0 <= i < count ==> order[i] < |rows| && rows[order[i]] == Compose(rows[i], rows[j])
  {
    order := [];
    for i := 0 to count
      invariant |order| == i
      invariant forall a :: 0 <= a < i ==> order[a] < |rows| && rows[order[a]] == Compose(rows[a], rows[j])
    {
      assert HasProduct(rows, n, i, j);
      var k :| 0 <= k < |rows| && rows[k] == Compose(rows[i], rows[j]);
      order := order + [k];
    }
  }

  /** Right multiplication cancels. */
  lemma ComposeCancels(a: seq<nat>, b: seq<nat>, row: seq<nat>, n: nat)
    requires |a| == |b| == n && IsPermutation(row, n) && Compose(a, row) == Compose(b, row)
    ensures a == b
  {
    forall p | 0 <= p < n
      ensures a[p] == b[p]
    {
      PermutationHits(row, n, p);
      var q :| 0 <= q < n && row[q] == p;
      assert Compose(a, row)[q] == Compose(b, row)[q];
    }
  }

  /** Pairwise different permutations, closed under composition, are a group. */
  lemma DistinctClosedIsGroup(rows: seq<seq<nat>>, n: nat)
    requires FullRows(rows, n) && Distinct(rows)
    requires forall k :: 0 <= k < |rows| ==> IsPermutation(rows[k], n)
    requires forall i, j {:trigger HasProduct(rows, n, i, j)} :: 0 <= i < |rows| && 0 <= j < |rows| ==> HasProduct(rows, n, i, j)
    ensures IsGroup(rows, n)
  {
    forall j | 0 <= j < |rows|
      ensures Rearranged(rows, n, j)
    {
      var order := RightProducts(rows, n, j, |rows|);
      forall a, b | 0 <= a < b < |rows|
        ensures order[a] != order[b]
      {
        if order[a] == order[b] {
          ComposeCancels(rows[a], rows[b], rows[j], n);
        }
      }
      assert Rearranges(rows, n, j, order);
    }
  }

  /** A group of rows has uniform images, so its averages are invariant and idempotent. */
  lemma GroupIsUniform(rows: seq<seq<nat>>, n: nat)
    requires FullRows(rows, n) && IsGroup(rows, n)
    ensures Uniform(rows, n)
  {
    hide IsPermutation;
    forall j, p | 0 <= j < |rows| && 0 <= p < n
      ensures multiset(Images(rows, n, rows[j][p])) == multiset(Images(rows, n, p))
    {
      assert Rearranged(rows, n, j);
      var order :| Rearranges(rows, n, j, order);
      RearrangedImages(rows, n, j, p, order);
    }
  }

  lemma RearrangedImages(rows: seq<seq<nat>>, n: nat, j: nat, p: nat, order: seq<nat>)
    requires FullRows(rows, n) && j < |rows| && p < n && Rearranges(rows, n, j, order)
    ensures rows[j][p] < n && multiset(Images(rows, n, rows[j][p])) == multiset(Images(rows, n, p))
  {
    GatherMultiset(Images(rows, n, p), order);
    assert Images(rows, n, rows[j][p]) == Gather(Images(rows, n, p), order);
  }

  /** For a group of operations the average is symmetric, stable and conserves the total. */
  lemma GroupAverage(f: seq<real>, rows: seq<seq<nat>>, j: nat)
    requires FullRows(rows, |f|) && IsGroup(rows, |f|) && j < |rows|
    ensures Invariant(Average(f, rows), rows[j])
    ensures Average(Average(f, rows), rows) == Average(f, rows)
    ensures Total(Average(f, rows)) == Total(f)
  {
    hide IsPermutation, Rearranged, Uniform, Invariant, Average;
    GroupIsUniform(rows, |f|);
    UniformAverages(f, rows, j);
    AverageIsIdempotent(f, rows);
    AverageConservesTotal(f, rows);
  }

  /**
   Closure alone is not enough: with an operation listed twice, the rows id, id, swap are
   closed under composition but their average is not symmetric.
   */
  lemma RepeatedRowBreaksSymmetry()
    ensures var rows: seq<seq<nat>> := [[0, 1], [0, 1], [1, 0]];
      && FullRows(rows, 2)
      && (forall i, j :: 0 <= i < 3 && 0 <= j < 3 ==> HasProduct(rows, 2, i, j))
      && !Invariant(Average([3.0, 0.0], rows), rows[2])
  {
    var rows: seq<seq<nat>> := [[0, 1], [0, 1], [1, 0]];
    var f := [3.0, 0.0];
    forall i, j | 0 <= i < 3 && 0 <= j < 3
      ensures HasProduct(rows, 2, i, j)
    {
      assert Compose(rows[i], rows[j]) == if i == 2 && j == 2 then rows[0] else if i == 2 || j == 2 then rows[2] else rows[0];
    }
    assert Column(f, rows, 0) == [3.0, 3.0, 0.0] && Column(f, rows, 1) == [0.0, 0.0, 3.0];
    TotalOfThree(3.0, 3.0, 0.0);
    TotalOfThree(0.0, 0.0, 3.0);
    assert Gather(Average(f, rows), rows[2])[0] == Average(f, rows)[1];
  }

  lemma TotalOfThree(a: real, b: real, c: real)
    ensures Total([a, b, c]) == a + b + c
  {
    assert [a, b, c][1..] == [b, c] && [b, c][1..] == [c];
    assert Total([c]) == c;
    assert Total([b, c]) == b + Total([c]);
  }
}
