/** Grouping nearly equal eigenvalues (`group_degenerate`) and fitting one amplitude per group. */
module DegenerateGroups {
  import opened Complex
  import opened Sequences
  import Sorting

  /** |a - b| > tol, without the square root. */
  predicate Apart(a: C, b: C, tol: real) {
    tol < 0.0 || Norm2(Sub(a, b)) > Square(tol)
  }

  /** Whatever root d of the squared distance is taken, it is compared with tol. */
  lemma ApartIsDistance(a: C, b: C, tol: real, d: real)
    requires d >= 0.0 && d * d == (a.re - b.re) * (a.re - b.re) + (a.im - b.im) * (a.im - b.im)
    ensures Apart(a, b, tol) <==> d > tol
  {
    if tol >= 0.0 {
      assert Norm2(Sub(a, b)) == Square(d);
      SquareOrder(d, tol);
    }
  }

  /** Any result of sorting by real part; ties may come in any order. */
  ghost predicate SortingOrder(lam: seq<C>, order: seq<nat>) {
    IsPermutation(order, |lam|) && Ascending(lam, order)
  }

  ghost predicate Ascending(lam: seq<C>, order: seq<nat>)
    requires InRange(order, |lam|)
  {
    forall a, b :: 0 <= a <= b < |order| ==> lam[order[a]].re <= lam[order[b]].re
  }

  /** The counter of the sweep at rank i. */
  function Sweep(lam: seq<C>, order: seq<nat>, tol: real, i: nat): (g: nat)
    requires i < |order| && InRange(order, |lam|)
  {
    if i == 0 then 0
    else Sweep(lam, order, tol, i - 1) + (if Apart(lam[order[i]], lam[order[i - 1]], tol) then 1 else 0)
  }

  /** The labels the sweep writes. */
  ghost predicate Labelled(lam: seq<C>, order: seq<nat>, tol: real, labels: seq<nat>)
    requires SortingOrder(lam, order)
  {
    |labels| == |lam| && forall i {:trigger labels[order[i]]} :: 0 <= i < |order| ==> labels[order[i]] == Sweep(lam, order, tol, i)
  }

  method GroupDegenerate(lam: seq<C>, tol: real, order: seq<nat>) returns (labels: array<nat>)
    requires SortingOrder(lam, order)
    ensures Labelled(lam, order, tol, labels[..])
  {
    hide Apart, Ascending;
    labels := new nat[|lam|];
    var g := 0;
    for i := 0 to |order|
      invariant i > 0 ==> g == Sweep(lam, order, tol, i - 1)
      invariant i == 0 ==> g == 0
      invariant forall a {:trigger labels[order[a]]} :: 0 <= a < i ==> labels[order[a]] == Sweep(lam, order, tol, a)
    {
      var j := order[i];
      assert forall a :: 0 <= a < i ==> order[a] != j;
      if i != 0 && Apart(lam[j], lam[order[i - 1]], tol) {
        g := g + 1;
      }
      labels[j] := g;
    }
  }

  // ---------------------------------------------------------------- labels and chains

  /** Entries a and b are joined by steps of at most tol. */
  ghost predicate IsChain(lam: seq<C>, tol: real, path: seq<nat>) {
    && path != []
    && (forall i :: 0 <= i < |path| ==> path[i] < |lam|)
    && (forall i :: 0 < i < |path| ==> !Apart(lam[path[i]], lam[path[i - 1]], tol))
  }

  ghost predicate Joined(lam: seq<C>, tol: real, a: nat, b: nat) {
    exists path :: IsChain(lam, tol, path) && path[0] == a && path[|path| - 1] == b
  }

  lemma {:induction false} SweepGrows(lam: seq<C>, order: seq<nat>, tol: real, i: nat, j: nat)
    requires i <= j < |order| && InRange(order, |lam|)
    ensures Sweep(lam, order, tol, i) <= Sweep(lam, order, tol, j)
    decreases j
  {
    if i < j {
      SweepGrows(lam, order, tol, i, j - 1);
    }
  }

  /** Ranks with the same counter have no gap between them. */
  lemma SameCounterNoGap(lam: seq<C>, order: seq<nat>, tol: real, i: nat, j: nat, k: nat)
    requires i < k <= j < |order| && InRange(order, |lam|)
    requires Sweep(lam, order, tol, i) == Sweep(lam, order, tol, j)
    ensures !Apart(lam[order[k]], lam[order[k - 1]], tol)
  {
    SweepGrows(lam, order, tol, i, k - 1);
    SweepGrows(lam, order, tol, k, j);
  }

  lemma RankOf(order: seq<nat>, n: nat, a: nat) returns (i: nat)
    requires IsPermutation(order, n) && a < n
    ensures i < n && order[i] == a
  {
    PermutationHits(order, n, a);
    i :| 0 <= i < n && order[i] == a;
  }

  lemma ReversedChain(lam: seq<C>, tol: real, path: seq<nat>) returns (back: seq<nat>)
    requires IsChain(lam, tol, path)
    ensures IsChain(lam, tol, back) && |back| == |path| && back[0] == path[|path| - 1] && back[|back| - 1] == path[0]
  {
    back := seq(|path|, i requires 0 <= i < |path| => path[|path| - 1 - i]);
    forall i | 0 < i < |back|
      ensures !Apart(lam[back[i]], lam[back[i - 1]], tol)
    {
      ApartSymmetric(lam[back[i]], lam[back[i - 1]], tol);
    }
  }

  lemma ApartSymmetric(a: C, b: C, tol: real)
    ensures Apart(a, b, tol) <==> Apart(b, a, tol)
  {
    var x, y := a.re - b.re, a.im - b.im;
    assert (-x) * (-x) == x * x && (-y) * (-y) == y * y;
  }

  lemma SegmentIsChain(lam: seq<C>, order: seq<nat>, tol: real, i: nat, j: nat)
    requires i <= j < |order| && InRange(order, |lam|)
    requires Sweep(lam, order, tol, i) == Sweep(lam, order, tol, j)
    ensures IsChain(lam, tol, order[i..j + 1])
  {
    hide Apart;
    var path := order[i..j + 1];
    forall k | 0 < k < |path|
      ensures !Apart(lam[path[k]], lam[path[k - 1]], tol)
    {
      SameCounterNoGap(lam, order, tol, i, j, i + k);
    }
  }

  /** Equal labels are always joined by a chain, complex eigenvalues included. */
  lemma SameLabelIsJoined(lam: seq<C>, order: seq<nat>, tol: real, labels: seq<nat>, a: nat, b: nat)
    requires SortingOrder(lam, order) && Labelled(lam, order, tol, labels)
    requires a < |lam| && b < |lam| && labels[a] == labels[b]
    ensures Joined(lam, tol, a, b)
  {
    var i := RankOf(order, |lam|, a);
    var j := RankOf(order, |lam|, b);
    assert Sweep(lam, order, tol, i) == Sweep(lam, order, tol, j);
    hide Apart, IsChain, Sweep, Distinct, SortingOrder, Labelled;
    if i <= j {
      SegmentIsChain(lam, order, tol, i, j);
    } else {
      SegmentIsChain(lam, order, tol, j, i);
      var back := ReversedChain(lam, tol, order[j..i + 1]);
    }
  }

  lemma RealDistance(a: C, b: C, tol: real)
    requires a.im == b.im
    ensures !Apart(a, b, tol) <==> -tol <= a.re - b.re <= tol
  {
    var d := a.re - b.re;
    assert Norm2(Sub(a, b)) == Square(d) by {
      assert a.im - b.im == 0.0;
    }
    if tol >= 0.0 {
      SquareOrder(d, tol);
    }
  }

  lemma SquareOrder(d: real, tol: real)
    requires tol >= 0.0
    ensures Square(d) <= Square(tol) <==> -tol <= d <= tol
  {
    var p, q := tol - d, tol + d;
    assert p * q == tol * tol - d * d;
    if p > 0.0 && q > 0.0 {
      PositiveProduct(p, q);
    } else if p < 0.0 {
      PositiveProduct(-p, q);
      assert (-p) * q == -(p * q);
    } else if q < 0.0 {
      PositiveProduct(p, -q);
      assert p * (-q) == -(p * q);
    }
  }

  /** The values at ranks i and j are within tol. */
  ghost predicate ClosePair(lam: seq<C>, order: seq<nat>, tol: real, i: nat, j: nat)
    requires i < |order| && j < |order| && InRange(order, |lam|)
  {
    !Apart(lam[order[j]], lam[order[i]], tol)
  }

  /** No pair within tol stands across a gap of the sorted order. */
  ghost predicate NoPairAcrossGap(lam: seq<C>, order: seq<nat>, tol: real)
    requires InRange(order, |lam|)
  {
    forall i, k, j :: 0 <= i < k <= j < |order| && ClosePair(lam, order, tol, i, j) ==>
      !Apart(lam[order[k]], lam[order[k - 1]], tol)
  }

  /** Ranks without a gap between them have the same counter. */
  lemma {:induction false} NoGapSameCounter(lam: seq<C>, order: seq<nat>, tol: real, i: nat, j: nat)
    requires i <= j < |order| && InRange(order, |lam|)
    requires forall k :: i < k <= j ==> !Apart(lam[order[k]], lam[order[k - 1]], tol)
    ensures Sweep(lam, order, tol, i) == Sweep(lam, order, tol, j)
    decreases j
  {
    hide Apart;
    if i < j {
      NoGapSameCounter(lam, order, tol, i, j - 1);
    }
  }

  lemma {:induction false} JoinedIsSameLabel(lam: seq<C>, order: seq<nat>, tol: real, labels: seq<nat>, path: seq<nat>)
    requires SortingOrder(lam, order) && Labelled(lam, order, tol, labels) && IsChain(lam, tol, path)
    requires NoPairAcrossGap(lam, order, tol)
    ensures labels[path[0]] == labels[path[|path| - 1]]
    decreases |path|
  {
    hide Apart;
    if |path| > 1 {
      var m := |path| - 1;
      JoinedIsSameLabel(lam, order, tol, labels, path[..m]);
      var i := RankOf(order, |lam|, path[m - 1]);
      var j := RankOf(order, |lam|, path[m]);
      ApartSymmetric(lam[path[m]], lam[path[m - 1]], tol);
      assert i <= j ==> ClosePair(lam, order, tol, i, j);
      assert j < i ==> ClosePair(lam, order, tol, j, i);
      if i <= j {
        NoGapSameCounter(lam, order, tol, i, j);
      } else {
        NoGapSameCounter(lam, order, tol, j, i);
      }
    }
  }

  /** Equal labels are exactly the joined entries. */
  ghost predicate LabelsComponents(lam: seq<C>, tol: real, labels: seq<nat>)
    requires |labels| == |lam|
  {
    forall a, b :: 0 <= a < |lam| && 0 <= b < |lam| ==> (labels[a] == labels[b] <==> Joined(lam, tol, a, b))
  }

  /** If labels are the components, a close pair has no gap between its ranks. */
  lemma ComponentsHaveNoPairAcross(lam: seq<C>, order: seq<nat>, tol: real, labels: seq<nat>, i: nat, k: nat, j: nat)
    requires SortingOrder(lam, order) && Labelled(lam, order, tol, labels) && LabelsComponents(lam, tol, labels)
    requires i < k <= j < |order| && !Apart(lam[order[j]], lam[order[i]], tol)
    ensures !Apart(lam[order[k]], lam[order[k - 1]], tol)
  {
    hide Apart, Sweep, Distinct, Ascending;
    var path := [order[i], order[j]];
    assert IsChain(lam, tol, path);
    assert Joined(lam, tol, order[i], order[j]);
    assert labels[order[i]] == labels[order[j]];
    SameCounterNoGap(lam, order, tol, i, j, k);
  }

  /**
   For complex eigenvalues in any order the labels are the connected components of steps at most
   tol exactly when no pair within tol stands across a gap of the sorted order.
   */
  lemma ComponentsIffNoPairAcrossGap(lam: seq<C>, order: seq<nat>, tol: real, labels: seq<nat>)
    requires SortingOrder(lam, order) && Labelled(lam, order, tol, labels)
    ensures LabelsComponents(lam, tol, labels) <==> NoPairAcrossGap(lam, order, tol)
  {
    hide Apart, Sweep, Joined, Distinct, Ascending, Labelled, LabelsComponents, NoPairAcrossGap;
    assert |labels| == |lam| by {
      LabelsFit(lam, order, tol, labels);
    }
    if LabelsComponents(lam, tol, labels) {
      ComponentsPartNoPair(lam, order, tol, labels);
    }
    if NoPairAcrossGap(lam, order, tol) {
      UnpartedAreComponents(lam, order, tol, labels);
    }
  }

  lemma LabelsFit(lam: seq<C>, order: seq<nat>, tol: real, labels: seq<nat>)
    requires SortingOrder(lam, order) && Labelled(lam, order, tol, labels)
    ensures |labels| == |lam|
  {
  }

  lemma ComponentsPartNoPair(lam: seq<C>, order: seq<nat>, tol: real, labels: seq<nat>)
    requires SortingOrder(lam, order) && Labelled(lam, order, tol, labels) && LabelsComponents(lam, tol, labels)
    ensures NoPairAcrossGap(lam, order, tol)
  {
    hide Apart, Sweep, Labelled, LabelsComponents, Ascending, Distinct;
    forall i, k, j | 0 <= i < k <= j < |order| && ClosePair(lam, order, tol, i, j)
      ensures !Apart(lam[order[k]], lam[order[k - 1]], tol)
    {
      ComponentsHaveNoPairAcross(lam, order, tol, labels, i, k, j);
    }
  }

  lemma UnpartedAreComponents(lam: seq<C>, order: seq<nat>, tol: real, labels: seq<nat>)
    requires SortingOrder(lam, order) && Labelled(lam, order, tol, labels) && NoPairAcrossGap(lam, order, tol)
    ensures LabelsComponents(lam, tol, labels)
  {
    hide SortingOrder, NoPairAcrossGap, Joined;
    forall a, b | 0 <= a < |lam| && 0 <= b < |lam|
      ensures labels[a] == labels[b] <==> Joined(lam, tol, a, b)
    {
      SameLabelIffJoined(lam, order, tol, labels, a, b);
    }
  }

  lemma SameLabelIffJoined(lam: seq<C>, order: seq<nat>, tol: real, labels: seq<nat>, a: nat, b: nat)
    requires SortingOrder(lam, order) && Labelled(lam, order, tol, labels) && NoPairAcrossGap(lam, order, tol)
    requires a < |lam| && b < |lam|
    ensures labels[a] == labels[b] <==> Joined(lam, tol, a, b)
  {
    hide Apart, Sweep, SortingOrder, NoPairAcrossGap;
    if labels[a] == labels[b] {
      SameLabelIsJoined(lam, order, tol, labels, a, b);
    }
    if Joined(lam, tol, a, b) {
      var path :| IsChain(lam, tol, path) && path[0] == a && path[|path| - 1] == b;
      JoinedIsSameLabel(lam, order, tol, labels, path);
    }
  }

  /** On one horizontal line a close pair has only close pairs between its ranks. */
  lemma LineHasNoPairAcross(lam: seq<C>, order: seq<nat>, tol: real, i: nat, k: nat, j: nat)
    requires SortingOrder(lam, order) && i < k <= j < |order|
    requires forall c :: 0 <= c < |lam| ==> lam[c].im == lam[0].im
    requires !Apart(lam[order[j]], lam[order[i]], tol)
    ensures !Apart(lam[order[k]], lam[order[k - 1]], tol)
  {
    hide Apart;
    RealDistance(lam[order[j]], lam[order[i]], tol);
    RealDistance(lam[order[k]], lam[order[k - 1]], tol);
  }

  /** In particular for real eigenvalues the labels are always the components. */
  lemma LabelsAreComponents(lam: seq<C>, order: seq<nat>, tol: real, labels: seq<nat>)
    requires SortingOrder(lam, order) && Labelled(lam, order, tol, labels)
    requires forall c :: 0 <= c < |lam| ==> lam[c].im == lam[0].im
    ensures LabelsComponents(lam, tol, labels)
  {
    hide LabelsComponents, Apart, Distinct, Ascending;
    forall i, k, j | 0 <= i < k <= j < |order| && !Apart(lam[order[j]], lam[order[i]], tol)
      ensures !Apart(lam[order[k]], lam[order[k - 1]], tol)
    {
      LineHasNoPairAcross(lam, order, tol, i, k, j);
    }
    ComponentsIffNoPairAcrossGap(lam, order, tol, labels);
  }

  /**
   Sorting by real part alone misses joins of complex eigenvalues: a third value far off the
   axis between two close ones parts them.
   */
  lemma OffAxisValueParts(lam: seq<C>, order: seq<nat>, labels: seq<nat>)
    requires lam == [C(0.0, 0.0), C(1.0, 10.0), C(2.0, 0.0)] && order == [0, 1, 2]
    requires SortingOrder(lam, order) && Labelled(lam, order, 2.0, labels)
    ensures Joined(lam, 2.0, 0, 2) && labels[0] != labels[2]
  {
    assert lam[order[0]] == C(0.0, 0.0) && lam[order[1]] == C(1.0, 10.0) && lam[order[2]] == C(2.0, 0.0);
    RealDistance(lam[2], lam[0], 2.0);
    FarOffAxis(1.0, 0.0, 0.0);
    PartedBy(lam, order, 2.0, labels);
  }

  lemma PartedBy(lam: seq<C>, order: seq<nat>, tol: real, labels: seq<nat>)
    requires |lam| == |order| == 3 && order[0] == 0 && order[2] == 2
    requires SortingOrder(lam, order) && Labelled(lam, order, tol, labels)
    requires !Apart(lam[2], lam[0], tol) && Apart(lam[order[1]], lam[order[0]], tol)
    ensures Joined(lam, tol, 0, 2) && labels[0] != labels[2]
  {
    hide Apart, Distinct, Ascending;
    var path: seq<nat> := [0, 2];
    assert IsChain(lam, tol, path);
    assert labels[order[0]] == Sweep(lam, order, tol, 0);
    assert labels[order[2]] == Sweep(lam, order, tol, 2);
    SweepGrows(lam, order, tol, 1, 2);
  }

  lemma FarOffAxis(x: real, y: real, im: real)
    requires im == 0.0
    ensures Apart(C(x, 10.0), C(y, im), 2.0)
  {
    SquareSign(x - y);
    assert Square(10.0) == 100.0 && Square(2.0) == 4.0;
    assert Norm2(C(x - y, 10.0)) == Square(x - y) + Square(10.0);
  }

  lemma CounterHits(lam: seq<C>, order: seq<nat>, tol: real, i: nat, g: nat) returns (k: nat)
    requires i < |order| && InRange(order, |lam|)
    requires g <= Sweep(lam, order, tol, i)
    ensures k <= i && Sweep(lam, order, tol, k) == g
  {
    k := i;
    while Sweep(lam, order, tol, k) != g
      invariant k <= i && g <= Sweep(lam, order, tol, k)
      decreases k
    {
      k := k - 1;
    }
  }

  /** Every list has a sorting order: the stable one, for instance. */
  lemma OrderExists(lam: seq<C>) returns (order: seq<nat>)
    ensures SortingOrder(lam, order)
  {
    var keys := seq(|lam|, i requires 0 <= i < |lam| => lam[i].re);
    order := Sorting.ArgSort(keys);
    assert Sorting.Ranked(keys, order);
    forall a, b | 0 <= a < b < |order|
      ensures order[a] != order[b] && lam[order[a]].re <= lam[order[b]].re
    {
      assert keys[order[a]] <= keys[order[b]];
    }
  }

  /** Groups are numbered by real part: a lower label means a real part that is not above. */
  lemma LabelsFollowRealParts(lam: seq<C>, order: seq<nat>, tol: real, labels: seq<nat>, a: nat, b: nat)
    requires SortingOrder(lam, order) && Labelled(lam, order, tol, labels)
    requires a < |lam| && b < |lam| && labels[a] < labels[b]
    ensures lam[a].re <= lam[b].re
  {
    hide Apart;
    var i := RankOf(order, |lam|, a);
    var j := RankOf(order, |lam|, b);
    assert labels[order[i]] == labels[a] && labels[order[j]] == labels[b];
    if j <= i {
      SweepGrows(lam, order, tol, j, i);
    }
  }

  /** The labels are exactly 0 .. max: none is skipped. */
  lemma LabelsHaveNoGap(lam: seq<C>, order: seq<nat>, tol: real, labels: seq<nat>, a: nat, g: nat)
    requires SortingOrder(lam, order) && Labelled(lam, order, tol, labels)
    requires a < |lam| && g <= labels[a]
    ensures g in labels
  {
    var i := RankOf(order, |lam|, a);
    var k := CounterHits(lam, order, tol, i, g);
    assert labels[order[k]] == g;
  }

  // ---------------------------------------------------------------- amplitudes

  function Count(labels: seq<nat>, g: nat): nat {
    if labels == [] then 0 else (if labels[0] == g then 1 else 0) + Count(labels[1..], g)
  }

  lemma {:induction false} CountPositive(labels: seq<nat>, g: nat)
    ensures Count(labels, g) > 0 <==> g in labels
  {
    if labels != [] {
      CountPositive(labels[1..], g);
      assert labels == [labels[0]] + labels[1..];
    }
  }

  /** Each member gets an equal share of its group's fitted amplitude. */
  function Amplitudes(sol: seq<C>, labels: seq<nat>): (a: seq<C>)
    requires forall s :: 0 <= s < |labels| ==> labels[s] < |sol|
    ensures |a| == |labels|
  {
    seq(|labels|, s requires 0 <= s < |labels| =>
      CountPositive(labels, labels[s]);
      Share(Count(labels, labels[s]), sol[labels[s]]))
  }

  /** The amplitudes of one group's members, added up. */
  function GroupTotal(a: seq<C>, labels: seq<nat>, g: nat): C
    requires |a| == |labels|
  {
    if a == [] then ZERO
    else Add(if labels[0] == g then a[0] else ZERO, GroupTotal(a[1..], labels[1..], g))
  }

  lemma {:induction false} EqualShares(a: seq<C>, labels: seq<nat>, g: nat, share: C)
    requires |a| == |labels| && forall s :: 0 <= s < |a| && labels[s] == g ==> a[s] == share
    ensures GroupTotal(a, labels, g) == Multiple(Count(labels, g), share)
  {
    hide Multiple;
    MultipleOneMore(if a == [] then 0 else Count(labels[1..], g), share);
    if a != [] {
      EqualShares(a[1..], labels[1..], g, share);
      assert Add(ZERO, GroupTotal(a[1..], labels[1..], g)) == GroupTotal(a[1..], labels[1..], g);
    }
  }

  function Multiple(n: nat, c: C): C { Scale(n as real, c) }

  lemma MultipleOneMore(n: nat, c: C)
    ensures Multiple(n + 1, c) == Add(c, Multiple(n, c))
    ensures Multiple(0, c) == ZERO
  {
  }

  function Share(n: nat, c: C): C
    requires n > 0
  {
    Scale(1.0 / (n as real), c)
  }

  lemma SharesMakeWhole(n: nat, c: C)
    requires n > 0
    ensures Multiple(n, Share(n, c)) == c
  {
    var r := n as real;
    assert r * ((1.0 / r) * c.re) == c.re;
    assert r * ((1.0 / r) * c.im) == c.im;
  }

  /** The members of a group share its fitted amplitude completely and equally. */
  lemma SharesAddUp(sol: seq<C>, labels: seq<nat>, g: nat)
    requires forall s :: 0 <= s < |labels| ==> labels[s] < |sol|
    requires g in labels
    ensures g < |sol| && GroupTotal(Amplitudes(sol, labels), labels, g) == sol[g]
    ensures forall a, b :: 0 <= a < |labels| && 0 <= b < |labels| && labels[a] == labels[b] ==>
      Amplitudes(sol, labels)[a] == Amplitudes(sol, labels)[b]
  {
    hide Share, Multiple, Count, GroupTotal;
    CountPositive(labels, g);
    var n := Count(labels, g);
    assert g < |sol|;
    EqualShares(Amplitudes(sol, labels), labels, g, Share(n, sol[g]));
    SharesMakeWhole(n, sol[g]);
  }

  /** The labels `fit_fixed_frequencies` uses: grouped for a positive tolerance, else all separate. */
  method FitLabels(lam: seq<C>, tol: real, order: seq<nat>) returns (labels: seq<nat>)
    requires SortingOrder(lam, order)
    ensures tol > 0.0 ==> Labelled(lam, order, tol, labels)
    ensures tol <= 0.0 ==> |labels| == |lam| && Distinct(labels) && forall s :: 0 <= s < |lam| ==> labels[s] < |lam|
  {
    if tol > 0.0 {
      var grouped := GroupDegenerate(lam, tol, order);
      labels := grouped[..];
    } else {
      labels := seq(|lam|, i => i);
    }
  }
}
