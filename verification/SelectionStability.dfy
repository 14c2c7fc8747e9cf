/**
 The selection under changed characters: a change within half the numerical floor only exchanges
 candidates of the tied cluster, so an accepted point's energies move by at most the multiplet tolerance.
 */
module SelectionStability {
  import opened ActiveSelection
  import opened Sequences
  import opened Sorting

  /** Characters that differ by no more than half of the floor of the first. */
  ghost predicate WithinFloor(scores: seq<real>, other: seq<real>) {
    && scores != [] && |other| == |scores|
    && forall i :: 0 <= i < |scores| ==> Abs(other[i] - scores[i]) <= ScoreTol(scores) / 2.0
  }

  /** Ranks on two sides of a missing link keep their order when the characters change that little. */
  lemma GapKeepsOrder(scores: seq<real>, other: seq<real>, order: seq<nat>, a: nat, c: nat, b: nat)
    requires WithinFloor(scores, other) && StableOrder(Negated(scores), order) && a <= c < b < |order|
    requires order[c] < |scores| && order[c + 1] < |scores|
    requires scores[order[c]] - scores[order[c + 1]] > ScoreTol(scores)
    ensures order[a] < |scores| && order[b] < |scores| && other[order[a]] > other[order[b]]
  {
    hide ScoreTol;
    assert Negated(scores)[order[a]] <= Negated(scores)[order[c]];
    assert Negated(scores)[order[c + 1]] <= Negated(scores)[order[b]];
    assert Abs(other[order[a]] - scores[order[a]]) <= ScoreTol(scores) / 2.0;
    assert Abs(other[order[b]] - scores[order[b]]) <= ScoreTol(scores) / 2.0;
  }

  /** The ranks before `from` and after `to` stand apart from those in between. */
  ghost predicate Apart(scores: seq<real>, order: seq<nat>, from: nat, to: nat)
    requires |order| == |scores| && forall r :: 0 <= r < |order| ==> order[r] < |scores|
  {
    && scores != [] && from <= |order| && to <= |order|
    && (0 < from < |order| ==> scores[order[from - 1]] - scores[order[from]] > ScoreTol(scores))
    && (0 < to < |order| ==> scores[order[to - 1]] - scores[order[to]] > ScoreTol(scores))
  }

  lemma LinkIsGap(scores: seq<real>, order: seq<nat>, tol: real, c: nat)
    requires scores != [] && |order| == |scores| && (forall r :: 0 <= r < |order| ==> order[r] < |scores|)
    requires c + 1 < |order|
    ensures !Links(Gather(scores, order), tol)[c] <==> scores[order[c]] - scores[order[c + 1]] > tol
  {
  }

  lemma RunIsApart(scores: seq<real>, order: seq<nat>, from: nat, to: nat)
    requires scores != [] && |order| == |scores| && (forall r :: 0 <= r < |order| ==> order[r] < |scores|)
    requires var links := Links(Gather(scores, order), ScoreTol(scores));
      from <= |links| && to <= |links| && (from > 0 ==> !links[from - 1]) && (to < |links| ==> !links[to])
    ensures Apart(scores, order, from, to + 1)
  {
    hide Links, Gather, ScoreTol;
    if from > 0 {
      LinkIsGap(scores, order, ScoreTol(scores), from - 1);
    }
    if to + 1 < |order| {
      LinkIsGap(scores, order, ScoreTol(scores), to);
    }
  }

  /** The ranks from `from` up to `to` are the cluster. */
  ghost predicate IsCluster(s: Selection, from: nat, to: nat)
    requires |s.clusterMask| == |s.byCharacter|
  {
    to <= |s.clusterMask| && forall r :: 0 <= r < |s.clusterMask| ==> (s.clusterMask[r] <==> from <= r < to)
  }

  lemma RunEnds(links: seq<bool>, nActive: nat)
    requires 0 < nActive <= |links|
    ensures var from, to := RunStart(links, nActive - 1), RunEnd(links, nActive);
      from < nActive <= to <= |links| && (from > 0 ==> !links[from - 1]) && (to < |links| ==> !links[to])
  {
  }

  function LinksOf(s: Selection, scores: seq<real>): seq<bool>
    requires scores != [] && |s.byCharacter| == |scores| && forall r :: 0 <= r < |scores| ==> s.byCharacter[r] < |scores|
  {
    Links(Gather(scores, s.byCharacter), s.scoreTol)
  }

  lemma TiedMask(values: seq<real>, scores: seq<real>, nActive: nat, nReturn: nat)
    requires |values| == |scores| && 0 < nReturn <= nActive < |values|
    requires var s := Select(values, scores, nActive, nReturn); s.scoreGap <= s.scoreTol
    ensures var s := Select(values, scores, nActive, nReturn);
      (forall r :: 0 <= r < |values| ==> s.byCharacter[r] < |values|) && |LinksOf(s, scores)| == |scores| - 1
      && IsCluster(s, RunStart(LinksOf(s, scores), nActive - 1), RunEnd(LinksOf(s, scores), nActive) + 1)
  {
    hide ScoreTol, ClusterMask, Select, Gather, Links, RunStart, RunEnd;
    SelectionFacts(values, scores, nActive, nReturn);
    ClusterIsMaximalRun(values, scores, nActive, nReturn);
  }

  lemma TiedApart(s: Selection, scores: seq<real>, nActive: nat)
    requires scores != [] && |s.byCharacter| == |scores| && (forall r :: 0 <= r < |scores| ==> s.byCharacter[r] < |scores|)
    requires s.scoreTol == ScoreTol(scores) && 0 < nActive < |scores|
    ensures |LinksOf(s, scores)| == |scores| - 1
    ensures var from, to := RunStart(LinksOf(s, scores), nActive - 1), RunEnd(LinksOf(s, scores), nActive) + 1;
      from <= nActive <= to && Apart(scores, s.byCharacter, from, to)
  {
    hide ScoreTol, RunStart, RunEnd, Apart, Links, Gather;
    var links := LinksOf(s, scores);
    RunEnds(links, nActive);
    hide LinksOf;
    RunIsApart(scores, s.byCharacter, RunStart(links, nActive - 1), RunEnd(links, nActive));
  }

  lemma TiedRange(values: seq<real>, scores: seq<real>, nActive: nat, nReturn: nat) returns (from: nat, to: nat)
    requires |values| == |scores| && 0 < nReturn <= nActive < |values|
    requires var s := Select(values, scores, nActive, nReturn); s.scoreGap <= s.scoreTol
    ensures var s := Select(values, scores, nActive, nReturn);
      from <= nActive <= to && IsCluster(s, from, to)
      && (forall r :: 0 <= r < |values| ==> s.byCharacter[r] < |values|) && Apart(scores, s.byCharacter, from, to)
  {
    hide *;
    var s := Select(values, scores, nActive, nReturn);
    SelectIs(values, scores, nActive, nReturn);
    TiedMask(values, scores, nActive, nReturn);
    TiedApart(s, scores, nActive);
    from, to := RunStart(LinksOf(s, scores), nActive - 1), RunEnd(LinksOf(s, scores), nActive) + 1;
  }

  /** The tied cluster as a range of ranks, empty at the boundary if that is resolved. */
  lemma ClusterRange(values: seq<real>, scores: seq<real>, nActive: nat, nReturn: nat) returns (from: nat, to: nat)
    requires |values| == |scores| && 0 < nReturn <= nActive < |values|
    ensures var s := Select(values, scores, nActive, nReturn);
      from <= nActive <= to && IsCluster(s, from, to)
      && (forall r :: 0 <= r < |values| ==> s.byCharacter[r] < |values|) && Apart(scores, s.byCharacter, from, to)
  {
    var s := Select(values, scores, nActive, nReturn);
    hide ArgSort, ScoreTol, ClusterMask, Select, Gather, StableOrder, Distinct, Ascending, Min, Ids, Links, RunStart, RunEnd, Apart;
    if s.scoreGap <= s.scoreTol {
      from, to := TiedRange(values, scores, nActive, nReturn);
    } else {
      SelectionFacts(values, scores, nActive, nReturn);
      OrderFacts(values, scores, nActive, nReturn);
      SelectIs(values, scores, nActive, nReturn);
      ClusterIsMaximalRun(values, scores, nActive, nReturn);
      from, to := nActive, nActive;
      BoundaryIsApart(scores, s.byCharacter, nActive);
    }
  }

  lemma BoundaryIsApart(scores: seq<real>, order: seq<nat>, n: nat)
    requires scores != [] && |order| == |scores| && (forall r :: 0 <= r < |order| ==> order[r] < |scores|)
    requires 0 < n < |order| && scores[order[n - 1]] - scores[order[n]] > ScoreTol(scores)
    ensures Apart(scores, order, n, n)
  {
  }

  lemma SelectIs(values: seq<real>, scores: seq<real>, nActive: nat, nReturn: nat)
    requires |values| == |scores| && 0 < nReturn <= nActive < |values|
    ensures Select(values, scores, nActive, nReturn).scoreTol == ScoreTol(scores)
  {
    hide ArgSort, ScoreTol, ClusterMask, Links, Gather, Min;
  }

  /** No candidate left out has more of the other character than one taken. */
  ghost predicate Takes(other: seq<real>, taken: seq<nat>) {
    && Distinct(taken) && (forall a :: 0 <= a < |taken| ==> taken[a] < |other|)
    && forall j: nat, k: nat :: j in taken && k !in taken && k < |other| ==> other[j] >= other[k]
  }

  lemma PrefixIds(order: seq<nat>, n: nat)
    requires Distinct(order) && n <= |order|
    ensures |Ids(order[..n])| == n
    ensures forall j :: j in Ids(order[..n]) <==> exists r :: 0 <= r < n && order[r] == j
  {
    SetOfDistinct(order[..n]);
    forall j
      ensures j in Ids(order[..n]) <==> exists r :: 0 <= r < n && order[r] == j
    {
      if r :| 0 <= r < n && order[r] == j {
        assert order[..n][r] == j;
      }
    }
  }

  lemma RankOfId(keys: seq<real>, order: seq<nat>, j: nat) returns (q: nat)
    requires StableOrder(keys, order) && j < |keys|
    ensures q < |order| && order[q] == j
  {
    assert j in order;
    q :| 0 <= q < |order| && order[q] == j;
  }

  lemma FewerIds(a: set<nat>, b: set<nat>, x: nat)
    requires a <= b - {x} && x in b
    ensures |a| < |b|
  {
    SubsetCard(a, b - {x});
  }

  /** Ranks before the cluster are taken again. */
  lemma HeadIsTaken(scores: seq<real>, other: seq<real>, order: seq<nat>, from: nat, to: nat, taken: seq<nat>, r: nat)
    requires WithinFloor(scores, other) && StableOrder(Negated(scores), order) && Distinct(order)
    requires (forall q :: 0 <= q < |order| ==> order[q] < |scores|) && Apart(scores, order, from, to)
    requires Takes(other, taken) && from <= |taken| && r < from
    ensures order[r] in taken
  {
    hide ScoreTol, StableOrder, Distinct;
    var head := Ids(order[..from]);
    PrefixIds(order, from);
    assert order[r] in head;
    SetOfDistinct(taken);
    if order[r] !in taken {
      forall j | j in Ids(taken)
        ensures j in head - {order[r]}
      {
        assert j < |other| && other[j] >= other[order[r]];
        var q := RankOfId(Negated(scores), order, j);
        if q >= from {
          GapKeepsOrder(scores, other, order, r, from - 1, q);
        }
      }
      FewerIds(Ids(taken), head, order[r]);
    }
  }

  /** Ranks behind the cluster are left out again. */
  lemma TailIsLeft(scores: seq<real>, other: seq<real>, order: seq<nat>, from: nat, to: nat, taken: seq<nat>, q: nat)
    requires WithinFloor(scores, other) && StableOrder(Negated(scores), order) && Distinct(order)
    requires (forall p :: 0 <= p < |order| ==> order[p] < |scores|) && Apart(scores, order, from, to)
    requires Takes(other, taken) && |taken| <= to <= q < |order| && 0 < to
    ensures order[q] !in taken
  {
    var head := Ids(order[..to]);
    PrefixIds(order, to);
    assert order[q] !in head;
    SetOfDistinct(taken);
    hide Negated, ScoreTol, StableOrder, Distinct, Ids;
    if order[q] in taken {
      forall j | j in head
        ensures j in Ids(taken) - {order[q]}
      {
        var p :| 0 <= p < to && order[p] == j;
        GapKeepsOrder(scores, other, order, p, to - 1, q);
        TakenIsAbove(other, taken, order[q], j);
      }
      TakenIds(taken, order[q]);
      FewerIds(head, Ids(taken), order[q]);
    }
  }

  lemma TakenIds(taken: seq<nat>, x: nat)
    requires x in taken && Distinct(taken)
    ensures x in Ids(taken) && |Ids(taken)| == |taken|
  {
    SetOfDistinct(taken);
  }

  lemma TakenIsAbove(other: seq<real>, taken: seq<nat>, j: nat, k: nat)
    requires Takes(other, taken) && j in taken && j < |other| && k < |other| && other[k] > other[j]
    ensures k in Ids(taken)
  {
  }

  lemma SelectionTakes(values: seq<real>, scores: seq<real>, nActive: nat, nReturn: nat)
    requires |values| == |scores| && 0 < nReturn <= nActive < |values|
    ensures Takes(scores, Select(values, scores, nActive, nReturn).selected)
  {
    hide Select, Distinct;
    var s := Select(values, scores, nActive, nReturn);
    SelectionFacts(values, scores, nActive, nReturn);
    forall j: nat, k: nat | j in s.selected && k !in s.selected && k < |scores|
      ensures scores[j] >= scores[k]
    {
      SelectedHasMostCharacter(values, scores, nActive, nReturn, j, k);
    }
  }

  /** Characters changed within the floor select an alternative of the first selection. */
  lemma NearSelectionIsAlternative(values: seq<real>, scores: seq<real>, other: seq<real>, nActive: nat, nReturn: nat)
    requires |values| == |scores| && 0 < nReturn <= nActive < |values| && WithinFloor(scores, other)
    ensures |other| == |scores|
    ensures Alternative(Select(values, scores, nActive, nReturn), nActive, Select(values, other, nActive, nReturn).selected)
  {
    hide Select, Distinct, StableOrder, WithinFloor, Apart, Takes, Ascending;
    OtherLength(scores, other);
    var s, taken := Select(values, scores, nActive, nReturn), Select(values, other, nActive, nReturn).selected;
    SelectionFacts(values, scores, nActive, nReturn);
    SelectionFacts(values, other, nActive, nReturn);
    OrderFacts(values, scores, nActive, nReturn);
    SelectionTakes(values, other, nActive, nReturn);
    var from, to := ClusterRange(values, scores, nActive, nReturn);
    forall r | 0 <= r < nActive && !s.clusterMask[r]
      ensures s.byCharacter[r] in taken
    {
      HeadIsTaken(scores, other, s.byCharacter, from, to, taken, r);
    }
    forall a | 0 <= a < nActive
      ensures exists r :: 0 <= r < |s.byCharacter| && s.byCharacter[r] == taken[a] && (r < nActive || s.clusterMask[r])
    {
      assert taken[a] in s.byCharacter;
      var q :| 0 <= q < |s.byCharacter| && s.byCharacter[q] == taken[a];
      if q >= to {
        TailIsLeft(scores, other, s.byCharacter, from, to, taken, q);
      }
    }
  }

  lemma OtherLength(scores: seq<real>, other: seq<real>)
    requires WithinFloor(scores, other)
    ensures |other| == |scores|
  {
  }

  /**
   On an accepted point the published energies move by at most the multiplet tolerance, entry by
   entry, when the characters change by no more than half of their numerical floor.
   */
  lemma AcceptedIsStable(values: seq<real>, scores: seq<real>, other: seq<real>, nActive: nat, nReturn: nat,
                         inverse: real -> real, i: nat)
    requires |values| == |scores| && 0 < nReturn <= nActive < |values| && i < nReturn && WithinFloor(scores, other)
    requires !Unsafe(Select(values, scores, nActive, nReturn), inverse)
    ensures |other| == |scores|
    ensures var before := Published(Select(values, scores, nActive, nReturn), inverse, nReturn);
      var after := Published(Select(values, other, nActive, nReturn), inverse, nReturn);
      -DEGENERACY_TOL <= after[i] - before[i] <= DEGENERACY_TOL
  {
    OtherLength(scores, other);
    NearSelectionIsAlternative(values, scores, other, nActive, nReturn);
    hide Select, Sorted, Unsafe, Alternative, WithinFloor, Ascending, Distinct, Ids, Gather, Mapped;
    var taken := Select(values, other, nActive, nReturn);
    SelectionFacts(values, other, nActive, nReturn);
    AcceptedIsIndependentOfTies(values, scores, nActive, nReturn, inverse, taken.selected, i);
  }
}
