/**
 Selecting the active eigenpairs of one q point by character (`select_active_eigenpairs`),
 the diagnostics after the Newton inverse (`_post_active_kpath`) and the refusal of an
 underdetermined boundary in `h_transform`.
 */
module ActiveSelection {
  import opened Sequences
  import opened Sorting
  import opened Wrappers

  /** Spacing of double-precision numbers at one. */
  const EPS := 1.0 / 4503599627370496.0

  const EV_PER_RY := 13.6056980659

  /** The multiplet tolerance, 1 meV in Rydberg. */
  const DEGENERACY_TOL := 0.001 / EV_PER_RY

  datatype Refusal = BadPhysicalCount | BadActiveCount | BadReturnCount

  /** What one q point hands on; positions are candidate (eigenpair) indices. */
  datatype Selection = Selection(
    byCharacter: seq<nat>,
    selected: seq<nat>,
    values: seq<real>,
    scoreGap: real,
    scoreTol: real,
    clusterValues: seq<real>,
    clusterMask: seq<bool>,
    minNonreturned: real)

  function Negated(s: seq<real>): (r: seq<real>)
    ensures |r| == |s| && forall i :: 0 <= i < |s| ==> r[i] == -s[i]
  {
    seq(|s|, i requires 0 <= i < |s| => -s[i])
  }

  function Abs(x: real): real { if x < 0.0 then -x else x }

  function MaxAbs(s: seq<real>): real
    requires s != []
  {
    if |s| == 1 then Abs(s[0])
    else
      var m := MaxAbs(s[1..]);
      if Abs(s[0]) >= m then Abs(s[0]) else m
  }

  function Min(s: seq<real>): (m: real)
    requires s != []
    ensures m in s && forall i :: 0 <= i < |s| ==> m <= s[i]
  {
    if |s| == 1 then s[0]
    else
      var m := Min(s[1..]);
      if s[0] <= m then s[0] else m
  }

  /** The numerical floor of the character gap. */
  function ScoreTol(scores: seq<real>): real
    requires scores != []
  {
    64.0 * EPS * (|scores| as real) * (if MaxAbs(scores) > 1.0 then MaxAbs(scores) else 1.0)
  }

  /** Neighbours in character order that the floor cannot tell apart. */
  function Links(scores: seq<real>, tol: real): (links: seq<bool>)
    requires scores != []
    ensures |links| == |scores| - 1
    ensures forall j {:trigger links[j]} :: 0 <= j < |links| ==> (links[j] <==> scores[j] - scores[j + 1] <= tol)
  {
    seq(|scores| - 1, j requires 0 <= j < |scores| - 1 => scores[j] - scores[j + 1] <= tol)
  }

  /** The cumulative product of truth values. */
  function CumProd(s: seq<bool>): (r: seq<bool>)
    ensures |r| == |s|
    ensures forall i :: 0 <= i < |s| ==> (r[i] <==> forall j :: 0 <= j <= i ==> s[j])
  {
    if s == [] then []
    else
      var n := |s| - 1;
      var r := CumProd(s[..n]);
      r + [(n == 0 || r[n - 1]) && s[n]]
  }

  function Flip(s: seq<bool>): (r: seq<bool>)
    ensures |r| == |s| && forall i :: 0 <= i < |s| ==> r[i] == s[|s| - 1 - i]
  {
    seq(|s|, i requires 0 <= i < |s| => s[|s| - 1 - i])
  }

  /** The complete tied cluster across the selection boundary, by cumulative products. */
  function ClusterMask(links: seq<bool>, nActive: nat): (mask: seq<bool>)
    requires 0 < nActive <= |links|
    ensures |mask| == |links| + 1
  {
    var left := Flip(CumProd(Flip(links[..nActive - 1]))) + [true];
    var right := [true] + CumProd(links[nActive..]);
    var connected := left + right;
    seq(|connected|, i requires 0 <= i < |connected| => connected[i] && links[nActive - 1])
  }

  /** The selection once the counts are legal. */
  function Select(values: seq<real>, scores: seq<real>, nActive: nat, nReturn: nat): (s: Selection)
    requires |values| == |scores| && 0 < nReturn <= nActive < |values|
    ensures |s.byCharacter| == |s.clusterValues| == |s.clusterMask| == |values|
    ensures |s.selected| == |s.values| == nActive
  {
    var byCharacter := ArgSort(Negated(scores));
    assert forall a :: 0 <= a < |byCharacter| ==> byCharacter[a] in byCharacter;
    var chosen := byCharacter[..nActive];
    var byEnergy := ArgSort(Gather(values, chosen));
    var selected := Gather(chosen, byEnergy);
    var selectedValues := Gather(Gather(values, chosen), byEnergy);
    var rejectedValues := Gather(values, byCharacter[nActive..]);
    var characterScores := Gather(scores, byCharacter);
    var tol := ScoreTol(scores);
    Selection(byCharacter, selected, selectedValues,
              characterScores[nActive - 1] - characterScores[nActive], tol,
              Gather(values, byCharacter),
              ClusterMask(Links(characterScores, tol), nActive),
              Min(selectedValues[nReturn..] + rejectedValues))
  }

  /** Candidates beyond `nPhysical` are dropped before ranking; illegal counts are refused. */
  function SelectActive(values: seq<real>, characters: seq<real>, nActive: int, nPhysical: Option<int>,
                        nReturn: Option<int>): (r: Result<Selection, Refusal>)
    requires |values| == |characters|
  {
    var total := if nPhysical.Some? then nPhysical.value else |values|;
    if !(0 < total <= |values|) then Failure(BadPhysicalCount)
    else if !(0 < nActive < total) then Failure(BadActiveCount)
    else
      var keep := if nReturn.Some? then nReturn.value else nActive;
      if !(0 < keep <= nActive) then Failure(BadReturnCount)
      else Success(Select(values[..total], characters[..total], nActive, keep))
  }

  // ---------------------------------------------------------------- the cluster

  /** Ranks i and the boundary are joined by links without a gap. */
  ghost predicate Joined(links: seq<bool>, nActive: nat, i: nat)
    requires 0 < nActive <= |links| && i <= |links|
  {
    && links[nActive - 1]
    && (forall j :: i <= j < nActive - 1 ==> links[j])
    && (forall j :: nActive <= j < i ==> links[j])
  }

  lemma MaskIsJoined(links: seq<bool>, nActive: nat, i: nat)
    requires 0 < nActive <= |links| && i <= |links|
    ensures ClusterMask(links, nActive)[i] <==> Joined(links, nActive, i)
  {
    var left, right := links[..nActive - 1], links[nActive..];
    if i < nActive - 1 {
      var f := Flip(left);
      var k := nActive - 2 - i;
      assert ClusterMask(links, nActive)[i] == (CumProd(f)[k] && links[nActive - 1]);
      forall j | i <= j < nActive - 1
        ensures left[j] == f[nActive - 2 - j] == links[j]
      {
      }
      assert CumProd(f)[k] <==> forall j :: i <= j < nActive - 1 ==> links[j] by {
        if CumProd(f)[k] {
          forall j | i <= j < nActive - 1
            ensures links[j]
          {
            assert f[nActive - 2 - j];
          }
        }
      }
    } else if i > nActive {
      var k := i - nActive - 1;
      assert ClusterMask(links, nActive)[i] == (CumProd(right)[k] && links[nActive - 1]);
      assert CumProd(right)[k] <==> forall j :: nActive <= j < i ==> links[j] by {
        if CumProd(right)[k] {
          forall j | nActive <= j < i
            ensures links[j]
          {
            assert right[j - nActive];
          }
        }
      }
    }
  }

  /** The first rank of the linked run ending at `last`. */
  function RunStart(links: seq<bool>, last: nat): (lo: nat)
    requires last <= |links|
    ensures lo <= last && (forall j :: lo <= j < last ==> links[j]) && (lo > 0 ==> !links[lo - 1])
  {
    if last == 0 || !links[last - 1] then last else RunStart(links, last - 1)
  }

  function RunEnd(links: seq<bool>, first: nat): (hi: nat)
    requires first <= |links|
    ensures first <= hi <= |links| && (forall j :: first <= j < hi ==> links[j]) && (hi < |links| ==> !links[hi])
    decreases |links| - first
  {
    if first == |links| || !links[first] then first else RunEnd(links, first + 1)
  }

  /**
   The cluster is the maximal contiguous run of linked ranks that holds both sides of the
   boundary, and it is empty exactly when the boundary itself is resolved.
   */
  lemma ClusterIsMaximalRun(values: seq<real>, scores: seq<real>, nActive: nat, nReturn: nat)
    requires |values| == |scores| && 0 < nReturn <= nActive < |values|
    ensures var s := Select(values, scores, nActive, nReturn);
      var links := Links(Gather(scores, s.byCharacter), s.scoreTol);
      var lo, hi := RunStart(links, nActive - 1), RunEnd(links, nActive);
      && ((exists i :: 0 <= i < |values| && s.clusterMask[i]) <==> s.scoreGap <= s.scoreTol)
      && (s.scoreGap <= s.scoreTol ==> forall i :: 0 <= i < |values| ==> (s.clusterMask[i] <==> lo <= i <= hi))
  {
    hide ArgSort, ArgSortPrefix, InsertPosition, MaxAbs, Min, ScoreTol, ClusterMask, CumProd, Flip, RunStart,
      RunEnd, CountLe;
    var s := Select(values, scores, nActive, nReturn);
    var links := Links(Gather(scores, s.byCharacter), s.scoreTol);
    var lo, hi := RunStart(links, nActive - 1), RunEnd(links, nActive);
    assert links[nActive - 1] <==> s.scoreGap <= s.scoreTol;
    MaskIsJoined(links, nActive, nActive);
    forall i | 0 <= i < |values|
      ensures s.clusterMask[i] <==> links[nActive - 1] && lo <= i <= hi
    {
      MaskIsJoined(links, nActive, i);
    }
  }

  // ---------------------------------------------------------------- after the Newton inverse

  function Mapped(f: real -> real, s: seq<real>): (r: seq<real>)
    ensures |r| == |s| && forall i :: 0 <= i < |s| ==> r[i] == f(s[i])
  {
    seq(|s|, i requires 0 <= i < |s| => f(s[i]))
  }

  /** The published energies: the inverse of the selected values, sorted and cut. */
  function Published(s: Selection, inverse: real -> real, nKeep: nat): seq<real>
    requires nKeep <= |s.values|
  {
    Sorted(Mapped(inverse, s.values))[..nKeep]
  }

  /** Smallest masked entry; none stands for an infinite default. */
  function MaskedMin(mask: seq<bool>, e: seq<real>): (m: Option<real>)
    requires |mask| == |e|
    ensures m.Some? <==> exists i :: 0 <= i < |mask| && mask[i]
    ensures m.Some? ==> forall i :: 0 <= i < |mask| && mask[i] ==> m.value <= e[i]
    ensures m.Some? ==> exists i :: 0 <= i < |mask| && mask[i] && m.value == e[i]
  {
    if mask == [] then None
    else
      var m := MaskedMin(mask[1..], e[1..]);
      assert forall i :: 1 <= i < |mask| ==> mask[i] == mask[1..][i - 1] && e[i] == e[1..][i - 1];
      if mask[0] && (m.None? || e[0] <= m.value) then Some(e[0]) else m
  }

  function MaskedMax(mask: seq<bool>, e: seq<real>): (m: Option<real>)
    requires |mask| == |e|
    ensures m.Some? <==> exists i :: 0 <= i < |mask| && mask[i]
    ensures m.Some? ==> forall i :: 0 <= i < |mask| && mask[i] ==> e[i] <= m.value
    ensures m.Some? ==> exists i :: 0 <= i < |mask| && mask[i] && m.value == e[i]
  {
    if mask == [] then None
    else
      var m := MaskedMax(mask[1..], e[1..]);
      assert forall i :: 1 <= i < |mask| ==> mask[i] == mask[1..][i - 1] && e[i] == e[1..][i - 1];
      if mask[0] && (m.None? || e[0] >= m.value) then Some(e[0]) else m
  }

  predicate Ambiguous(s: Selection) { s.scoreGap <= s.scoreTol }

  /** The energy spread of the tied cluster, zero for a resolved boundary. */
  function ClusterSpan(s: Selection, inverse: real -> real): real
    requires |s.clusterMask| == |s.clusterValues|
  {
    var e := Mapped(inverse, s.clusterValues);
    var lo, hi := MaskedMin(s.clusterMask, e), MaskedMax(s.clusterMask, e);
    if Ambiguous(s) && lo.Some? && hi.Some? then hi.value - lo.value else 0.0
  }

  predicate Unsafe(s: Selection, inverse: real -> real)
    requires |s.clusterMask| == |s.clusterValues|
  {
    Ambiguous(s) && ClusterSpan(s, inverse) > DEGENERACY_TOL
  }

  /** jnp.max of the unsafe spans over the q points. */
  function MaxUnsafeSpan(path: seq<Selection>, inverse: real -> real): (m: real)
    requires path != [] && forall q :: 0 <= q < |path| ==> |path[q].clusterMask| == |path[q].clusterValues|
    ensures m > DEGENERACY_TOL <==> exists q :: 0 <= q < |path| && Unsafe(path[q], inverse)
  {
    var span := if Unsafe(path[0], inverse) then ClusterSpan(path[0], inverse) else 0.0;
    if |path| == 1 then span
    else
      var m := MaxUnsafeSpan(path[1..], inverse);
      assert forall q :: 1 <= q < |path| ==> path[q] == path[1..][q - 1];
      if span >= m then span else m
  }

  datatype Outcome = Energies(bands: seq<seq<real>>) | Underdetermined | BadCounts(error: Refusal)

  /** The selection at one carrier row, as the path program asks for it. */
  function AtPoint(point: (seq<real>, seq<real>), nActive: int, nPhysical: int, nKeep: int): (r: Result<Selection, Refusal>)
    requires |point.0| == |point.1|
    ensures r.Success? ==> |r.value.clusterMask| == |r.value.clusterValues| && 0 < nKeep <= |r.value.values|
  {
    SelectActive(point.0, point.1, nActive, Some(nPhysical), Some(nKeep))
  }

  /**
   The path: select at every carrier row, then publish the first nq or refuse all of them.
   Rows beyond nq are padding.
   */
  method PublishPath(carrier: seq<(seq<real>, seq<real>)>, nq: nat, nActive: int, nPhysical: int, nKeep: int,
                     inverse: real -> real) returns (r: Outcome)
    requires 0 < nq <= |carrier|
    requires forall q :: 0 <= q < |carrier| ==> |carrier[q].0| == |carrier[q].1|
    ensures r.BadCounts? <==> exists q :: 0 <= q < |carrier| && AtPoint(carrier[q], nActive, nPhysical, nKeep).Failure?
    ensures r.Underdetermined? <==>
      (!r.BadCounts? && exists q :: 0 <= q < nq && Unsafe(AtPoint(carrier[q], nActive, nPhysical, nKeep).value, inverse))
    ensures r.Energies? ==> |r.bands| == nq
    ensures r.Energies? ==> forall q :: 0 <= q < nq ==>
      r.bands[q] == Published(AtPoint(carrier[q], nActive, nPhysical, nKeep).value, inverse, nKeep)
  {
    hide ArgSort, ArgSortPrefix, InsertPosition, MaxAbs, Min, ScoreTol, ClusterMask, CumProd, Flip, RunStart,
      RunEnd, CountLe, Sorted, Select, SelectActive, AtPoint, ClusterSpan;
    var path: seq<Selection> := [];
    for q := 0 to |carrier|
      invariant |path| == q
      invariant forall p :: 0 <= p < q ==>
        AtPoint(carrier[p], nActive, nPhysical, nKeep) == Success(path[p])
    {
      var s := AtPoint(carrier[q], nActive, nPhysical, nKeep);
      if s.Failure? {
        return BadCounts(s.error);
      }
      path := path + [s.value];
    }
    if MaxUnsafeSpan(path[..nq], inverse) > DEGENERACY_TOL {
      ghost var q :| 0 <= q < nq && Unsafe(path[..nq][q], inverse);
      assert path[..nq][q] == path[q];
      return Underdetermined;
    }
    assert forall q :: 0 <= q < nq ==> path[..nq][q] == path[q] && !Unsafe(path[q], inverse);
    var bands := seq(nq, q requires 0 <= q < nq => Published(path[q], inverse, nKeep));
    return Energies(bands);
  }

  // ---------------------------------------------------------------- independence of tie-breaking

  /**
   Another choice of as many candidates: everything selected above the cluster stays, and
   the rest comes from the cluster.
   */
  ghost predicate Alternative(s: Selection, nActive: nat, alt: seq<nat>)
    requires nActive <= |s.byCharacter| == |s.clusterMask|
  {
    && |alt| == nActive && Distinct(alt)
    && (forall r :: 0 <= r < nActive && !s.clusterMask[r] ==> s.byCharacter[r] in alt)
    && (forall a :: 0 <= a < nActive ==>
          exists r :: 0 <= r < |s.byCharacter| && s.byCharacter[r] == alt[a] && (r < nActive || s.clusterMask[r]))
  }

  ghost function Below(g: seq<real>, ids: set<nat>, t: real): set<nat>
    requires forall j :: j in ids ==> j < |g|
  {
    set j | j in ids && g[j] <= t
  }

  /** No two energies of the cluster are further apart than tol. */
  ghost predicate Narrow(g: seq<real>, cluster: set<nat>, tol: real) {
    && (forall j :: j in cluster ==> j < |g|)
    && (forall i, j :: i in cluster && j in cluster ==> g[i] <= g[j] + tol)
  }

  /** Exchanging candidates inside a cluster of small spread shifts every count by at most that spread. */
  lemma ExchangeCounts(g: seq<real>, p: set<nat>, q: set<nat>, cluster: set<nat>, tol: real, t: real)
    requires forall j :: j in p || j in q ==> j < |g|
    requires |p| == |q| && p - q <= cluster && q - p <= cluster && tol >= 0.0
    requires Narrow(g, cluster, tol)
    ensures |Below(g, p, t)| <= |Below(g, q, t + tol)|
  {
    var shared := Below(g, p * q, t);
    var mine := Below(g, p - q, t);
    assert Below(g, p, t) == shared + mine && shared !! mine;
    assert p == (p * q) + (p - q) && q == (p * q) + (q - p);
    assert |p| == |p * q| + |p - q| && |q| == |p * q| + |q - p|;
    if mine == {} {
      SubsetCard(shared, Below(g, q, t + tol));
    } else {
      var i :| i in mine;
      assert shared + (q - p) <= Below(g, q, t + tol);
      assert shared !! (q - p);
      SubsetCard(mine, p - q);
      SubsetCard(shared + (q - p), Below(g, q, t + tol));
    }
  }

  ghost function Ids(s: seq<nat>): set<nat> { set j | j in s }

  /** The facts about one selection that the proof uses. */
  lemma SelectionFacts(values: seq<real>, scores: seq<real>, nActive: nat, nReturn: nat)
    requires |values| == |scores| && 0 < nReturn <= nActive < |values|
    ensures var s := Select(values, scores, nActive, nReturn);
      && Distinct(s.byCharacter) && (forall j :: j in s.byCharacter <==> 0 <= j < |values|)
      && Distinct(s.selected) && Ids(s.selected) == Ids(s.byCharacter[..nActive])
      && (forall a :: 0 <= a < nActive ==> s.selected[a] < |values|)
      && s.values == Gather(values, s.selected)
      && (forall r :: 0 <= r < |values| ==> s.byCharacter[r] < |values|)
      && s.clusterValues == Gather(values, s.byCharacter)
      && s.minNonreturned == Min(s.values[nReturn..] + Gather(values, s.byCharacter[nActive..]))
  {
    hide ArgSort, ArgSortPrefix, InsertPosition, MaxAbs, Min, ScoreTol, ClusterMask, CumProd, Flip, RunStart,
      RunEnd, CountLe, Links, Sorted;
    var s := Select(values, scores, nActive, nReturn);
    var chosen := s.byCharacter[..nActive];
    var byEnergy := ArgSort(Gather(values, chosen));
    assert forall r :: 0 <= r < |values| ==> s.byCharacter[r] in s.byCharacter;
    forall j | j in chosen
      ensures j in s.selected
    {
      var a :| 0 <= a < nActive && chosen[a] == j;
      assert a in byEnergy;
      var b :| 0 <= b < nActive && byEnergy[b] == a;
      assert s.selected[b] == j;
    }
  }

  ghost predicate Valid(g: seq<real>, p: seq<nat>) {
    Distinct(p) && forall a :: 0 <= a < |p| ==> p[a] < |g|
  }

  lemma CountIsBelow(g: seq<real>, p: seq<nat>, t: real)
    requires Valid(g, p)
    ensures forall j :: j in Ids(p) ==> j < |g|
    ensures CountLe(Sorted(Gather(g, p)), t) == |Below(g, Ids(p), t)|
  {
    hide Sorted, CountLe;
    CountSorted(Gather(g, p), t);
    CountPositions(g, p, t);
    assert (set j | j in p && g[j] <= t) == Below(g, Ids(p), t);
  }

  lemma OrderFacts(values: seq<real>, scores: seq<real>, nActive: nat, nReturn: nat)
    requires |values| == |scores| && 0 < nReturn <= nActive < |values|
    ensures var s := Select(values, scores, nActive, nReturn);
      && StableOrder(Negated(scores), s.byCharacter) && Ascending(s.values)
      && s.byCharacter[nActive - 1] < |scores| && s.byCharacter[nActive] < |scores|
      && s.scoreGap == scores[s.byCharacter[nActive - 1]] - scores[s.byCharacter[nActive]]
  {
    hide ArgSort, MaxAbs, Min, ScoreTol, ClusterMask, Links, Ranked, Ascending;
    var order := ArgSort(Negated(scores));
    assert forall a :: 0 <= a < |order| ==> order[a] in order;
    var picked := Gather(values, order[..nActive]);
    GatherAscends(picked, ArgSort(picked));
  }

  lemma GatherAscends(keys: seq<real>, order: seq<nat>)
    requires StableOrder(keys, order)
    ensures Ascending(Gather(keys, order))
  {
  }

  lemma SelectionCounts(g: seq<real>, p: seq<nat>, q: seq<nat>, cluster: set<nat>, tol: real, t: real)
    requires |p| == |q| && Valid(g, p) && Valid(g, q) && tol >= 0.0
    requires Ids(p) - Ids(q) <= cluster && Ids(q) - Ids(p) <= cluster
    requires Narrow(g, cluster, tol)
    ensures CountLe(Sorted(Gather(g, p)), t) <= CountLe(Sorted(Gather(g, q)), t + tol)
  {
    SetOfDistinct(p);
    SetOfDistinct(q);
    hide Sorted, CountLe, Narrow, Distinct, Below;
    CountIsBelow(g, p, t);
    CountIsBelow(g, q, t + tol);
    ExchangeCounts(g, Ids(p), Ids(q), cluster, tol, t);
  }

  /** Sorted energies of two choices that differ only inside a narrow cluster. */
  lemma CloseSelections(g: seq<real>, p: seq<nat>, q: seq<nat>, cluster: set<nat>, tol: real, i: nat)
    requires |p| == |q| && i < |p| && Valid(g, p) && Valid(g, q) && tol >= 0.0
    requires Ids(p) - Ids(q) <= cluster && Ids(q) - Ids(p) <= cluster
    requires Narrow(g, cluster, tol)
    ensures Sorted(Gather(g, q))[i] <= Sorted(Gather(g, p))[i] + tol
  {
    hide Sorted, CountLe, Narrow, Distinct;
    var a, b := Sorted(Gather(g, p)), Sorted(Gather(g, q));
    forall t
      ensures CountLe(a, t) <= CountLe(b, t + tol)
    {
      SelectionCounts(g, p, q, cluster, tol, t);
    }
    CloseCounts(a, b, tol, i);
  }

  /** The candidates of the tied cluster. */
  ghost function ClusterIds(s: Selection): set<nat>
    requires |s.byCharacter| == |s.clusterMask|
  {
    set r | 0 <= r < |s.byCharacter| && s.clusterMask[r] :: s.byCharacter[r]
  }

  lemma SpanBounds(s: Selection, inverse: real -> real, a: nat, b: nat)
    requires |s.clusterMask| == |s.clusterValues| && a < |s.clusterMask| && b < |s.clusterMask|
    requires Ambiguous(s) && !Unsafe(s, inverse) && s.clusterMask[a] && s.clusterMask[b]
    ensures inverse(s.clusterValues[a]) <= inverse(s.clusterValues[b]) + DEGENERACY_TOL
  {
    hide MaskedMin, MaskedMax;
    var e := Mapped(inverse, s.clusterValues);
    var lo, hi := MaskedMin(s.clusterMask, e), MaskedMax(s.clusterMask, e);
    assert lo.Some? && hi.Some?;
    assert lo.value <= e[b] && e[a] <= hi.value;
  }

  lemma ClusterIsNarrow(s: Selection, values: seq<real>, inverse: real -> real)
    requires |s.byCharacter| == |s.clusterMask| == |s.clusterValues| == |values|
    requires forall r :: 0 <= r < |values| ==> s.byCharacter[r] < |values| && s.clusterValues[r] == values[s.byCharacter[r]]
    requires (exists r :: 0 <= r < |values| && s.clusterMask[r]) ==> Ambiguous(s)
    requires !Unsafe(s, inverse)
    ensures Narrow(Mapped(inverse, values), ClusterIds(s), DEGENERACY_TOL)
  {
    hide Unsafe;
    forall i, j | i in ClusterIds(s) && j in ClusterIds(s)
      ensures i < |values| && j < |values| && inverse(values[i]) <= inverse(values[j]) + DEGENERACY_TOL
    {
      var a :| 0 <= a < |values| && s.clusterMask[a] && s.byCharacter[a] == i;
      var b :| 0 <= b < |values| && s.clusterMask[b] && s.byCharacter[b] == j;
      SpanBounds(s, inverse, a, b);
    }
  }

  /** An alternative exchanges candidates only inside the cluster. */
  lemma AlternativeStaysInCluster(s: Selection, n: nat, nActive: nat, alt: seq<nat>)
    requires nActive <= |s.byCharacter| == |s.clusterMask| == n && Alternative(s, nActive, alt)
    requires forall j :: j in s.byCharacter ==> j < n
    requires Ids(s.selected) == Ids(s.byCharacter[..nActive])
    ensures forall a :: 0 <= a < nActive ==> alt[a] < n
    ensures Ids(alt) - Ids(s.selected) <= ClusterIds(s)
    ensures Ids(s.selected) - Ids(alt) <= ClusterIds(s)
  {
    var chosen := s.byCharacter[..nActive];
    forall a | 0 <= a < nActive
      ensures alt[a] < n && (alt[a] in Ids(chosen) || alt[a] in ClusterIds(s))
    {
      var r :| 0 <= r < n && s.byCharacter[r] == alt[a] && (r < nActive || s.clusterMask[r]);
      assert s.byCharacter[r] in s.byCharacter;
      assert r < nActive ==> chosen[r] == alt[a];
    }
    forall j | j in Ids(chosen) && j !in alt
      ensures j in ClusterIds(s)
    {
      var r :| 0 <= r < nActive && chosen[r] == j;
      assert s.byCharacter[r] == j;
    }
  }

  /**
   If the point is not refused, any alternative choice inside the tied cluster gives
   energies within the multiplet tolerance of the published ones, entry by entry.
   */
  lemma AcceptedIsIndependentOfTies(values: seq<real>, scores: seq<real>, nActive: nat, nReturn: nat,
                                    inverse: real -> real, alt: seq<nat>, i: nat)
    requires |values| == |scores| && 0 < nReturn <= nActive < |values| && i < nActive
    requires !Unsafe(Select(values, scores, nActive, nReturn), inverse)
    requires Alternative(Select(values, scores, nActive, nReturn), nActive, alt)
    ensures forall a :: 0 <= a < nActive ==> alt[a] < |values|
    ensures var published := Sorted(Mapped(inverse, Select(values, scores, nActive, nReturn).values));
      var other := Sorted(Mapped(inverse, Gather(values, alt)));
      && -DEGENERACY_TOL <= other[i] - published[i] <= DEGENERACY_TOL
      && (i < nReturn ==> published[i] == Published(Select(values, scores, nActive, nReturn), inverse, nReturn)[i])
  {
    hide ArgSort, ArgSortPrefix, InsertPosition, MaxAbs, Min, ScoreTol, ClusterMask, CumProd, Flip, RunStart,
      RunEnd, CountLe, Select, Sorted, Ranked, StableOrder, Unsafe, Links, Narrow, Ids, ClusterIds, Ascending,
      Distinct;
    var s := Select(values, scores, nActive, nReturn);
    var g := Mapped(inverse, values);
    SelectionFacts(values, scores, nActive, nReturn);
    AlternativeStaysInCluster(s, |values|, nActive, alt);
    ClusterIsMaximalRun(values, scores, nActive, nReturn);
    ClusterIsNarrow(s, values, inverse);
    assert Mapped(inverse, s.values) == Gather(g, s.selected);
    assert Mapped(inverse, Gather(values, alt)) == Gather(g, alt);
    CloseSelections(g, s.selected, alt, ClusterIds(s), DEGENERACY_TOL, i);
    CloseSelections(g, alt, s.selected, ClusterIds(s), DEGENERACY_TOL, i);
  }

  /**
   The selected candidates are those of largest character, lower index first among equals,
   and they are listed in ascending energy.
   */
  lemma SelectedHasMostCharacter(values: seq<real>, scores: seq<real>, nActive: nat, nReturn: nat, j: nat, k: nat)
    requires |values| == |scores| && 0 < nReturn <= nActive < |values| && j < |values| && k < |values|
    requires var s := Select(values, scores, nActive, nReturn); j in s.selected && k !in s.selected
    ensures scores[j] > scores[k] || (scores[j] == scores[k] && j < k)
    ensures var s := Select(values, scores, nActive, nReturn);
      && Ascending(s.values) && s.scoreGap >= 0.0
      && (forall a :: 0 <= a < nActive ==> s.values[a] == values[s.selected[a]])
  {
    hide Select, Distinct, Negated, StableOrder;
    var s := Select(values, scores, nActive, nReturn);
    var order := s.byCharacter;
    SelectionFacts(values, scores, nActive, nReturn);
    OrderFacts(values, scores, nActive, nReturn);
    RankedGap(scores, order, nActive, j, k);
    TopGap(scores, order, nActive);
  }

  lemma TopGap(scores: seq<real>, order: seq<nat>, n: nat)
    requires StableOrder(Negated(scores), order) && 0 < n < |order|
    ensures scores[order[n - 1]] >= scores[order[n]]
  {
    assert Negated(scores)[order[n - 1]] <= Negated(scores)[order[n]];
  }

  lemma RankedGap(scores: seq<real>, order: seq<nat>, n: nat, j: nat, k: nat)
    requires StableOrder(Negated(scores), order) && n <= |order| && j < |scores| && k < |scores| && |order| == |scores|
    requires j in Ids(order[..n]) && k !in Ids(order[..n])
    ensures scores[j] > scores[k] || (scores[j] == scores[k] && j < k)
  {
    assert k in order;
    assert order == order[..n] + order[n..];
    assert k in order[..n] || k in order[n..];
    var a :| 0 <= a < n && order[..n][a] == j;
    var b :| 0 <= b < |order| - n && order[n..][b] == k;
    assert order[a] == j && order[n + b] == k;
  }

  // ---------------------------------------------------------------- the partition

  /**
   Returned, selected but not returned, and rejected candidates partition the physical
   ones, and `minNonreturned` is the least value over all candidates not returned.
   */
  lemma NonreturnedIsTheComplement(values: seq<real>, scores: seq<real>, nActive: nat, nReturn: nat)
    requires |values| == |scores| && 0 < nReturn <= nActive < |values|
    ensures var s := Select(values, scores, nActive, nReturn);
      var returned, held, rejected := Ids(s.selected[..nReturn]), Ids(s.selected[nReturn..]), Ids(s.byCharacter[nActive..]);
      && returned !! held !! rejected
      && (forall j: nat :: j in returned + held + rejected <==> j < |values|)
      && (forall j: nat :: j < |values| && j !in returned ==> s.minNonreturned <= values[j])
      && (exists j: nat :: j < |values| && j !in returned && s.minNonreturned == values[j])
  {
    hide ArgSort, ArgSortPrefix, InsertPosition, MaxAbs, Min, ScoreTol, ClusterMask, CumProd, Flip, RunStart,
      RunEnd, CountLe, Sorted, Links, StableOrder, Ranked;
    hide Select, Distinct;
    var s := Select(values, scores, nActive, nReturn);
    SelectionFacts(values, scores, nActive, nReturn);
    var held, rest := s.selected[nReturn..], s.byCharacter[nActive..];
    var pool := held + rest;
    SplitIds(s.selected, nReturn);
    SplitIds(s.byCharacter, nActive);
    assert Ids(pool) == Ids(held) + Ids(rest);
    assert forall a :: 0 <= a < |rest| ==> rest[a] == s.byCharacter[nActive + a];
    assert s.values[nReturn..] + Gather(values, rest) == Gather(values, pool);
    LeastOfPool(values, pool);
    forall j: nat
      ensures j < |values| && j !in Ids(s.selected[..nReturn]) <==> j in pool
    {
      assert j < |values| <==> j in Ids(s.byCharacter);
      assert j in pool <==> j in Ids(pool);
    }
  }

  lemma SplitIds(s: seq<nat>, k: nat)
    requires Distinct(s) && k <= |s|
    ensures Ids(s) == Ids(s[..k]) + Ids(s[k..]) && Ids(s[..k]) !! Ids(s[k..])
  {
    assert s == s[..k] + s[k..];
  }

  lemma LeastOfPool(values: seq<real>, pool: seq<nat>)
    requires pool != [] && forall a :: 0 <= a < |pool| ==> pool[a] < |values|
    ensures forall j :: j in pool ==> Min(Gather(values, pool)) <= values[j]
    ensures exists j :: j in pool && Min(Gather(values, pool)) == values[j]
  {
    hide Min;
    var e := Gather(values, pool);
    forall j | j in pool
      ensures Min(e) <= values[j]
    {
      var a :| 0 <= a < |pool| && pool[a] == j;
      assert e[a] == values[j];
    }
    var a :| 0 <= a < |e| && e[a] == Min(e);
    assert pool[a] in pool;
  }
}
