/**
 What a point of the path asks for (`select_active_eigenpairs` with its counts), on the lists as they
 come: candidates beyond the physical ones, the count refusals, the numerical floor and the refusal of
 an underdetermined boundary.
 */
module SelectedStates {
  import opened ActiveSelection
  import opened SelectionStability
  import opened Sequences
  import opened Sorting
  import opened Wrappers

  /** The counts a call is about: how many candidates are ranked, and how many states are returned. */
  function Total(values: seq<real>, nPhysical: Option<int>): int {
    match nPhysical
    case None => |values|
    case Some(n) => n
  }

  function Keep(nActive: int, nReturn: Option<int>): int {
    match nReturn
    case None => nActive
    case Some(n) => n
  }

  /** Each refusal, exactly when its count is out of range and the ones before it are not. */
  lemma CountsAreRefused(values: seq<real>, characters: seq<real>, nActive: int, nPhysical: Option<int>, nReturn: Option<int>)
    requires |values| == |characters|
    ensures var r := SelectActive(values, characters, nActive, nPhysical, nReturn);
      var total, keep := Total(values, nPhysical), Keep(nActive, nReturn);
      && (r.Success? <==> 1 <= keep <= nActive <= total - 1 <= |values| - 1)
      && (r == Failure(BadPhysicalCount) <==> total < 1 || |values| < total)
      && (r == Failure(BadActiveCount) <==> 1 <= total <= |values| && (nActive < 1 || total <= nActive))
      && (r == Failure(BadReturnCount) <==> total <= |values| && 1 <= nActive < total && (keep < 1 || nActive < keep))
  {
    hide Select;
  }

  /** What a selection has to do with the first `total` of the lists. */
  ghost predicate SelectsFrom(values: seq<real>, characters: seq<real>, total: nat, keep: nat, s: Selection)
    requires |values| == |characters| && total <= |values|
  {
    && Distinct(s.selected) && |s.values| == |s.selected| && Ascending(s.values)
    && (forall a :: 0 <= a < |s.selected| ==> s.selected[a] < total && s.values[a] == values[s.selected[a]])
    && (forall j: nat, k: nat :: j in s.selected && k < total && k !in s.selected ==>
          j < total && (characters[j] > characters[k] || (characters[j] == characters[k] && j < k)))
    && keep <= |s.selected|
    && (forall k: nat :: k < total && k !in s.selected[..keep] ==> s.minNonreturned <= values[k])
    && (exists k: nat :: k < total && k !in s.selected[..keep] && s.minNonreturned == values[k])
  }

  lemma LeastNonreturned(values: seq<real>, characters: seq<real>, nActive: nat, keep: nat)
    requires |values| == |characters| && 0 < keep <= nActive < |values|
    ensures var s := Select(values, characters, nActive, keep);
      && (forall k: nat :: k < |values| && k !in s.selected[..keep] ==> s.minNonreturned <= values[k])
      && (exists k: nat :: k < |values| && k !in s.selected[..keep] && s.minNonreturned == values[k])
  {
    hide Select;
    NonreturnedIsTheComplement(values, characters, nActive, keep);
    var s := Select(values, characters, nActive, keep);
    assert forall k: nat :: k in Ids(s.selected[..keep]) <==> k in s.selected[..keep];
  }

  lemma SelectSelects(values: seq<real>, characters: seq<real>, nActive: nat, keep: nat)
    requires |values| == |characters| && 0 < keep <= nActive < |values|
    ensures SelectsFrom(values, characters, |values|, keep, Select(values, characters, nActive, keep))
  {
    hide Select, Distinct, Ascending, StableOrder, Negated;
    var s := Select(values, characters, nActive, keep);
    SelectionFacts(values, characters, nActive, keep);
    LeastNonreturned(values, characters, nActive, keep);
    OrderFacts(values, characters, nActive, keep);
    forall j: nat, k: nat | j in s.selected && k < |values| && k !in s.selected
      ensures j < |values| && (characters[j] > characters[k] || (characters[j] == characters[k] && j < k))
    {
      SelectedHasMostCharacter(values, characters, nActive, keep, j, k);
    }
  }

  /**
   The states selected are physical ones, no physical one left out has more character, their
   values are the given ones in ascending order, and the reported minimum is the least value of a
   physical state that is not returned. Candidates beyond the physical ones take no part.
   */
  lemma PhysicalStatesAreSelected(values: seq<real>, characters: seq<real>, nActive: int, nPhysical: Option<int>,
                                  nReturn: Option<int>)
    requires |values| == |characters| && SelectActive(values, characters, nActive, nPhysical, nReturn).Success?
    ensures var s := SelectActive(values, characters, nActive, nPhysical, nReturn).value;
      var total, keep := Total(values, nPhysical), Keep(nActive, nReturn);
      && |s.selected| == nActive && 1 <= keep && 1 <= total <= |values|
      && SelectsFrom(values, characters, total, keep, s)
  {
    var total, keep := Total(values, nPhysical), Keep(nActive, nReturn);
    hide Select;
    SelectSelects(values[..total], characters[..total], nActive, keep);
  }

  /** Entries beyond the physical ones change nothing. */
  lemma RestIsIgnored(values: seq<real>, characters: seq<real>, values': seq<real>, characters': seq<real>, nActive: int,
                      total: nat, nReturn: Option<int>)
    requires |values| == |characters| >= total && |values'| == |characters'| >= total
    requires values[..total] == values'[..total] && characters[..total] == characters'[..total]
    ensures SelectActive(values, characters, nActive, Some(total), nReturn)
         == SelectActive(values', characters', nActive, Some(total), nReturn)
  {
    hide Select;
  }

  // ---------------------------------------------------------------- the floor and the refusal

  lemma {:induction false} MaxAbsIs(scores: seq<real>)
    requires scores != []
    ensures MaxAbs(scores) >= 0.0
    ensures forall i :: 0 <= i < |scores| ==> -MaxAbs(scores) <= scores[i] <= MaxAbs(scores)
    ensures exists i :: 0 <= i < |scores| && (scores[i] == MaxAbs(scores) || scores[i] == -MaxAbs(scores))
  {
    if |scores| > 1 {
      MaxAbsIs(scores[1..]);
      assert forall i :: 1 <= i < |scores| ==> scores[i] == scores[1..][i - 1];
      var i :| 0 <= i < |scores[1..]| && (scores[1..][i] == MaxAbs(scores[1..]) || scores[1..][i] == -MaxAbs(scores[1..]));
      assert scores[i + 1] == scores[1..][i];
    }
    assert scores[0] == MaxAbs(scores) || scores[0] == -MaxAbs(scores) || |scores| > 1;
  }

  /** m is the larger of one and the largest modulus. */
  ghost predicate IsScale(scores: seq<real>, m: real) {
    && m >= 1.0 && (forall i :: 0 <= i < |scores| ==> -m <= scores[i] <= m)
    && (m == 1.0 || exists i :: 0 <= i < |scores| && (scores[i] == m || scores[i] == -m))
  }

  /** The numerical floor: 64 double-precision spacings for each ranked candidate, times that scale. */
  lemma FloorIs(scores: seq<real>)
    requires scores != []
    ensures exists m :: IsScale(scores, m) && ScoreTol(scores) == 64.0 / 4503599627370496.0 * (|scores| as real) * m
  {
    MaxAbsIs(scores);
    var m := if MaxAbs(scores) > 1.0 then MaxAbs(scores) else 1.0;
    assert IsScale(scores, m);
    hide MaxAbs;
    assert 64.0 * EPS == 64.0 / 4503599627370496.0;
  }

  /** Ranks a and b are states of the tied cluster, more than 1 meV apart after the inverse. */
  ghost predicate WideAt(s: Selection, inverse: real -> real, a: nat, b: nat) {
    && a < |s.clusterMask| == |s.clusterValues| && b < |s.clusterMask| && s.clusterMask[a] && s.clusterMask[b]
    && inverse(s.clusterValues[a]) - inverse(s.clusterValues[b]) > 0.001 / 13.6056980659
  }

  lemma SpanOf(s: Selection, inverse: real -> real) returns (hi: nat, lo: nat)
    requires |s.clusterMask| == |s.clusterValues| && Unsafe(s, inverse)
    ensures s.scoreGap <= s.scoreTol && WideAt(s, inverse, hi, lo)
  {
    hide MaskedMin, MaskedMax;
    var e := Mapped(inverse, s.clusterValues);
    var least, most := MaskedMin(s.clusterMask, e), MaskedMax(s.clusterMask, e);
    assert DEGENERACY_TOL > 0.0;
    lo :| 0 <= lo < |s.clusterMask| && s.clusterMask[lo] && least.value == e[lo];
    hi :| 0 <= hi < |s.clusterMask| && s.clusterMask[hi] && most.value == e[hi];
  }

  lemma WideIsRefused(s: Selection, inverse: real -> real, a: nat, b: nat)
    requires |s.clusterMask| == |s.clusterValues| && s.scoreGap <= s.scoreTol && WideAt(s, inverse, a, b)
    ensures Unsafe(s, inverse)
  {
    hide ClusterSpan;
    if !Unsafe(s, inverse) {
      SpanBounds(s, inverse, a, b);
    }
  }

  /**
   A point is refused exactly when its boundary gap is not above the floor and two states of its tied
   cluster are more than 1 meV apart after the inverse.
   */
  lemma RefusedIffWide(s: Selection, inverse: real -> real)
    requires |s.clusterMask| == |s.clusterValues|
    ensures Unsafe(s, inverse) <==> s.scoreGap <= s.scoreTol && exists a, b :: WideAt(s, inverse, a, b)
  {
    hide Unsafe, WideAt;
    if Unsafe(s, inverse) {
      var hi, lo := SpanOf(s, inverse);
    }
    if s.scoreGap <= s.scoreTol {
      if a: nat, b: nat :| WideAt(s, inverse, a, b) {
        WideIsRefused(s, inverse, a, b);
      }
    }
  }

  // ---------------------------------------------------------------- at a point of the path

  lemma GatherPrefix(values: seq<real>, total: nat, ids: seq<nat>)
    requires total <= |values| && forall a :: 0 <= a < |ids| ==> ids[a] < total
    ensures Gather(values[..total], ids) == Gather(values, ids)
  {
  }

  /**
   If a point is not refused, any other choice inside its tied cluster is one of physical states and
   gives energies within 1 meV of the published ones, entry by entry.
   */
  lemma PointIsIndependentOfTies(point: (seq<real>, seq<real>), nActive: int, nPhysical: int, nKeep: int,
                                 inverse: real -> real, alt: seq<nat>, i: nat)
    requires |point.0| == |point.1| && AtPoint(point, nActive, nPhysical, nKeep).Success? && i < nKeep
    requires var s := AtPoint(point, nActive, nPhysical, nKeep).value;
      !Unsafe(s, inverse) && 0 < nActive <= |s.byCharacter| == |s.clusterMask| && Alternative(s, nActive, alt)
    ensures |alt| == nActive && forall a :: 0 <= a < |alt| ==> alt[a] < nPhysical <= |point.0|
    ensures nKeep <= |AtPoint(point, nActive, nPhysical, nKeep).value.values|
    ensures var published := Published(AtPoint(point, nActive, nPhysical, nKeep).value, inverse, nKeep);
      var other := Sorted(Mapped(inverse, Gather(point.0, alt)));
      -0.001 / 13.6056980659 <= other[i] - published[i] <= 0.001 / 13.6056980659
  {
    hide Select, Sorted, Unsafe, Mapped, Gather, Alternative;
    var values, characters := point.0[..nPhysical], point.1[..nPhysical];
    AlternativeLength(Select(values, characters, nActive, nKeep), nActive, alt);
    AcceptedIsIndependentOfTies(values, characters, nActive, nKeep, inverse, alt, i);
    GatherPrefix(point.0, nPhysical, alt);
  }

  lemma AlternativeLength(s: Selection, nActive: nat, alt: seq<nat>)
    requires nActive <= |s.byCharacter| == |s.clusterMask| && Alternative(s, nActive, alt)
    ensures |alt| == nActive
  {
  }

  /** Both energies exist, and they are within 1 meV of each other. */
  ghost predicate Close(a: Selection, b: Selection, inverse: real -> real, nKeep: nat, i: nat) {
    && i < nKeep <= |a.values| && nKeep <= |b.values|
    && -0.001 / 13.6056980659 <= Published(b, inverse, nKeep)[i] - Published(a, inverse, nKeep)[i] <= 0.001 / 13.6056980659
  }

  /**
   If a point is not refused, characters of its physical states that differ by no more than half the
   floor publish energies within 1 meV, whatever the characters of the others.
   */
  lemma PointIsStable(values: seq<real>, characters: seq<real>, others: seq<real>, nActive: int, nPhysical: nat, nKeep: nat,
                      inverse: real -> real, i: nat)
    requires |values| == |characters| == |others| && nPhysical <= |values| && i < nKeep
    requires var r := AtPoint((values, characters), nActive, nPhysical, nKeep); r.Success? && !Unsafe(r.value, inverse)
    requires WithinFloor(characters[..nPhysical], others[..nPhysical])
    ensures var r, r' := AtPoint((values, characters), nActive, nPhysical, nKeep), AtPoint((values, others), nActive, nPhysical, nKeep);
      r'.Success? && Close(r.value, r'.value, inverse, nKeep, i)
  {
    hide Select, Sorted, Unsafe, Mapped, WithinFloor, Published;
    AcceptedIsStable(values[..nPhysical], characters[..nPhysical], others[..nPhysical], nActive, nKeep, inverse, i);
  }
}
