/** Stable argument sorting of real keys, and counting below a threshold. */
module Sorting {
  import opened Sequences

  /** Positions in key order; equal keys stay in position order. */
  ghost predicate Ranked(keys: seq<real>, order: seq<nat>) {
    && (forall a :: 0 <= a < |order| ==> order[a] < |keys|)
    && (forall a, b :: 0 <= a < b < |order| ==>
          keys[order[a]] < keys[order[b]] || (keys[order[a]] == keys[order[b]] && order[a] < order[b]))
  }

  /** The result of a stable argsort. */
  ghost predicate StableOrder(keys: seq<real>, order: seq<nat>) {
    Ranked(keys, order) && |order| == |keys| && forall i :: 0 <= i < |keys| ==> i in order
  }

  /** A position whose key is above all others goes last. */
  lemma RankedThen(keys: seq<real>, order: seq<nat>, last: nat)
    requires Ranked(keys, order) && last < |keys|
    requires forall a :: 0 <= a < |order| ==>
      keys[order[a]] < keys[last] || (keys[order[a]] == keys[last] && order[a] < last)
    ensures Ranked(keys, order + [last])
  {
  }

  /** The last of ranked positions and the ones before it. */
  lemma RankedInit(keys: seq<real>, order: seq<nat>)
    requires Ranked(keys, order) && order != []
    ensures var n := |order|; var init, last := order[..n - 1], order[n - 1];
      && order == init + [last] && Ranked(keys, init) && last < |keys|
      && forall j :: j in init ==>
           j < |keys| && (keys[j] < keys[last] || (keys[j] == keys[last] && j < last))
    ensures forall a :: 0 <= a < |order| ==> keys[order[a]] <= keys[order[|order| - 1]]
  {
  }

  /** Put position i, larger than all in `order`, behind every key not above its own. */
  function InsertPosition(keys: seq<real>, order: seq<nat>, i: nat): (r: seq<nat>)
    requires Ranked(keys, order) && i < |keys|
    requires forall a :: 0 <= a < |order| ==> order[a] < i
    ensures Ranked(keys, r) && |r| == |order| + 1
    ensures forall j :: j in r <==> j in order || j == i
  {
    var n := |order|;
    if n == 0 then [i]
    else
      RankedInit(keys, order);
      if keys[order[n - 1]] <= keys[i] then
        RankedThen(keys, order, i);
        order + [i]
      else
        var r := InsertPosition(keys, order[..n - 1], i);
        assert forall a :: 0 <= a < |r| ==> r[a] in r;
        RankedThen(keys, r, order[n - 1]);
        r + [order[n - 1]]
  }

  function ArgSortPrefix(keys: seq<real>, n: nat): (order: seq<nat>)
    requires n <= |keys|
    ensures Ranked(keys, order) && |order| == n
    ensures forall j :: j in order <==> 0 <= j < n
  {
    if n == 0 then []
    else
      var order := ArgSortPrefix(keys, n - 1);
      assert forall a :: 0 <= a < |order| ==> order[a] in order;
      InsertPosition(keys, order, n - 1)
  }

  function ArgSort(keys: seq<real>): (order: seq<nat>)
    ensures StableOrder(keys, order)
    ensures forall j :: j in order ==> j < |keys|
  {
    ArgSortPrefix(keys, |keys|)
  }

  function Sorted(s: seq<real>): (r: seq<real>)
    ensures |r| == |s| && Ascending(r)
  {
    Gather(s, ArgSort(s))
  }

  ghost predicate Ascending(s: seq<real>) {
    forall a, b :: 0 <= a <= b < |s| ==> s[a] <= s[b]
  }

  // ---------------------------------------------------------------- counting

  /** How many entries are at most t. */
  function CountLe(s: seq<real>, t: real): nat {
    if s == [] then 0 else (if s[0] <= t then 1 else 0) + CountLe(s[1..], t)
  }

  /** In a sorted sequence the i-th entry is at most t exactly when more than i entries are. */
  lemma {:induction false} SortedCount(s: seq<real>, t: real, i: nat)
    requires Ascending(s) && i < |s|
    ensures s[i] <= t <==> CountLe(s, t) > i
  {
    if s[0] > t {
      NoneBelow(s, t);
    } else if i > 0 {
      SortedCount(s[1..], t, i - 1);
    }
  }

  lemma {:induction false} NoneBelow(s: seq<real>, t: real)
    requires forall i :: 0 <= i < |s| ==> s[i] > t
    ensures CountLe(s, t) == 0
  {
    if s != [] {
      NoneBelow(s[1..], t);
    }
  }

  /** Counting along distinct positions is the cardinality of a set of positions. */
  lemma {:induction false} CountPositions(g: seq<real>, s: seq<nat>, t: real)
    requires Distinct(s) && forall a :: 0 <= a < |s| ==> s[a] < |g|
    ensures CountLe(Gather(g, s), t) == |set j | j in s && g[j] <= t|
  {
    var all := set j | j in s && g[j] <= t;
    if s == [] {
      assert all == {};
    } else {
      var rest := s[1..];
      CountPositions(g, rest, t);
      assert Gather(g, s)[1..] == Gather(g, rest);
      var below := set j | j in rest && g[j] <= t;
      assert s[0] !in rest;
      assert forall j :: j in s <==> j == s[0] || j in rest;
      if g[s[0]] <= t {
        assert all == below + {s[0]};
      } else {
        assert all == below;
      }
    }
  }

  /** Sorting keeps counts. */
  lemma CountSorted(s: seq<real>, t: real)
    ensures CountLe(Sorted(s), t) == CountLe(s, t)
  {
    var order := ArgSort(s);
    var id := seq(|s|, i => i);
    CountPositions(s, order, t);
    CountPositions(s, id, t);
    assert Gather(s, id) == s;
    assert (set j | j in order && s[j] <= t) == (set j | j in id && s[j] <= t) by {
      forall j: nat
        ensures j in order <==> j in id
      {
        if j < |s| { assert id[j] == j; }
      }
    }
  }

  /** Sorted sequences whose counts interleave within tol agree within tol, entry by entry. */
  lemma CloseCounts(a: seq<real>, b: seq<real>, tol: real, i: nat)
    requires Ascending(a) && Ascending(b) && |a| == |b| && i < |a|
    requires forall t :: CountLe(a, t) <= CountLe(b, t + tol)
    ensures b[i] <= a[i] + tol
  {
    SortedCount(a, a[i], i);
    SortedCount(b, a[i] + tol, i);
  }
}
