/** Sequences read through positions, permutations and the pigeonhole principle. */
module Sequences {

  ghost predicate Distinct<T>(s: seq<T>) {
    forall a, b :: 0 <= a < b < |s| ==> s[a] != s[b]
  }

  predicate InRange(order: seq<nat>, n: nat) {
    forall a :: 0 <= a < |order| ==> order[a] < n
  }

  /** s read through the positions in `order`. */
  function Gather<T>(s: seq<T>, order: seq<nat>): (r: seq<T>)
    requires forall a :: 0 <= a < |order| ==> order[a] < |s|
    ensures |r| == |order| && forall a :: 0 <= a < |r| ==> r[a] == s[order[a]]
  {
    seq(|order|, a requires 0 <= a < |order| => s[order[a]])
  }

  ghost predicate IsPermutation(order: seq<nat>, n: nat) {
    |order| == n && Distinct(order) && InRange(order, n)
  }

  function Without<T>(s: seq<T>, j: nat): (r: seq<T>)
    requires j < |s|
    ensures |r| == |s| - 1
  {
    s[..j] + s[j + 1..]
  }

  lemma WithoutMultiset<T>(s: seq<T>, j: nat)
    requires j < |s|
    ensures multiset(s) == multiset(Without(s, j)) + multiset{s[j]}
  {
    assert s == s[..j] + [s[j]] + s[j + 1..];
  }

  /** Removing the same entry from two rearrangements leaves rearrangements. */
  lemma WithoutFirst<T>(a: seq<T>, b: seq<T>, j: nat)
    requires a != [] && j < |b| && b[j] == a[0] && multiset(a) == multiset(b)
    ensures multiset(a[1..]) == multiset(Without(b, j))
  {
    hide Without;
    WithoutMultiset(b, j);
    assert a == [a[0]] + a[1..];
    var e := multiset{a[0]};
    assert multiset(a[1..]) == multiset(a) - e;
    assert multiset(Without(b, j)) == multiset(b) - e;
  }

  lemma {:induction false} SetOfDistinct<T>(s: seq<T>)
    requires Distinct(s)
    ensures |set x | x in s| == |s|
  {
    var all := set x | x in s;
    if s == [] {
      assert all == {};
    } else {
      SetOfDistinct(s[1..]);
      assert s[0] !in s[1..];
      assert s == [s[0]] + s[1..];
      assert all == (set x | x in s[1..]) + {s[0]};
    }
  }

  function Range(n: nat): (r: set<nat>)
    ensures |r| == n && forall x: nat :: x in r <==> x < n
  {
    if n == 0 then {} else Range(n - 1) + {n - 1}
  }

  lemma SubsetCard<T>(a: set<T>, b: set<T>)
    requires a <= b
    ensures |a| <= |b|
  {
    assert b == a + (b - a);
  }

  /** Pigeonhole: n distinct positions below n include every one. */
  lemma PermutationHits(order: seq<nat>, n: nat, x: nat)
    requires IsPermutation(order, n) && x < n
    ensures x in order
  {
    var image := set y | y in order;
    SetOfDistinct(order);
    if x !in order {
      SubsetCard(image, Range(n) - {x});
    }
  }

  /** Dropping the position that reads the last entry. */
  lemma GatherWithout<T>(s: seq<T>, order: seq<nat>, j: nat)
    requires s != [] && IsPermutation(order, |s|) && j < |s| && order[j] == |s| - 1
    ensures IsPermutation(Without(order, j), |s| - 1)
    ensures Without(Gather(s, order), j) == Gather(s[..|s| - 1], Without(order, j))
  {
  }

  /** Reading through a permutation rearranges. */
  lemma {:induction false} GatherMultiset<T>(s: seq<T>, order: seq<nat>)
    requires IsPermutation(order, |s|)
    ensures multiset(Gather(s, order)) == multiset(s)
    decreases |s|
  {
    var n := |s|;
    if n > 0 {
      PermutationHits(order, n, n - 1);
      var j :| 0 <= j < n && order[j] == n - 1;
      GatherWithout(s, order, j);
      var g, rest := Gather(s, order), s[..n - 1];
      assert s == rest + [s[n - 1]] && g[j] == s[n - 1];
      hide *;
      WithoutMultiset(g, j);
      GatherMultiset(rest, Without(order, j));
    } else {
      assert Gather(s, order) == s;
    }
  }

  /** An entry that stands at one position only counts once. */
  lemma CountOnce<T>(s: seq<T>, i: nat)
    requires i < |s| && forall j :: 0 <= j < |s| && s[j] == s[i] ==> j == i
    ensures multiset(s)[s[i]] == 1
  {
    assert s == s[..i] + [s[i]] + s[i + 1..];
    assert s[i] !in s[..i] && s[i] !in s[i + 1..];
  }

  /** An entry at two positions counts at least twice. */
  lemma CountTwice<T>(s: seq<T>, i: nat, j: nat)
    requires i < j < |s| && s[i] == s[j]
    ensures multiset(s)[s[i]] >= 2
  {
    assert s == s[..i] + [s[i]] + s[i + 1..];
    assert s[i + 1..][j - i - 1] == s[i];
    assert s[i] in multiset(s[i + 1..]);
  }

  lemma {:induction false} CountConstant<T>(x: T, k: nat)
    ensures multiset(seq(k, _ => x)) == multiset{}[x := k]
  {
    var s := seq(k, _ => x);
    if k == 0 {
      assert s == [];
    } else {
      CountConstant(x, k - 1);
      assert s == [x] + seq(k - 1, _ => x);
    }
  }
}
