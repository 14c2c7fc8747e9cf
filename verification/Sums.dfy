/** Sums of real sequences, and their independence of the order of the terms. */
module Sums {
  import opened Sequences

  function Total(s: seq<real>): real {
    if s == [] then 0.0 else s[0] + Total(s[1..])
  }

  lemma {:induction false} TotalConcat(a: seq<real>, b: seq<real>)
    ensures Total(a + b) == Total(a) + Total(b)
  {
    if a == [] {
      assert a + b == b;
    } else {
      TotalConcat(a[1..], b);
      assert (a + b)[1..] == a[1..] + b;
    }
  }

  lemma {:induction false} TotalAround(a: seq<real>, x: real, b: seq<real>)
    ensures Total(a + ([x] + b)) == x + Total(a + b)
  {
    if a == [] {
      assert a + ([x] + b) == [x] + b && a + b == b;
      assert ([x] + b)[1..] == b;
    } else {
      assert (a + ([x] + b))[1..] == a[1..] + ([x] + b) && (a + b)[1..] == a[1..] + b;
      TotalAround(a[1..], x, b);
    }
  }

  lemma TotalWithout(s: seq<real>, j: nat)
    requires j < |s|
    ensures Total(s) == s[j] + Total(Without(s, j))
  {
    hide Total;
    TotalAround(s[..j], s[j], s[j + 1..]);
    assert s == s[..j] + ([s[j]] + s[j + 1..]);
  }

  /** A sum does not depend on the order of its terms. */
  lemma {:induction false} TotalOfMultiset(a: seq<real>, b: seq<real>)
    requires multiset(a) == multiset(b)
    ensures Total(a) == Total(b)
  {
    hide Without;
    if a == [] {
      assert |multiset(b)| == 0;
    } else {
      assert a[0] in multiset(b);
      var j :| 0 <= j < |b| && b[j] == a[0];
      WithoutFirst(a, b, j);
      TotalOfMultiset(a[1..], Without(b, j));
      TotalWithout(b, j);
    }
  }

  function Added(a: seq<real>, b: seq<real>): (r: seq<real>)
    requires |a| == |b|
    ensures |r| == |a| && forall i :: 0 <= i < |r| ==> r[i] == a[i] + b[i]
  {
    seq(|a|, i requires 0 <= i < |a| => a[i] + b[i])
  }

  lemma {:induction false} TotalAdded(a: seq<real>, b: seq<real>)
    requires |a| == |b|
    ensures Total(Added(a, b)) == Total(a) + Total(b)
  {
    if a != [] {
      TotalAdded(a[1..], b[1..]);
      assert Added(a, b)[1..] == Added(a[1..], b[1..]);
    }
  }

  function Repeated(x: real, n: nat): real { x * (n as real) }

  lemma RepeatedOnce(x: real, n: nat)
    ensures Repeated(x, n + 1) == x + Repeated(x, n)
    ensures Repeated(x, 0) == Repeated(0.0, n) == 0.0
  {
  }

  lemma {:induction false} TotalConstant(s: seq<real>, c: real)
    requires forall i :: 0 <= i < |s| ==> s[i] == c
    ensures Total(s) == Repeated(c, |s|)
  {
    hide Repeated;
    if s == [] {
      RepeatedOnce(c, 0);
    } else {
      TotalConstant(s[1..], c);
      RepeatedOnce(c, |s[1..]|);
    }
  }

  function Quotient(x: real, d: real): real
    requires d != 0.0
  {
    x / d
  }

  lemma QuotientOfRepeated(x: real, n: nat)
    requires n != 0
    ensures Quotient(Repeated(x, n), n as real) == x
  {
  }

  function Divided(s: seq<real>, d: real): (r: seq<real>)
    requires d != 0.0
    ensures |r| == |s| && forall i :: 0 <= i < |r| ==> r[i] == Quotient(s[i], d)
  {
    seq(|s|, i requires 0 <= i < |s| => Quotient(s[i], d))
  }

  lemma {:induction false} TotalDivided(s: seq<real>, d: real)
    requires d != 0.0
    ensures Total(Divided(s, d)) == Quotient(Total(s), d)
  {
    if s != [] {
      TotalDivided(s[1..], d);
      assert Divided(s, d)[1..] == Divided(s[1..], d);
      assert (s[0] + Total(s[1..])) / d == s[0] / d + Total(s[1..]) / d;
    }
  }
}
