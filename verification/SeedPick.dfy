/**
 The distributed choice of the lowest transitions (`_bse_seed_program`): every shard sorts
 its (score, id) pairs and keeps the first few, the kept pairs are gathered and sorted again,
 and each pick becomes one unit row spread over the shards.
 */
module SeedPick {
  import opened Sequences
  import opened Indices
  import opened Wrappers

  datatype Score = Energy(e: real) | Infinite

  datatype Key = Key(score: Score, id: nat)

  /** Order by score, then by id. */
  predicate Le(a: Key, b: Key) {
    match (a.score, b.score)
    case (Energy(x), Energy(y)) => x < y || (x == y && a.id <= b.id)
    case (Energy(_), Infinite) => true
    case (Infinite, Energy(_)) => false
    case (Infinite, Infinite) => a.id <= b.id
  }

  ghost predicate Sorted(s: seq<Key>) {
    forall i, j :: 0 <= i < j < |s| ==> Le(s[i], s[j])
  }

  function Insert(x: Key, s: seq<Key>): (r: seq<Key>)
    ensures multiset(r) == multiset(s) + multiset{x} && |r| == |s| + 1
  {
    if s == [] then [x]
    else if Le(x, s[0]) then [x] + s
    else
      assert s == [s[0]] + s[1..];
      [s[0]] + Insert(x, s[1..])
  }

  function InsertAll(a: seq<Key>, s: seq<Key>): (r: seq<Key>)
    ensures multiset(r) == multiset(a) + multiset(s)
  {
    if a == [] then s
    else
      assert a == [a[0]] + a[1..];
      Insert(a[0], InsertAll(a[1..], s))
  }

  /** lax.sort of the pairs. */
  function Sort(s: seq<Key>): (r: seq<Key>)
    ensures multiset(r) == multiset(s) && |r| == |s|
  {
    var r := InsertAll(s, []);
    assert |multiset(r)| == |multiset(s)|;
    r
  }

  function Take(n: nat, s: seq<Key>): (r: seq<Key>)
    ensures |r| == if n <= |s| then n else |s|
  {
    if n <= |s| then s[..n] else s
  }

  // ---------------------------------------------------------------- sorting and cutting

  lemma {:induction false} InsertSorts(x: Key, s: seq<Key>)
    requires Sorted(s)
    ensures Sorted(Insert(x, s))
  {
    if s != [] && !Le(x, s[0]) {
      InsertSorts(x, s[1..]);
      var r := Insert(x, s[1..]);
      forall k | k in r
        ensures Le(s[0], k)
      {
        assert k in multiset(r);
        assert k == x || k in s[1..];
      }
    }
  }

  lemma {:induction false} InsertAllSorts(a: seq<Key>, s: seq<Key>)
    requires Sorted(s)
    ensures Sorted(InsertAll(a, s))
  {
    if a != [] {
      InsertAllSorts(a[1..], s);
      InsertSorts(a[0], InsertAll(a[1..], s));
    }
  }

  lemma SortSorts(s: seq<Key>)
    ensures Sorted(Sort(s))
  {
    InsertAllSorts(s, []);
  }

  /** The first of a sorted sequence is its least entry. */
  lemma LeastFirst(a: seq<Key>, k: Key)
    requires Sorted(a) && k in a
    ensures Le(a[0], k)
  {
  }

  lemma SameFirst(a: seq<Key>, b: seq<Key>)
    requires Sorted(a) && Sorted(b) && multiset(a) == multiset(b) && a != []
    ensures b != [] && a[0] == b[0]
  {
    assert a[0] in multiset(b) && |multiset(a)| == |multiset(b)|;
    assert b[0] in multiset(a);
    hide Sorted;
    LeastFirst(a, b[0]);
    LeastFirst(b, a[0]);
  }

  lemma SortedTail(a: seq<Key>)
    requires Sorted(a) && a != []
    ensures Sorted(a[1..])
  {
    hide Le;
  }

  /** There is only one sorted arrangement. */
  lemma {:induction false} SortedIsUnique(a: seq<Key>, b: seq<Key>)
    requires Sorted(a) && Sorted(b) && multiset(a) == multiset(b)
    ensures a == b
  {
    if a == [] {
      assert |multiset(b)| == 0;
    } else {
      SameFirst(a, b);
      SortedTail(a);
      SortedTail(b);
      hide Sorted;
      assert a == [a[0]] + a[1..] && b == [b[0]] + b[1..];
      assert multiset(a[1..]) == multiset(a) - multiset{a[0]};
      assert multiset(b[1..]) == multiset(b) - multiset{b[0]};
      SortedIsUnique(a[1..], b[1..]);
    }
  }

  lemma SortOfMultiset(a: seq<Key>, b: seq<Key>)
    requires multiset(a) == multiset(b)
    ensures Sort(a) == Sort(b)
  {
    SortSorts(a);
    SortSorts(b);
    SortedIsUnique(Sort(a), Sort(b));
  }

  lemma SortFixesSorted(s: seq<Key>)
    requires Sorted(s)
    ensures Sort(s) == s
  {
    SortSorts(s);
    SortedIsUnique(Sort(s), s);
  }

  lemma SortOfConcat(a: seq<Key>, b: seq<Key>)
    ensures Sort(a + b) == InsertAll(a, Sort(b))
  {
    SortSorts(b);
    InsertAllSorts(a, Sort(b));
    SortSorts(a + b);
    SortedIsUnique(Sort(a + b), InsertAll(a, Sort(b)));
  }

  lemma TakeCons(n: nat, x: Key, s: seq<Key>)
    requires n > 0
    ensures Take(n, [x] + s) == [x] + Take(n - 1, s)
  {
  }

  /** The first n after an insertion need only the first n before it. */
  lemma {:induction false} TakeInsert(n: nat, x: Key, s: seq<Key>)
    ensures Take(n, Insert(x, s)) == Take(n, Insert(x, Take(n, s)))
    decreases |s|
  {
    if n > 0 && s != [] {
      var rest := s[1..];
      assert s == [s[0]] + rest;
      TakeCons(n, s[0], rest);
      if Le(x, s[0]) {
        TakeCons(n, x, s);
        TakeCons(n, x, Take(n, s));
        if n > 1 { TakeCons(n - 1, s[0], rest); TakeCons(n - 1, s[0], Take(n - 1, rest)); }
      } else {
        TakeInsert(n - 1, x, rest);
        TakeCons(n, s[0], Insert(x, rest));
        TakeCons(n, s[0], Insert(x, Take(n - 1, rest)));
        assert ([s[0]] + Take(n - 1, rest))[1..] == Take(n - 1, rest);
      }
    }
  }

  lemma {:induction false} TakeInsertAll(n: nat, a: seq<Key>, s: seq<Key>)
    ensures Take(n, InsertAll(a, s)) == Take(n, InsertAll(a, Take(n, s)))
    decreases |a|
  {
    if a != [] {
      var t := Take(n, s);
      TakeInsertAll(n, a[1..], s);
      TakeInsert(n, a[0], InsertAll(a[1..], s));
      TakeInsert(n, a[0], InsertAll(a[1..], t));
    }
  }

  /** Cutting one part to its own first n does not change the first n of the whole. */
  lemma CutOnePart(n: nat, a: seq<Key>, b: seq<Key>)
    ensures Take(n, Sort(a + b)) == Take(n, Sort(a + Take(n, Sort(b))))
  {
    var t := Take(n, Sort(b));
    SortSorts(b);
    SortOfConcat(a, b);
    SortOfConcat(a, t);
    SortFixesSorted(t);
    TakeInsertAll(n, a, Sort(b));
  }

  function Concat(parts: seq<seq<Key>>): seq<Key> {
    if parts == [] then [] else parts[0] + Concat(parts[1..])
  }

  /** Every shard sorts its pairs and keeps the first n of them. */
  function Kept(n: nat, parts: seq<seq<Key>>): (r: seq<seq<Key>>)
    ensures |r| == |parts|
    ensures forall j :: 0 <= j < |r| ==> r[j] == Take(n, Sort(parts[j]))
  {
    seq(|parts|, j requires 0 <= j < |parts| => Take(n, Sort(parts[j])))
  }

  /** Sorting, cutting, gathering and sorting again gives the first n of all pairs. */
  lemma {:induction false} CutEveryPart(n: nat, parts: seq<seq<Key>>)
    ensures Take(n, Sort(Concat(Kept(n, parts)))) == Take(n, Sort(Concat(parts)))
    decreases |parts|
  {
    hide Take, Sort;
    if parts != [] {
      var head, rest := parts[0], Concat(parts[1..]);
      var head', rest' := Take(n, Sort(head)), Concat(Kept(n, parts[1..]));
      CutEveryPart(n, parts[1..]);
      assert Kept(n, parts)[1..] == Kept(n, parts[1..]);
      CutOnePart(n, head, rest);
      CutOnePart(n, head, rest');
      CutOnePart(n, rest', head);
      SortOfMultiset(head + rest', rest' + head);
      SortOfMultiset(head' + rest', rest' + head');
    }
  }

  // ---------------------------------------------------------------- the shards

  function Difference(a: Option<real>, b: Option<real>): Option<real> {
    if a.Some? && b.Some? then Some(a.value - b.value) else None
  }

  /**
   A px x py mesh of faces with lc x lv bands each; the logical window is nc x nv. A band energy
   that is not finite is none.
   */
  datatype Mesh = Mesh(px: nat, py: nat, nk: nat, lc: nat, lv: nat, nc: nat, nv: nat,
                       ec: (nat, nat) -> Option<real>, ev: (nat, nat) -> Option<real>) {
    predicate Valid() {
      0 < nc <= px * lc && 0 < nv <= py * lv
    }

    function Physical(): nat { nk * (nc * nv) }

    /** The computed index of a slot; only live slots have an index of their own. */
    function Index(k: nat, c: nat, v: nat): nat { (k * nc + c) * nv + v }

    predicate Live(c: nat, v: nat) { c < nc && v < nv }

    /** The pair of a slot: masked to infinity and to the out-of-range id where it is not live. */
    function PairOf(k: nat, c: nat, v: nat): Key {
      var e := Difference(ec(k, c), ev(k, v));
      Key(if Live(c, v) && e.Some? && e.value > 0.000000000001 then Energy(e.value) else Infinite,
          if Live(c, v) then Index(k, c, v) else Physical())
    }

    function Slots(): nat { nk * (lc * lv) }

    /** Mesh coordinates of the j-th shard in gather order. */
    function ShardAt(j: nat): (s: (nat, nat))
      requires j < px * py
      ensures s.0 < px && s.1 < py && Flat(s.0, py, s.1) == j
    {
      Decode(j, px, py);
      (j / py, j % py)
    }

    /** Entry p of shard j's flattened pairs. */
    function LocalPair(j: nat, p: nat): Key
      requires j < px * py && p < Slots()
    {
      var x := Unplace(p, nk, lc, lv);
      var s := ShardAt(j);
      PairOf(x.i, s.0 * lc + x.j, s.1 * lv + x.k)
    }

    function Shard(j: nat): (s: seq<Key>)
      requires j < px * py
      ensures |s| == Slots() && forall p :: 0 <= p < |s| ==> s[p] == LocalPair(j, p)
    {
      seq(Slots(), p requires 0 <= p < Slots() => LocalPair(j, p))
    }

    function Shards(): (s: seq<seq<Key>>)
      ensures |s| == px * py && forall j :: 0 <= j < |s| ==> s[j] == Shard(j)
    {
      seq(px * py, j requires 0 <= j < px * py => Shard(j))
    }

    /** The ids picked for the first `n` seed rows. */
    function Picks(n: nat): (ids: seq<nat>)
    {
      if n == Physical() then seq(n, u => u)
      else Ids(Take(n, Sort(Concat(Kept(n, Shards())))))
    }

    /** Entry of seed row `pick` at a slot of shard (x, y). */
    predicate Hot(pick: nat, x: nat, y: nat, k: nat, cl: nat, vl: nat) {
      var c, v := x * lc + cl, y * lv + vl;
      Index(k, c, v) == pick && Live(c, v)
    }

    /** The pairs of the logical window in id order: the reference, without any mesh. */
    function Reference(): (r: seq<Key>)
      ensures |r| == Physical() && forall u :: 0 <= u < |r| ==> r[u] == LivePair(u)
    {
      seq(Physical(), u requires 0 <= u < Physical() => LivePair(u))
    }

    function LivePair(u: nat): Key
      requires u < Physical()
    {
      var x := Unplace(u, nk, nc, nv);
      PairOf(x.i, x.j, x.k)
    }
  }

  function Ids(s: seq<Key>): (ids: seq<nat>)
    ensures |ids| == |s| && forall i :: 0 <= i < |s| ==> ids[i] == s[i].id
  {
    seq(|s|, i requires 0 <= i < |s| => s[i].id)
  }

  lemma LiveIndex(m: Mesh, k: nat, c: nat, v: nat)
    requires m.Live(c, v) && k < m.nk
    ensures m.Index(k, c, v) == Place(k, c, v, m.nc, m.nv) < m.Physical()
  {
    PlaceNested(k, c, v, m.nc, m.nv);
    PlaceInside(k, c, v, m.nk, m.nc, m.nv);
  }

  /** A live slot holds the reference pair of its index. */
  lemma LiveSlot(m: Mesh, k: nat, c: nat, v: nat)
    requires m.Live(c, v) && k < m.nk
    ensures m.Index(k, c, v) < m.Physical() && m.PairOf(k, c, v) == m.LivePair(m.Index(k, c, v))
    ensures m.PairOf(k, c, v).id == m.Index(k, c, v)
  {
    LiveIndex(m, k, c, v);
    UnplacePlace(k, c, v, m.nk, m.nc, m.nv);
  }

  lemma LivePairId(m: Mesh, u: nat)
    requires u < m.Physical()
    ensures m.LivePair(u).id == u
  {
    hide Unplace;
    var x := Unplace(u, m.nk, m.nc, m.nv);
    LiveIndex(m, x.i, x.j, x.k);
  }

  /** The slot of shard (x, y) that owns transition u. */
  datatype Slot = Slot(x: nat, y: nat, k: nat, cl: nat, vl: nat)

  /** Which face along one mesh axis holds band c, and where in it. */
  function FaceOf(c: nat, faces: nat, width: nat): (f: (nat, nat))
    requires c < faces * width
    ensures f.0 < faces && f.1 < width && f.0 * width + f.1 == c
  {
    Decode(c, faces, width);
    (c / width, c % width)
  }

  function Owner(m: Mesh, u: nat): (o: Slot)
    requires m.Valid() && u < m.Physical()
    ensures o.x < m.px && o.y < m.py && o.k < m.nk && o.cl < m.lc && o.vl < m.lv
    ensures Unplace(u, m.nk, m.nc, m.nv) == Triple(o.k, o.x * m.lc + o.cl, o.y * m.lv + o.vl)
  {
    var t := Unplace(u, m.nk, m.nc, m.nv);
    var c, v := FaceOf(t.j, m.px, m.lc), FaceOf(t.k, m.py, m.lv);
    Slot(c.0, v.0, t.i, c.1, v.1)
  }

  /**
   Each seed row has exactly one 1 across all shards: at the owner of the picked id, also
   where the computed index of a padding slot equals that id.
   */
  lemma SeedRowIsOneHot(m: Mesh, u: nat, s: Slot)
    requires m.Valid() && u < m.Physical()
    requires s.x < m.px && s.y < m.py && s.k < m.nk && s.cl < m.lc && s.vl < m.lv
    ensures m.Hot(u, s.x, s.y, s.k, s.cl, s.vl) <==> s == Owner(m, u)
  {
    hide Unplace, Place;
    var o := Owner(m, u);
    var c, v := s.x * m.lc + s.cl, s.y * m.lv + s.vl;
    LiveIndex(m, o.k, o.x * m.lc + o.cl, o.y * m.lv + o.vl);
    if m.Live(c, v) && m.Index(s.k, c, v) == u {
      LiveIndex(m, s.k, c, v);
      UnplacePlace(s.k, c, v, m.nk, m.nc, m.nv);
      FlatInjective(s.x, s.cl, o.x, o.cl, m.lc);
      FlatInjective(s.y, s.vl, o.y, o.vl, m.lv);
    }
  }

  /** Why the mask is needed: the padding slot after the last band computes the next k's first id. */
  lemma PaddingIndexCollides(m: Mesh, k: nat)
    ensures m.Index(k, m.nc, 0) == m.Index(k + 1, 0, 0)
  {
  }

  // ---------------------------------------------------------------- all pairs of all shards

  lemma {:induction false} ConcatAt(parts: seq<seq<Key>>, size: nat, j: nat, p: nat)
    requires forall i :: 0 <= i < |parts| ==> |parts[i]| == size
    requires j < |parts| && p < size
    ensures Flat(j, size, p) < |Concat(parts)| == |parts| * size
    ensures Concat(parts)[Flat(j, size, p)] == parts[j][p]
  {
    ConcatSize(parts, size);
    InTable(j, p, |parts|, size);
    if j > 0 {
      ConcatAt(parts[1..], size, j - 1, p);
      assert Flat(j, size, p) == size + Flat(j - 1, size, p);
    }
  }

  lemma {:induction false} ConcatSize(parts: seq<seq<Key>>, size: nat)
    requires forall i :: 0 <= i < |parts| ==> |parts[i]| == size
    ensures |Concat(parts)| == |parts| * size
  {
    if parts != [] {
      ConcatSize(parts[1..], size);
    }
  }

  function All(m: Mesh): seq<Key> { Concat(m.Shards()) }

  function SlotPair(m: Mesh, s: Slot): Key {
    m.PairOf(s.k, s.x * m.lc + s.cl, s.y * m.lv + s.vl)
  }

  ghost predicate InMesh(m: Mesh, s: Slot) {
    s.x < m.px && s.y < m.py && s.k < m.nk && s.cl < m.lc && s.vl < m.lv
  }

  /** Where a slot's pair stands in the concatenation. */
  function PositionOf(m: Mesh, s: Slot): nat
    requires s.y < m.py && s.k < m.nk && s.cl < m.lc && s.vl < m.lv
  {
    PlaceInside(s.k, s.cl, s.vl, m.nk, m.lc, m.lv);
    Flat(Flat(s.x, m.py, s.y), m.Slots(), Place(s.k, s.cl, s.vl, m.lc, m.lv))
  }

  lemma SlotStands(m: Mesh, s: Slot)
    requires InMesh(m, s)
    ensures PositionOf(m, s) < |All(m)| && All(m)[PositionOf(m, s)] == SlotPair(m, s)
  {
    hide Unplace, Place, Flat, Mesh.PairOf;
    InTable(s.x, s.y, m.px, m.py);
    DivMod(s.x, m.py, s.y);
    UnplacePlace(s.k, s.cl, s.vl, m.nk, m.lc, m.lv);
    ConcatAt(m.Shards(), m.Slots(), Flat(s.x, m.py, s.y), Place(s.k, s.cl, s.vl, m.lc, m.lv));
  }

  /** Every position of the concatenation belongs to one slot. */
  lemma PositionHasSlot(m: Mesh, g: nat) returns (s: Slot)
    requires g < |All(m)|
    ensures InMesh(m, s) && PositionOf(m, s) == g
  {
    hide Unplace, Place, Flat;
    ConcatSize(m.Shards(), m.Slots());
    var j, p := Decompose(g, m.px * m.py, m.Slots());
    var x, y := Decompose(j, m.px, m.py);
    var t := Unplace(p, m.nk, m.lc, m.lv);
    s := Slot(x, y, t.i, t.j, t.k);
  }

  function Pad(m: Mesh): Key { Key(Infinite, m.Physical()) }

  /** A live slot holds the pair of its index, any other slot the padding pair. */
  lemma SlotIsLiveOrPad(m: Mesh, s: Slot)
    requires m.Valid() && InMesh(m, s)
    ensures var c, v := s.x * m.lc + s.cl, s.y * m.lv + s.vl;
      if m.Live(c, v)
      then m.Index(s.k, c, v) < m.Physical() && SlotPair(m, s) == m.LivePair(m.Index(s.k, c, v))
      else SlotPair(m, s) == Pad(m)
  {
    hide Unplace, Mesh.LivePair;
    var c, v := s.x * m.lc + s.cl, s.y * m.lv + s.vl;
    if m.Live(c, v) {
      LiveSlot(m, s.k, c, v);
    }
  }

  lemma SlotEntry(m: Mesh, s: Slot)
    requires m.Valid() && InMesh(m, s)
    ensures SlotPair(m, s) == Pad(m) || SlotPair(m, s) in m.Reference()
  {
    hide SlotPair, Mesh.LivePair, Mesh.Index;
    SlotIsLiveOrPad(m, s);
    var c, v := s.x * m.lc + s.cl, s.y * m.lv + s.vl;
    if m.Live(c, v) {
      assert m.Reference()[m.Index(s.k, c, v)] == SlotPair(m, s);
    }
  }

  /** A slot holds the pair of transition u exactly when it owns u. */
  lemma SlotHolds(m: Mesh, s: Slot, u: nat)
    requires m.Valid() && InMesh(m, s) && u < m.Physical()
    ensures SlotPair(m, s) == m.LivePair(u) <==> s == Owner(m, u)
  {
    hide Unplace, Place, Mesh.LivePair, Mesh.PairOf, Mesh.Index, Mesh.Physical, Owner, SlotPair;
    var c, v := s.x * m.lc + s.cl, s.y * m.lv + s.vl;
    SlotIsLiveOrPad(m, s);
    SeedRowIsOneHot(m, u, s);
    LivePairId(m, u);
    if m.Live(c, v) {
      LivePairId(m, m.Index(s.k, c, v));
    }
  }

  lemma LiveCountsOnce(m: Mesh, u: nat)
    requires m.Valid() && u < m.Physical()
    ensures multiset(All(m))[m.LivePair(u)] == 1 == multiset(m.Reference())[m.LivePair(u)]
  {
    hide All, SlotPair, Mesh.LivePair;
    var o := Owner(m, u);
    SlotStands(m, o);
    SlotHolds(m, o, u);
    forall g | 0 <= g < |All(m)| && All(m)[g] == m.LivePair(u)
      ensures g == PositionOf(m, o)
    {
      var s := PositionHasSlot(m, g);
      SlotStands(m, s);
      SlotHolds(m, s, u);
    }
    CountOnce(All(m), PositionOf(m, o));
    forall w | 0 <= w < m.Physical() && m.Reference()[w] == m.LivePair(u)
      ensures w == u
    {
      LivePairId(m, w);
      LivePairId(m, u);
    }
    CountOnce(m.Reference(), u);
  }

  /** All shards together hold the reference pairs once each, and padding. */
  lemma AllIsReferenceAndPadding(m: Mesh)
    requires m.Valid()
    ensures var pads := seq(multiset(All(m))[Pad(m)], _ => Pad(m));
      multiset(All(m)) == multiset(m.Reference() + pads)
  {
    hide All, SlotPair, Mesh.LivePair, Mesh.Physical;
    var k := multiset(All(m))[Pad(m)];
    CountConstant(Pad(m), k);
    var whole := multiset(m.Reference()) + multiset{}[Pad(m) := k];
    forall key
      ensures multiset(All(m))[key] == whole[key]
    {
      if key in m.Reference() {
        var u :| 0 <= u < m.Physical() && m.Reference()[u] == key;
        LiveCountsOnce(m, u);
        LivePairId(m, u);
      } else if key in All(m) {
        var g :| 0 <= g < |All(m)| && All(m)[g] == key;
        var s := PositionHasSlot(m, g);
        SlotStands(m, s);
        SlotEntry(m, s);
        PadIsNotLive(m);
      } else {
        PadIsNotLive(m);
      }
    }
  }

  lemma PadIsNotLive(m: Mesh)
    ensures Pad(m) !in m.Reference()
  {
    hide Mesh.LivePair;
    if Pad(m) in m.Reference() {
      var u :| 0 <= u < m.Physical() && m.Reference()[u] == Pad(m);
      LivePairId(m, u);
    }
  }

  /** Padding sorts behind every live pair. */
  lemma SortedAll(m: Mesh)
    requires m.Valid()
    ensures exists pads :: Sort(All(m)) == Sort(m.Reference()) + pads
  {
    hide All, Mesh.LivePair, Mesh.Physical, Sort;
    var pads := seq(multiset(All(m))[Pad(m)], _ => Pad(m));
    var r := Sort(m.Reference());
    AllIsReferenceAndPadding(m);
    SortSorts(m.Reference());
    SortSorts(All(m));
    forall i | 0 <= i < |r|
      ensures Le(r[i], Pad(m))
    {
      ReferenceEntry(m, i);
    }
    assert Sorted(r + pads);
    SortedIsUnique(Sort(All(m)), r + pads);
  }

  /** Entries of the sorted reference are the live pairs of their ids. */
  lemma ReferenceEntry(m: Mesh, i: nat)
    requires i < |Sort(m.Reference())|
    ensures var key := Sort(m.Reference())[i]; key.id < m.Physical() && key == m.LivePair(key.id) && Le(key, Pad(m))
  {
    hide Sort, Mesh.LivePair;
    var key := Sort(m.Reference())[i];
    assert key in multiset(Sort(m.Reference()));
    assert key in m.Reference();
    var u :| 0 <= u < m.Physical() && m.Reference()[u] == key;
    LivePairId(m, u);
  }

  /**
   The picked ids are the first n of the logical window's pairs, whatever the mesh and its
   padding; the complete basis is picked in id order.
   */
  lemma PicksMatchReference(m: Mesh, n: nat)
    requires m.Valid() && n <= m.Physical()
    ensures n < m.Physical() ==> m.Picks(n) == Ids(Take(n, Sort(m.Reference())))
    ensures n == m.Physical() ==> forall u :: 0 <= u < n ==> m.Picks(n)[u] == u
  {
    if n < m.Physical() {
      CutEveryPart(n, m.Shards());
      SortedAll(m);
      var pads :| Sort(All(m)) == Sort(m.Reference()) + pads;
      assert Take(n, Sort(All(m))) == Take(n, Sort(m.Reference()));
    }
  }

  /** n different live ids are picked, in the order of their pairs, and before every other live one. */
  lemma PicksAreFirst(m: Mesh, n: nat)
    requires m.Valid() && n <= m.Physical()
    ensures |m.Picks(n)| == n && Distinct(m.Picks(n)) && InRange(m.Picks(n), m.Physical())
    ensures forall i, u :: 0 <= i < n && 0 <= u < m.Physical() && u !in m.Picks(n) ==>
      m.Picks(n)[i] < m.Physical() && Le(m.LivePair(m.Picks(n)[i]), m.LivePair(u))
    ensures n < m.Physical() ==> forall i, j :: 0 <= i < j < n ==> Le(m.LivePair(m.Picks(n)[i]), m.LivePair(m.Picks(n)[j]))
  {
    hide Sort, Mesh.LivePair, Mesh.Picks, Take;
    PicksMatchReference(m, n);
    if n == m.Physical() {
      WholeBasis(m);
    } else {
      SortSorts(m.Reference());
      var g := Sort(m.Reference());
      var ids := m.Picks(n);
      TakeFirst(n, g);
      forall i | 0 <= i < n
        ensures ids[i] == g[i].id < m.Physical() && g[i] == m.LivePair(ids[i])
      {
        ReferenceEntry(m, i);
      }
      forall i, j | 0 <= i < j < n
        ensures ids[i] != ids[j]
      {
        if ids[i] == ids[j] {
          CountTwice(g, i, j);
          LiveCountsOnce(m, ids[i]);
        }
      }
      forall i, u | 0 <= i < n && 0 <= u < m.Physical() && u !in ids
        ensures Le(m.LivePair(ids[i]), m.LivePair(u))
      {
        assert m.Reference()[u] in multiset(g);
        var b :| 0 <= b < |g| && g[b] == m.LivePair(u);
        LivePairId(m, u);
      }
    }
  }

  // ---------------------------------------------------------------- in terms of the band energies

  /** Conduction energy less valence energy of transition u, if both are finite. */
  ghost function Gap(m: Mesh, u: nat): Option<real>
    requires u < m.Physical()
  {
    var x := Unplace(u, m.nk, m.nc, m.nv);
    var c, v := m.ec(x.i, x.j), m.ev(x.i, x.k);
    if c.None? || v.None? then None else Some(c.value - v.value)
  }

  /** A transition that counts: a finite energy above the threshold. */
  ghost predicate Opens(m: Mesh, u: nat)
    requires u < m.Physical()
  {
    Gap(m, u).Some? && Gap(m, u).value > 0.000000000001
  }

  /** p before u: transitions that count by energy, equal ones and the rest by index. */
  ghost predicate Before(m: Mesh, p: nat, u: nat)
    requires p < m.Physical() && u < m.Physical()
  {
    if Opens(m, u) then Opens(m, p) && (Gap(m, p).value < Gap(m, u).value || (Gap(m, p).value == Gap(m, u).value && p < u))
    else Opens(m, p) || p < u
  }

  lemma PairsCompare(m: Mesh, p: nat, u: nat)
    requires p < m.Physical() && u < m.Physical() && p != u
    ensures Le(m.LivePair(p), m.LivePair(u)) <==> Before(m, p, u)
  {
    hide Unplace;
    LivePairId(m, p);
    LivePairId(m, u);
  }

  /**
   n different transitions are picked, the one with the lowest energy above the threshold first:
   each picked one comes before each later one and before every transition left out.
   */
  lemma PicksAreLowest(m: Mesh, n: nat)
    requires m.Valid() && n <= m.Physical()
    ensures |m.Picks(n)| == n && Distinct(m.Picks(n)) && InRange(m.Picks(n), m.Physical())
    ensures forall p, u :: p in m.Picks(n) && 0 <= u < m.Physical() && u !in m.Picks(n) ==> Before(m, p, u)
    ensures n < m.Physical() ==> forall i, j :: 0 <= i < j < n ==> Before(m, m.Picks(n)[i], m.Picks(n)[j])
  {
    hide Mesh.LivePair, Mesh.Picks, Le, Before;
    PicksAreFirst(m, n);
    var ids := m.Picks(n);
    forall p, u | p in ids && 0 <= u < m.Physical() && u !in ids
      ensures Before(m, p, u)
    {
      var i :| 0 <= i < n && ids[i] == p;
      PairsCompare(m, ids[i], u);
    }
    forall i, j | 0 <= i < j < n && n < m.Physical()
      ensures Before(m, ids[i], ids[j])
    {
      PairsCompare(m, ids[i], ids[j]);
    }
  }

  lemma TakeFirst(n: nat, s: seq<Key>)
    requires n <= |s|
    ensures |Take(n, s)| == n && forall i :: 0 <= i < n ==> Take(n, s)[i] == s[i]
  {
  }

  lemma WholeBasis(m: Mesh)
    ensures var ids := m.Picks(m.Physical());
      |ids| == m.Physical() && forall u: nat :: u < m.Physical() ==> ids[u] == u && u in ids
  {
    var ids := m.Picks(m.Physical());
    forall u: nat | u < m.Physical()
      ensures ids[u] == u && u in ids
    {
      assert ids[u] == u;
    }
  }
}
