/**
 The list of non-interacting transitions: the plain triple loop of `bgw_noeh_lines` and the
 streaming writer `write_bgw_eigenvalues_noeh`, which decodes 1024-transition blocks and sums
 values over the shards that own them.
 */
module NoehWriter {
  import opened Complex
  import opened Indices

  /** One record before formatting: 1-based indices, energies, their difference and the dipole. */
  datatype Line = Line(ik: nat, ic: nat, iv: nat, spin: nat, ec: real, ev: real, eig: real, abs2: real, dipole: C)

  function Record(ik: nat, ic: nat, iv: nat, c: real, v: real, d: C): Line {
    Line(ik + 1, ic + 1, iv + 1, 1, c, v, c - v, Norm2(d), d)
  }

  /** Window energies; the valence axis ascends, the file counts it down. */
  datatype Window = Window(nk: nat, nc: nat, nv: nat, ec: seq<seq<real>>, ev: seq<seq<real>>) {
    predicate Valid() {
      && |ec| == |ev| == nk
      && (forall k :: 0 <= k < nk ==> |ec[k]| == nc && |ev[k]| == nv)
    }

    function Size(): nat { nk * (nc * nv) }

    /** The record of transition (ik, ic, iv). */
    function At(dipole: (nat, nat, nat) -> C, ik: nat, ic: nat, iv: nat): Line
      requires Valid() && ik < nk && ic < nc && iv < nv
    {
      Record(ik, ic, iv, ec[ik][ic], ev[ik][nv - 1 - iv], dipole(ik, ic, nv - 1 - iv))
    }
  }

  /** Every transition stands at its place, and nothing else is there. */
  ghost predicate Lists(w: Window, dipole: (nat, nat, nat) -> C, lines: seq<Line>)
    requires w.Valid()
  {
    && |lines| == w.Size()
    && forall ik, ic, iv {:trigger w.At(dipole, ik, ic, iv)} :: 0 <= ik < w.nk && 0 <= ic < w.nc && 0 <= iv < w.nv ==>
         Place(ik, ic, iv, w.nc, w.nv) < |lines| && lines[Place(ik, ic, iv, w.nc, w.nv)] == w.At(dipole, ik, ic, iv)
  }

  /** The record that position t must hold, decoded. */
  function Decoded(w: Window, dipole: (nat, nat, nat) -> C, t: nat): Line
    requires w.Valid() && t < w.Size()
  {
    var x := Unplace(t, w.nk, w.nc, w.nv);
    w.At(dipole, x.i, x.j, x.k)
  }

  lemma DecodedLists(w: Window, dipole: (nat, nat, nat) -> C, lines: seq<Line>)
    requires w.Valid() && |lines| == w.Size()
    requires forall t :: 0 <= t < |lines| ==> lines[t] == Decoded(w, dipole, t)
    ensures Lists(w, dipole, lines)
  {
    hide Unplace, Place;
    forall ik, ic, iv | 0 <= ik < w.nk && 0 <= ic < w.nc && 0 <= iv < w.nv
      ensures Place(ik, ic, iv, w.nc, w.nv) < |lines|
      ensures lines[Place(ik, ic, iv, w.nc, w.nv)] == w.At(dipole, ik, ic, iv)
    {
      UnplacePlace(ik, ic, iv, w.nk, w.nc, w.nv);
    }
  }

  /** The file is determined: two listings are the same sequence. */
  lemma ListingIsUnique(w: Window, dipole: (nat, nat, nat) -> C, a: seq<Line>, b: seq<Line>)
    requires w.Valid() && Lists(w, dipole, a) && Lists(w, dipole, b)
    ensures a == b
  {
    hide Unplace, Place;
    forall t | 0 <= t < |a|
      ensures a[t] == b[t]
    {
      var x := Unplace(t, w.nk, w.nc, w.nv);
      var l := w.At(dipole, x.i, x.j, x.k);
    }
  }

  /**
   A line of a listing: 1-based indices, spin 1, the conduction energy, the valence energy and the
   dipole of a valence band counted down from the top, the difference and the squared modulus.
   */
  predicate Describes(w: Window, dipole: (nat, nat, nat) -> C, l: Line)
    requires w.Valid()
  {
    && 1 <= l.ik <= w.nk && 1 <= l.ic <= w.nc && 1 <= l.iv <= w.nv && l.spin == 1
    && l.ec == w.ec[l.ik - 1][l.ic - 1] && l.ev == w.ev[l.ik - 1][w.nv - l.iv] && l.eig + l.ev == l.ec
    && l.dipole == dipole(l.ik - 1, l.ic - 1, w.nv - l.iv)
    && l.abs2 == l.dipole.re * l.dipole.re + l.dipole.im * l.dipole.im
  }

  /** Every line describes its transition, and the lines count k first, then c, then v. */
  lemma ListedLine(w: Window, dipole: (nat, nat, nat) -> C, lines: seq<Line>, t: nat)
    requires w.Valid() && Lists(w, dipole, lines) && t < |lines|
    ensures Describes(w, dipole, lines[t])
    ensures t == ((lines[t].ik - 1) * w.nc + (lines[t].ic - 1)) * w.nv + lines[t].iv - 1
  {
    hide Unplace, Place;
    var x := Unplace(t, w.nk, w.nc, w.nv);
    assert lines[t] == w.At(dipole, x.i, x.j, x.k);
    PlaceNested(x.i, x.j, x.k, w.nc, w.nv);
  }

  /** The plain triple loop; `shaped` says whether the dipole array has the window's shape. */
  method NoehLines(w: Window, dipole: (nat, nat, nat) -> C, shaped: bool) returns (ok: bool, lines: seq<Line>)
    requires w.Valid()
    ensures ok == shaped
    ensures ok ==> Lists(w, dipole, lines)
  {
    lines := [];
    if !shaped {
      return false, [];
    }
    for ik := 0 to w.nk
      invariant |lines| == ik * (w.nc * w.nv) <= w.Size()
      invariant forall t :: 0 <= t < |lines| ==> lines[t] == Decoded(w, dipole, t)
    {
      MulMonotone(ik + 1, w.nk, w.nc * w.nv);
      for ic := 0 to w.nc
        invariant |lines| == ik * (w.nc * w.nv) + ic * w.nv <= w.Size()
        invariant forall t :: 0 <= t < |lines| ==> lines[t] == Decoded(w, dipole, t)
      {
        MulMonotone(ic + 1, w.nc, w.nv);
        assert (ik + 1) * (w.nc * w.nv) == ik * (w.nc * w.nv) + w.nc * w.nv;
        for iv := 0 to w.nv
          invariant |lines| == ik * (w.nc * w.nv) + ic * w.nv + iv
          invariant |lines| <= w.Size()
          invariant forall t :: 0 <= t < |lines| ==> lines[t] == Decoded(w, dipole, t)
        {
          UnplacePlace(ik, ic, iv, w.nk, w.nc, w.nv);
          assert |lines| == Place(ik, ic, iv, w.nc, w.nv);
          lines := lines + [w.At(dipole, ik, ic, iv)];
        }
      }
    }
    DecodedLists(w, dipole, lines);
    return true, lines;
  }

  // ---------------------------------------------------------------- values owned by shards

  /** A dipole array cut into (c, v) tiles over a px x py mesh; `local` reads one shard's tile. */
  datatype Sharded = Sharded(px: nat, py: nat, tc: nat, tv: nat,
                             local: (nat, nat, nat, nat, nat, nat) -> C) {
    /** The tiles cover the window, padding allowed. */
    predicate Covers(nc: nat, nv: nat) {
      tc > 0 && tv > 0 && nc <= px * tc && nv <= py * tv
    }

    /** The global entry (polarization, ik, c, v). */
    function Value(p: nat, ik: nat, c: nat, v: nat): C
      requires tc > 0 && tv > 0
    {
      local(c / tc, v / tv, p, ik, c % tc, v % tv)
    }

    predicate Owned(x: nat, y: nat, c: nat, v: nat) {
      x * tc <= c < x * tc + tc && y * tv <= v < y * tv + tv
    }

    /** What shard (x, y) contributes for one requested entry: its clipped value, or zero. */
    function Masked(x: nat, y: nat, p: nat, ik: nat, c: nat, v: nat): C
      requires tc > 0 && tv > 0
    {
      var read := local(x, y, p, ik, Clip(c - x * tc, tc), Clip(v - y * tv, tv));
      if Owned(x, y, c, v) then read else ZERO
    }
  }

  /** An index inside the tile: i itself if it is one. */
  function Clip(i: int, n: nat): (r: nat)
    requires n > 0
    ensures r < n && (0 <= i < n ==> r == i)
  {
    if i < 0 then 0 else if i > n - 1 then n - 1 else i
  }

  /** psum over the y axis of one mesh row, from column y on. */
  function SumY(s: Sharded, x: nat, y: nat, p: nat, ik: nat, c: nat, v: nat): C
    requires s.tc > 0 && s.tv > 0 && y <= s.py
    decreases s.py - y
  {
    if y == s.py then ZERO else Add(s.Masked(x, y, p, ik, c, v), SumY(s, x, y + 1, p, ik, c, v))
  }

  /** psum over both axes, from mesh row x on. */
  function SumXY(s: Sharded, x: nat, p: nat, ik: nat, c: nat, v: nat): C
    requires s.tc > 0 && s.tv > 0 && x <= s.px
    decreases s.px - x
  {
    if x == s.px then ZERO else Add(SumY(s, x, 0, p, ik, c, v), SumXY(s, x + 1, p, ik, c, v))
  }

  /** One owner: the shard whose tile holds the entry. */
  lemma OneOwner(s: Sharded, x: nat, y: nat, c: nat, v: nat)
    requires s.tc > 0 && s.tv > 0
    ensures s.Owned(x, y, c, v) <==> x == c / s.tc && y == v / s.tv
  {
    OwnerAlongAxis(x, c, s.tc);
    OwnerAlongAxis(y, v, s.tv);
  }

  lemma OwnerAlongAxis(x: nat, c: nat, t: nat)
    requires t > 0
    ensures x * t <= c < x * t + t <==> x == c / t
  {
    assert c == (c / t) * t + c % t;
    if x * t <= c < x * t + t {
      DivMod(x, t, c - x * t);
    }
  }

  ghost predicate HasOwner(s: Sharded, c: nat, v: nat) {
    exists x: nat, y: nat :: x < s.px && y < s.py && s.Owned(x, y, c, v)
  }

  /** Along one axis: the last index of n is in one of the first p tiles exactly when they reach n. */
  lemma AxisCovered(n: nat, p: nat, t: nat)
    requires n > 0 && t > 0
    ensures n <= p * t <==> (n - 1) / t < p
  {
    var last: nat := n - 1;
    assert last == (last / t) * t + last % t;
    if last / t < p {
      MulMonotone(last / t + 1, p, t);
    } else {
      MulMonotone(p, last / t, t);
    }
  }

  lemma OwnedBy(s: Sharded, c: nat, v: nat)
    requires s.tc > 0 && s.tv > 0
    ensures HasOwner(s, c, v) <==> c / s.tc < s.px && v / s.tv < s.py
  {
    hide Sharded.Owned;
    OneOwner(s, c / s.tc, v / s.tv, c, v);
    if HasOwner(s, c, v) {
      var x: nat, y: nat :| x < s.px && y < s.py && s.Owned(x, y, c, v);
      OneOwner(s, x, y, c, v);
    }
  }

  lemma EntryCovered(s: Sharded, nc: nat, nv: nat, c: nat, v: nat)
    requires s.Covers(nc, nv) && c < nc && v < nv
    ensures HasOwner(s, c, v)
  {
    Decode(c, s.px, s.tc);
    Decode(v, s.py, s.tv);
    OwnedBy(s, c, v);
    hide *;
  }

  /** The tiles cover a window exactly when every entry of it has an owner on the mesh. */
  lemma CoversIffOwned(s: Sharded, nc: nat, nv: nat)
    requires nc > 0 && nv > 0
    ensures s.Covers(nc, nv) <==>
      s.tc > 0 && s.tv > 0 && forall c: nat, v: nat :: c < nc && v < nv ==> HasOwner(s, c, v)
  {
    hide HasOwner;
    if s.tc > 0 && s.tv > 0 {
      AxisCovered(nc, s.px, s.tc);
      AxisCovered(nv, s.py, s.tv);
      var c: nat, v: nat := nc - 1, nv - 1;
      OwnedBy(s, c, v);
    }
    if s.Covers(nc, nv) {
      forall c: nat, v: nat | c < nc && v < nv
        ensures HasOwner(s, c, v)
      {
        EntryCovered(s, nc, nv, c, v);
      }
    }
  }

  lemma MaskedIsValue(s: Sharded, x: nat, y: nat, p: nat, ik: nat, c: nat, v: nat)
    requires s.tc > 0 && s.tv > 0
    ensures s.Masked(x, y, p, ik, c, v) == if x == c / s.tc && y == v / s.tv then s.Value(p, ik, c, v) else ZERO
  {
    OneOwner(s, x, y, c, v);
    if s.Owned(x, y, c, v) {
      assert c == (c / s.tc) * s.tc + c % s.tc;
      assert v == (v / s.tv) * s.tv + v % s.tv;
    }
  }

  /** Only shard (cx, cy) contributes, namely `value`. */
  ghost predicate OnlyFrom(s: Sharded, p: nat, ik: nat, c: nat, v: nat, cx: nat, cy: nat, value: C)
    requires s.tc > 0 && s.tv > 0
  {
    forall x: nat, y: nat :: s.Masked(x, y, p, ik, c, v) == if x == cx && y == cy then value else ZERO
  }

  lemma OnlyFromAt(s: Sharded, p: nat, ik: nat, c: nat, v: nat, cx: nat, cy: nat, value: C, x: nat, y: nat)
    requires s.tc > 0 && s.tv > 0 && OnlyFrom(s, p, ik, c, v, cx, cy, value)
    ensures s.Masked(x, y, p, ik, c, v) == if x == cx && y == cy then value else ZERO
  {
    hide Sharded.Masked;
  }

  lemma {:induction false} SumYFrom(s: Sharded, x: nat, y: nat, p: nat, ik: nat, c: nat, v: nat, cx: nat, cy: nat, value: C)
    requires s.tc > 0 && s.tv > 0 && y <= s.py && cy < s.py && OnlyFrom(s, p, ik, c, v, cx, cy, value)
    ensures SumY(s, x, y, p, ik, c, v) == if x == cx && y <= cy then value else ZERO
    decreases s.py - y
  {
    hide Sharded.Masked, OnlyFrom, Add;
    if y < s.py {
      OnlyFromAt(s, p, ik, c, v, cx, cy, value, x, y);
      SumYFrom(s, x, y + 1, p, ik, c, v, cx, cy, value);
      AddZero(SumY(s, x, y + 1, p, ik, c, v));
      AddZero(value);
    }
  }

  lemma {:induction false} SumXYFrom(s: Sharded, x: nat, p: nat, ik: nat, c: nat, v: nat, cx: nat, cy: nat, value: C)
    requires s.tc > 0 && s.tv > 0 && x <= s.px && cx < s.px && cy < s.py && OnlyFrom(s, p, ik, c, v, cx, cy, value)
    ensures SumXY(s, x, p, ik, c, v) == if x <= cx then value else ZERO
    decreases s.px - x
  {
    hide SumY, OnlyFrom, Add;
    if x < s.px {
      SumYFrom(s, x, 0, p, ik, c, v, cx, cy, value);
      SumXYFrom(s, x + 1, p, ik, c, v, cx, cy, value);
      AddZero(SumXY(s, x + 1, p, ik, c, v));
      AddZero(value);
    }
  }

  /** Summing the masked contributions of all shards gives the entry itself, for any padding. */
  lemma ShardSumIsTheValue(s: Sharded, nc: nat, nv: nat, p: nat, ik: nat, c: nat, v: nat)
    requires s.Covers(nc, nv) && c < nc && v < nv
    ensures SumXY(s, 0, p, ik, c, v) == s.Value(p, ik, c, v)
  {
    Decode(c, s.px, s.tc);
    Decode(v, s.py, s.tv);
    forall x: nat, y: nat
      ensures s.Masked(x, y, p, ik, c, v) == if x == c / s.tc && y == v / s.tv then s.Value(p, ik, c, v) else ZERO
    {
      MaskedIsValue(s, x, y, p, ik, c, v);
    }
    hide Sharded.Masked, Sharded.Value;
    SumXYFrom(s, 0, p, ik, c, v, c / s.tc, v / s.tv, s.Value(p, ik, c, v));
  }

  // ---------------------------------------------------------------- the streaming writer

  const BLOCK: nat := 1024
  const INT32_LIMIT: nat := 0x8000_0000

  /** Host arrays are indexed directly; device arrays go through the shards. */
  datatype Source = Host(values: (nat, nat, nat, nat) -> C) | Device(shards: Sharded)

  /** The dipole of polarization p, as the program means it. */
  function Dipole(d: Source, p: nat): (nat, nat, nat) -> C {
    (ik: nat, c: nat, v: nat) =>
      if d.Host? then d.values(p, ik, c, v)
      else if d.shards.tc > 0 && d.shards.tv > 0 then d.shards.Value(p, ik, c, v) else ZERO
  }

  /** The value fetched for flat index t. */
  function Fetched(w: Window, d: Source, p: nat, t: nat): (c: C)
    requires w.Valid() && t < w.Size() && (d.Device? ==> d.shards.Covers(w.nc, w.nv))
    ensures var x := Unplace(t, w.nk, w.nc, w.nv); c == Dipole(d, p)(x.i, x.j, w.nv - 1 - x.k)
  {
    var x := Unplace(t, w.nk, w.nc, w.nv);
    var c, v := x.j, w.nv - 1 - x.k;
    if d.Host? then d.values(p, x.i, c, v)
    else
      ShardSumIsTheValue(d.shards, w.nc, w.nv, p, x.i, c, v);
      SumXY(d.shards, 0, p, x.i, c, v)
  }

  /** The values of one block, one row per polarization. */
  function Gathered(w: Window, d: Source, nPol: nat, start: nat, stop: nat): (values: seq<seq<C>>)
    requires w.Valid() && start <= stop <= w.Size() && (d.Device? ==> d.shards.Covers(w.nc, w.nv))
    ensures |values| == nPol && forall p :: 0 <= p < nPol ==> |values[p]| == stop - start
    ensures forall p, k {:trigger values[p][k]} :: 0 <= p < nPol && 0 <= k < stop - start ==>
      values[p][k] == Fetched(w, d, p, start + k)
  {
    seq(nPol, p requires 0 <= p < nPol =>
      seq(stop - start, k requires 0 <= k < stop - start => Fetched(w, d, p, start + k)))
  }

  /** Decode one flat index and append its record to every file. */
  method WriteRecord(files: seq<seq<Line>>, w: Window, d: Source, t: nat, column: seq<C>) returns (out: seq<seq<Line>>)
    requires w.Valid() && t < w.Size() && (d.Device? ==> d.shards.Covers(w.nc, w.nv)) && |column| == |files|
    requires forall p :: 0 <= p < |files| ==> column[p] == Fetched(w, d, p, t)
    ensures |out| == |files|
    ensures forall p :: 0 <= p < |files| ==> out[p] == files[p] + [Decoded(w, Dipole(d, p), t)]
  {
    var x := Unplace(t, w.nk, w.nc, w.nv);
    var (ik, ic, iv) := (x.i, x.j, x.k);
    hide Unplace;
    out := [];
    for p := 0 to |files|
      invariant |out| == p
      invariant forall q :: 0 <= q < p ==> out[q] == files[q] + [Decoded(w, Dipole(d, q), t)]
    {
      out := out + [files[p] + [Record(ik, ic, iv, w.ec[ik][ic], w.ev[ik][w.nv - 1 - iv], column[p])]];
    }
  }

  /** Each file holds the first `count` records. */
  ghost predicate Written(w: Window, d: Source, files: seq<seq<Line>>, count: nat)
    requires w.Valid()
  {
    count <= w.Size() && forall p :: 0 <= p < |files| ==>
      |files[p]| == count && forall t :: 0 <= t < count ==> files[p][t] == Decoded(w, Dipole(d, p), t)
  }

  lemma NextBlock(start: nat)
    requires start % BLOCK == 0
    ensures (start + BLOCK) % BLOCK == 0
    ensures start < INT32_LIMIT ==> start + BLOCK <= INT32_LIMIT
    ensures start <= INT32_LIMIT < start + BLOCK ==> start == INT32_LIMIT
  {
  }

  lemma NoneWritten(w: Window, d: Source, files: seq<seq<Line>>)
    requires w.Valid() && forall p :: 0 <= p < |files| ==> files[p] == []
    ensures Written(w, d, files, 0)
  {
    hide Decoded, Dipole, Window.Size;
  }

  lemma AllWritten(w: Window, d: Source, files: seq<seq<Line>>, p: nat)
    requires w.Valid() && Written(w, d, files, w.Size()) && p < |files|
    ensures Lists(w, Dipole(d, p), files[p])
  {
    hide Decoded, Dipole, Window.Size;
    DecodedLists(w, Dipole(d, p), files[p]);
  }

  /** Append the records of one block to every file. */
  method WriteBlock(before: seq<seq<Line>>, w: Window, d: Source, start: nat, stop: nat, values: seq<seq<C>>)
    returns (files: seq<seq<Line>>)
    requires w.Valid() && (d.Device? ==> d.shards.Covers(w.nc, w.nv)) && start <= stop <= w.Size()
    requires Written(w, d, before, start) && |values| == |before|
    requires forall p :: 0 <= p < |values| ==> |values[p]| == stop - start
    requires forall p, k {:trigger values[p][k]} :: 0 <= p < |values| && 0 <= k < stop - start ==>
      values[p][k] == Fetched(w, d, p, start + k)
    ensures |files| == |before| && Written(w, d, files, stop)
  {
    hide Decoded, Fetched, Dipole, Window.Size;
    files := before;
    for k := 0 to stop - start
      invariant |files| == |before| && Written(w, d, files, start + k)
    {
      var column := seq(|before|, p requires 0 <= p < |before| => values[p][k]);
      files := WriteRecord(files, w, d, start + k, column);
    }
  }

  /**
   The device branch decodes with 32-bit integers: a block that starts past the last of them, or a
   divisor nc nv among them that is none, is an overflow.
   */
  predicate Overflows(w: Window, d: Source) {
    d.Device? && w.Size() > 0 && (w.nc * w.nv >= INT32_LIMIT || w.Size() > INT32_LIMIT)
  }

  /**
   One file per polarization, in blocks of at most 1024 transitions.  After an overflow the files end
   where the failed block would have started: at the very first when the divisor is too large.
   */
  method WriteNoeh(w: Window, d: Source, nPol: nat) returns (overflow: bool, files: seq<seq<Line>>)
    requires w.Valid() && (d.Device? ==> d.shards.Covers(w.nc, w.nv))
    ensures overflow <==> Overflows(w, d)
    ensures |files| == nPol
    ensures !overflow ==> forall p :: 0 <= p < nPol ==> Lists(w, Dipole(d, p), files[p])
    ensures overflow ==> Written(w, d, files, if w.nc * w.nv >= INT32_LIMIT then 0 else INT32_LIMIT)
  {
    var total := w.Size();
    files := seq(nPol, _ => []);
    overflow := false;
    hide Decoded, Fetched, Dipole, Lists, Window.Size, Window.Valid, Sharded.Covers, Written;
    NoneWritten(w, d, files);
    var start := 0;
    while start < total
      invariant start % BLOCK == 0 && |files| == nPol
      invariant d.Device? ==> start <= INT32_LIMIT
      invariant d.Device? && w.nc * w.nv >= INT32_LIMIT ==> start == 0
      invariant Written(w, d, files, if start < total then start else total)
    {
      NextBlock(start);
      var stop := if start + BLOCK < total then start + BLOCK else total;
      if d.Device? && (w.nc * w.nv >= INT32_LIMIT || stop - 1 >= INT32_LIMIT) {
        return true, files;
      }
      var values := Gathered(w, d, nPol, start, stop);
      files := WriteBlock(files, w, d, start, stop, values);
      start := start + BLOCK;
    }
    forall p | 0 <= p < nPol
      ensures Lists(w, Dipole(d, p), files[p])
    {
      AllWritten(w, d, files, p);
    }
  }

  /** The streamed file of any polarization is the triple loop's, record for record. */
  method StreamAndLoop(w: Window, d: Source, nPol: nat, p: nat) returns (streamed: seq<Line>, looped: seq<Line>)
    requires w.Valid() && (d.Device? ==> d.shards.Covers(w.nc, w.nv)) && p < nPol && !Overflows(w, d)
    ensures streamed == looped && Lists(w, Dipole(d, p), looped)
  {
    var overflow, files := WriteNoeh(w, d, nPol);
    var ok, lines := NoehLines(w, Dipole(d, p), true);
    streamed, looped := files[p], lines;
    ListingIsUnique(w, Dipole(d, p), streamed, looped);
  }
}
