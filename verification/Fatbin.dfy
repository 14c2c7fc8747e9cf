/** The walker over a `.nv_fatbin` blob (`parse_fatbin`), with a writer it inverts. */
module Fatbin {

  type Byte = b: int | 0 <= b < 256

  type Bytes = seq<Byte>

  // ---------------------------------------------------------------- little-endian numbers

  function Pow256(w: nat): (p: nat)
    ensures p >= 1
  {
    if w == 0 then 1 else 256 * Pow256(w - 1)
  }

  function Decode(s: Bytes): nat {
    if s == [] then 0 else s[0] + 256 * Decode(s[1..])
  }

  function Encode(n: nat, w: nat): (s: Bytes)
    ensures |s| == w
  {
    if w == 0 then [] else [n % 256] + Encode(n / 256, w - 1)
  }

  lemma {:induction false} DecodeEncode(n: nat, w: nat)
    requires n < Pow256(w)
    ensures Decode(Encode(n, w)) == n
  {
    if w > 0 {
      assert n / 256 < Pow256(w - 1);
      DecodeEncode(n / 256, w - 1);
      assert Encode(n, w)[1..] == Encode(n / 256, w - 1);
    }
  }

  lemma {:induction false} ZerosDecode(w: nat)
    ensures forall i :: 0 <= i < w ==> Encode(0, w)[i] == 0
  {
    if w > 0 {
      ZerosDecode(w - 1);
    }
  }

  lemma {:induction false} ZerosDecodeInside(s: Bytes, o: nat, w: nat)
    requires o + w <= |s| && forall i :: 0 <= i < |s| ==> s[i] == 0
    ensures Decode(s[o..o + w]) == 0
    decreases w
  {
    if w > 0 {
      ZerosDecodeInside(s, o + 1, w - 1);
      assert s[o..o + w][1..] == s[o + 1..o + 1 + (w - 1)];
    }
  }

  lemma Widths()
    ensures Pow256(2) == 0x1_0000 && Pow256(4) == 0x1_0000_0000
  {
    assert Pow256(1) == 256;
    assert Pow256(3) == 256 * Pow256(2);
  }

  /** The w-byte number at offset o. */
  function Field(blob: Bytes, o: nat, w: nat): nat
    requires o + w <= |blob|
  {
    Decode(blob[o..o + w])
  }

  // ---------------------------------------------------------------- the walker

  const MAGIC: nat := 0xBA55_ED50

  datatype Kind = Ptx | Sass | Other(code: nat)

  function KindOf(code: nat): Kind {
    if code == 1 then Ptx else if code == 2 then Sass else Other(code)
  }

  datatype Item = Item(kind: Kind, arch: nat)

  predicate AtHeader(blob: Bytes, off: nat) {
    off + 16 <= |blob| && Field(blob, off, 4) == MAGIC
  }

  /** Where the region whose header is at `off` starts its entries, and where it ends. */
  function EntriesAt(blob: Bytes, off: nat): nat
    requires AtHeader(blob, off)
  {
    off + Field(blob, off + 6, 2)
  }

  function EndAt(blob: Bytes, off: nat): (end: nat)
    requires AtHeader(blob, off)
    ensures end >= off
  {
    EntriesAt(blob, off) + Field(blob, off + 8, 8)
  }

  function Min(a: nat, b: nat): nat { if a <= b then a else b }

  /** The entries read from e up to the region's end; an entry with an empty header stops them. */
  function Items(blob: Bytes, e: nat, end: nat): seq<Item>
    decreases |blob| - e
  {
    if e + 32 > Min(end, |blob|) then []
    else
      var ehsize := Field(blob, e + 4, 4);
      if ehsize == 0 then []
      else
        [Item(KindOf(Field(blob, e, 2)), Field(blob, e + 28, 4))] + Items(blob, e + ehsize + Field(blob, e + 8, 8), end)
  }

  /** The offset after one round of the outer loop; a finished walk stays put. */
  function Advance(blob: Bytes, off: nat): (next: nat)
    ensures next >= off
  {
    if off + 16 > |blob| then off
    else if AtHeader(blob, off) then EndAt(blob, off)
    else off + 8
  }

  /** What one round appends. */
  function Found(blob: Bytes, off: nat): seq<Item> {
    if AtHeader(blob, off) then Items(blob, EntriesAt(blob, off), EndAt(blob, off)) else []
  }

  /** The offset after n rounds from `off`. */
  function Position(blob: Bytes, off: nat, n: nat): nat
    decreases n
  {
    if n == 0 then off else Position(blob, Advance(blob, off), n - 1)
  }

  /** What n rounds from `off` append. */
  function Collected(blob: Bytes, off: nat, n: nat): seq<Item>
    decreases n
  {
    if n == 0 then [] else Found(blob, off) + Collected(blob, Advance(blob, off), n - 1)
  }

  predicate Done(blob: Bytes, off: nat) { off + 16 > |blob| }

  /** A header that claims neither header nor content bytes: the loop would stay there for ever. */
  predicate Stuck(blob: Bytes, off: nat) {
    AtHeader(blob, off) && EndAt(blob, off) == off
  }

  /** No round ever stands at such a header. */
  ghost predicate NeverStuck(blob: Bytes) {
    forall n: nat :: !Stuck(blob, Position(blob, 0, n))
  }

  ghost predicate Halts(blob: Bytes) {
    exists n: nat :: Done(blob, Position(blob, 0, n))
  }

  lemma {:induction false} PositionSplit(blob: Bytes, off: nat, a: nat, b: nat)
    ensures Position(blob, off, a + b) == Position(blob, Position(blob, off, a), b)
    ensures Collected(blob, off, a + b) == Collected(blob, off, a) + Collected(blob, Position(blob, off, a), b)
    decreases a
  {
    hide Advance, Found;
    if a > 0 {
      var next := Advance(blob, off);
      PositionSplit(blob, next, a - 1, b);
      assert Collected(blob, off, a + b) == Found(blob, off) + Collected(blob, next, a - 1 + b);
      assert Collected(blob, off, a) == Found(blob, off) + Collected(blob, next, a - 1);
    } else {
      assert [] + Collected(blob, off, b) == Collected(blob, off, b);
    }
  }

  lemma {:induction false} Settled(blob: Bytes, off: nat, n: nat)
    requires Done(blob, off) || Stuck(blob, off)
    ensures Position(blob, off, n) == off
    ensures Done(blob, off) ==> Collected(blob, off, n) == []
    decreases n
  {
    if n > 0 {
      Settled(blob, off, n - 1);
    }
  }

  /** A walk that is never stuck has moved at least n bytes after n rounds, or is done. */
  lemma {:induction false} Moves(blob: Bytes, n: nat)
    requires NeverStuck(blob)
    ensures Position(blob, 0, n) >= n || Done(blob, Position(blob, 0, n))
    decreases n
  {
    hide NeverStuck, Position, Collected, Found, Stuck, Done, Advance;
    if n > 0 {
      Moves(blob, n - 1);
      PositionSplit(blob, 0, n - 1, 1);
      RoundMoves(blob, Position(blob, 0, n - 1));
      NotStuckAt(blob, n - 1);
    }
  }

  lemma RoundMoves(blob: Bytes, p: nat)
    ensures Position(blob, p, 1) == Advance(blob, p)
    ensures Stuck(blob, p) || Position(blob, p, 1) > p || Done(blob, p)
    ensures Done(blob, p) ==> Position(blob, p, 1) == p
  {
    assert Position(blob, Advance(blob, p), 0) == Advance(blob, p);
  }

  lemma NotStuckAt(blob: Bytes, k: nat)
    requires NeverStuck(blob)
    ensures !Stuck(blob, Position(blob, 0, k))
  {
    hide Stuck, Position;
  }

  lemma StuckNeverHalts(blob: Bytes, k: nat, n: nat)
    requires Stuck(blob, Position(blob, 0, k))
    ensures !Done(blob, Position(blob, 0, n))
  {
    PositionSplit(blob, 0, k, n);
    PositionSplit(blob, 0, n, k);
    Settled(blob, Position(blob, 0, k), n);
    if Done(blob, Position(blob, 0, n)) {
      Settled(blob, Position(blob, 0, n), k);
    }
  }

  /** The walk ends exactly when no round meets a header with hsize + fsize = 0. */
  lemma HaltsIffNeverStuck(blob: Bytes)
    ensures Halts(blob) <==> NeverStuck(blob)
  {
    if k: nat :| Stuck(blob, Position(blob, 0, k)) {
      forall n: nat
        ensures !Done(blob, Position(blob, 0, n))
      {
        StuckNeverHalts(blob, k, n);
      }
      assert !Halts(blob);
      assert !NeverStuck(blob);
    } else {
      Moves(blob, |blob|);
      var n: nat := |blob|;
      assert Done(blob, Position(blob, 0, n));
    }
  }

  /** The magic number and twelve zero bytes: a header that claims nothing. */
  function EmptyHeader(): Bytes { Encode(MAGIC, 4) + Encode(0, 12) }

  lemma ZeroFieldsAreStuck(magic: Bytes, zeros: Bytes)
    requires |magic| == 4 && |zeros| == 12 && Decode(magic) == MAGIC && forall i :: 0 <= i < |zeros| ==> zeros[i] == 0
    ensures Stuck(magic + zeros, 0)
  {
    hide Decode;
    var blob := magic + zeros;
    assert blob[0..4] == magic;
    assert blob[6..8] == zeros[2..4] && blob[8..16] == zeros[4..12];
    ZerosDecodeInside(zeros, 2, 2);
    ZerosDecodeInside(zeros, 4, 8);
  }

  lemma MagicBytes()
    ensures Encode(MAGIC, 4) == [0x50, 0xED, 0x55, 0xBA]
  {
    assert MAGIC == 0x50 + 256 * 0xBA_55ED && 0xBA_55ED == 0xED + 256 * 0xBA55 && 0xBA55 == 0x55 + 256 * 0xBA;
    assert Encode(0xBA, 1) == [0xBA];
    assert Encode(0xBA55, 2) == [0x55] + Encode(0xBA, 1);
    assert Encode(0xBA_55ED, 3) == [0xED] + Encode(0xBA55, 2);
  }

  lemma EmptyHeaderIsStuck()
    ensures Stuck(EmptyHeader(), 0)
  {
    hide Encode, Decode, Stuck, Pow256;
    Widths();
    DecodeEncode(MAGIC, 4);
    ZerosDecode(12);
    ZeroFieldsAreStuck(Encode(MAGIC, 4), Encode(0, 12));
  }

  /** That blob is never walked to its end; it starts with the bytes 50 ED 55 BA. */
  lemma EmptyHeaderNeverHalts()
    ensures !Halts(EmptyHeader())
    ensures |EmptyHeader()| == 16 && EmptyHeader()[..4] == [0x50, 0xED, 0x55, 0xBA]
    ensures forall i :: 4 <= i < 16 ==> EmptyHeader()[i] == 0
  {
    MagicBytes();
    ZerosDecode(12);
    hide EmptyHeader, Stuck, Halts;
    EmptyHeaderIsStuck();
    assert Position(EmptyHeader(), 0, 0) == 0;
    HaltsIffNeverStuck(EmptyHeader());
  }

  /** In particular a blob whose matched headers all claim some bytes is walked to its end. */
  lemma PositiveHeadersHalt(blob: Bytes)
    requires forall off: nat :: AtHeader(blob, off) ==> Field(blob, off + 6, 2) + Field(blob, off + 8, 8) > 0
    ensures Halts(blob)
  {
    HaltsIffNeverStuck(blob);
    forall n: nat
      ensures !Stuck(blob, Position(blob, 0, n))
    {
      var off := Position(blob, 0, n);
      if AtHeader(blob, off) {
        assert EndAt(blob, off) == off + Field(blob, off + 6, 2) + Field(blob, off + 8, 8);
      }
    }
  }

  /** The inner loop: the entries of one region. */
  method ReadItems(blob: Bytes, start: nat, end: nat, before: seq<Item>) returns (out: seq<Item>)
    ensures out == before + Items(blob, start, end)
  {
    hide Items, Field;
    out := before;
    var e := start;
    while e + 32 <= Min(end, |blob|)
      invariant before + Items(blob, start, end) == out + Items(blob, e, end)
      decreases |blob| - e
    {
      ItemsUnfold(blob, e, end);
      var ehsize := Field(blob, e + 4, 4);
      if ehsize == 0 {
        break;
      }
      var item := Item(KindOf(Field(blob, e, 2)), Field(blob, e + 28, 4));
      var next := e + ehsize + Field(blob, e + 8, 8);
      assert out + ([item] + Items(blob, next, end)) == (out + [item]) + Items(blob, next, end);
      out := out + [item];
      e := next;
    }
    ItemsUnfold(blob, e, end);
    assert out + [] == out;
  }

  lemma ItemsUnfold(blob: Bytes, e: nat, end: nat)
    ensures e + 32 > Min(end, |blob|) ==> Items(blob, e, end) == []
    ensures e + 32 <= Min(end, |blob|) && Field(blob, e + 4, 4) == 0 ==> Items(blob, e, end) == []
    ensures e + 32 <= Min(end, |blob|) && Field(blob, e + 4, 4) != 0 ==>
      Items(blob, e, end) == [Item(KindOf(Field(blob, e, 2)), Field(blob, e + 28, 4))]
                             + Items(blob, e + Field(blob, e + 4, 4) + Field(blob, e + 8, 8), end)
  {
  }

  /** The body of the outer loop: step over a header and its entries, or eight bytes on. */
  method ReadRound(blob: Bytes, off: nat, before: seq<Item>) returns (next: nat, out: seq<Item>)
    requires off + 16 <= |blob|
    ensures next == Advance(blob, off) && out == before + Found(blob, off)
  {
    hide Field, Items;
    if Field(blob, off, 4) != MAGIC {
      assert before + [] == before;
      return off + 8, before;
    }
    var e := off + Field(blob, off + 6, 2);
    next := e + Field(blob, off + 8, 8);
    out := ReadItems(blob, e, next, before);
  }

  method ParseFatbin(blob: Bytes) returns (out: seq<Item>)
    requires Halts(blob)
    ensures forall n: nat :: Done(blob, Position(blob, 0, n)) ==> out == Collected(blob, 0, n)
  {
    out := [];
    var off: nat := 0;
    ghost var rounds: nat := 0;
    HaltsIffNeverStuck(blob);
    NoRounds(blob);
    hide *;
    while off + 16 <= |blob|
      invariant off == Position(blob, 0, rounds) && out == Collected(blob, 0, rounds)
      decreases |blob| - off
    {
      OneMoreRound(blob, rounds);
      RoundGoesOn(blob, rounds);
      rounds := rounds + 1;
      off, out := ReadRound(blob, off, out);
    }
    AllCollected(blob, rounds, out);
  }

  lemma AllCollected(blob: Bytes, rounds: nat, out: seq<Item>)
    requires Position(blob, 0, rounds) + 16 > |blob| && out == Collected(blob, 0, rounds)
    ensures forall n: nat :: Done(blob, Position(blob, 0, n)) ==> out == Collected(blob, 0, n)
  {
    assert Done(blob, Position(blob, 0, rounds));
    hide *;
    forall n: nat | Done(blob, Position(blob, 0, n))
      ensures out == Collected(blob, 0, n)
    {
      DoneAgree(blob, n, rounds);
    }
  }

  /** However many rounds are counted once the walk is done, the items are the same. */
  lemma DoneAgree(blob: Bytes, n: nat, m: nat)
    requires Done(blob, Position(blob, 0, n)) && Done(blob, Position(blob, 0, m))
    ensures Collected(blob, 0, n) == Collected(blob, 0, m)
  {
    hide Advance, Found, Position, Collected;
    PositionSplit(blob, 0, n, m);
    PositionSplit(blob, 0, m, n);
    assert n + m == m + n;
    Settled(blob, Position(blob, 0, m), n);
    Settled(blob, Position(blob, 0, n), m);
    assert Collected(blob, 0, n) + [] == Collected(blob, 0, n) && Collected(blob, 0, m) + [] == Collected(blob, 0, m);
  }

  lemma OneMoreRound(blob: Bytes, n: nat)
    ensures Position(blob, 0, n + 1) == Advance(blob, Position(blob, 0, n))
    ensures Collected(blob, 0, n + 1) == Collected(blob, 0, n) + Found(blob, Position(blob, 0, n))
  {
    hide Advance, Found;
    PositionSplit(blob, 0, n, 1);
    OneRound(blob, Position(blob, 0, n));
  }

  lemma RoundGoesOn(blob: Bytes, n: nat)
    requires NeverStuck(blob) && Position(blob, 0, n) + 16 <= |blob|
    ensures Advance(blob, Position(blob, 0, n)) > Position(blob, 0, n)
  {
    hide Field, Position;
    assert !Stuck(blob, Position(blob, 0, n));
  }

  lemma NoRounds(blob: Bytes)
    ensures Position(blob, 0, 0) == 0 && Collected(blob, 0, 0) == []
  {
  }

  lemma OneRound(blob: Bytes, off: nat)
    ensures Position(blob, off, 1) == Advance(blob, off) && Collected(blob, off, 1) == Found(blob, off)
  {
    assert Position(blob, Advance(blob, off), 0) == Advance(blob, off);
    assert Collected(blob, Advance(blob, off), 0) == [];
  }

  // ---------------------------------------------------------------- a writer

  /** An entry: header of 32 + |extra| bytes, then the payload. */
  datatype Entry = Entry(kind: nat, unused: nat, arch: nat, middle: Bytes, extra: Bytes, payload: Bytes) {
    ghost predicate Valid() {
      && kind < Pow256(2) && arch < Pow256(4) && |middle| == 12
      && 32 + |extra| < Pow256(4) && |payload| < Pow256(8)
    }

    function Encoded(): (s: Bytes)
      ensures |s| == 20 + |middle| + |extra| + |payload|
    {
      Encode(kind, 2) + Encode(unused, 2) + Encode(32 + |extra|, 4) + Encode(|payload|, 8) + middle + Encode(arch, 4)
      + extra + payload
    }

    function AsItem(): Item { Item(KindOf(kind), arch) }
  }

  function EntryBytes(es: seq<Entry>): Bytes {
    if es == [] then [] else es[0].Encoded() + EntryBytes(es[1..])
  }

  function EntryItems(es: seq<Entry>): seq<Item> {
    if es == [] then [] else [es[0].AsItem()] + EntryItems(es[1..])
  }

  /** A region after a gap: header of 16 + |extra| bytes, then its entries. */
  datatype Region = Region(gap: Bytes, version: nat, extra: Bytes, entries: seq<Entry>) {
    ghost predicate Valid() {
      && Quiet(gap) && |gap| % 8 == 0
      && 16 + |extra| < Pow256(2) && |EntryBytes(entries)| < Pow256(8)
      && forall i :: 0 <= i < |entries| ==> entries[i].Valid()
    }

    function Header(): (s: Bytes)
      ensures |s| == 16
    {
      Encode(MAGIC, 4) + Encode(version, 2) + Encode(16 + |extra|, 2) + Encode(|EntryBytes(entries)|, 8)
    }

    function Encoded(): Bytes { gap + (Header() + (extra + EntryBytes(entries))) }
  }

  /** No magic number at the strides the walker looks at. */
  ghost predicate Quiet(s: Bytes) {
    forall k: nat :: 8 * k + 4 <= |s| ==> Field(s, 8 * k, 4) != MAGIC
  }

  function Write(regions: seq<Region>, tail: Bytes): Bytes {
    if regions == [] then tail else regions[0].Encoded() + Write(regions[1..], tail)
  }

  function AllItems(regions: seq<Region>): seq<Item> {
    if regions == [] then [] else EntryItems(regions[0].entries) + AllItems(regions[1..])
  }

  // ---------------------------------------------------------------- reading back

  /** A field inside a piece of the blob is the field of the piece. */
  lemma FieldInPiece(blob: Bytes, pre: Bytes, piece: Bytes, post: Bytes, o: nat, w: nat)
    requires blob == pre + (piece + post) && o + w <= |piece|
    ensures Field(blob, |pre| + o, w) == Field(piece, o, w)
  {
    assert blob[|pre| + o..|pre| + o + w] == piece[o..o + w];
  }

  lemma EntryFields(e: Entry)
    requires e.Valid()
    ensures var s := e.Encoded();
      && |s| == 32 + |e.extra| + |e.payload|
      && Field(s, 0, 2) == e.kind && Field(s, 4, 4) == 32 + |e.extra|
      && Field(s, 8, 8) == |e.payload| && Field(s, 28, 4) == e.arch
  {
    var s := e.Encoded();
    assert s[0..2] == Encode(e.kind, 2);
    assert s[4..8] == Encode(32 + |e.extra|, 4);
    assert s[8..16] == Encode(|e.payload|, 8);
    assert s[28..32] == Encode(e.arch, 4);
    DecodeEncode(e.kind, 2);
    DecodeEncode(32 + |e.extra|, 4);
    DecodeEncode(|e.payload|, 8);
    DecodeEncode(e.arch, 4);
  }

  /** One written entry at the front of a region's rest is read and passed over. */
  lemma ItemsStep(blob: Bytes, pre: Bytes, e: Entry, rest: Bytes, end: nat)
    requires e.Valid() && blob == pre + (e.Encoded() + rest)
    requires |pre| + |e.Encoded()| <= end <= |blob|
    ensures Items(blob, |pre|, end) == [e.AsItem()] + Items(blob, |pre| + |e.Encoded()|, end)
  {
    hide Field, Entry.Encoded;
    var s := e.Encoded();
    EntryFields(e);
    FieldInPiece(blob, pre, s, rest, 0, 2);
    FieldInPiece(blob, pre, s, rest, 4, 4);
    FieldInPiece(blob, pre, s, rest, 8, 8);
    FieldInPiece(blob, pre, s, rest, 28, 4);
  }

  lemma Regroup(pre: Bytes, s: Bytes, t: Bytes, post: Bytes)
    ensures pre + ((s + t) + post) == pre + (s + (t + post)) == (pre + s) + (t + post)
  {
  }

  lemma {:induction false} ItemsOfEntries(blob: Bytes, pre: Bytes, es: seq<Entry>, post: Bytes)
    requires forall i :: 0 <= i < |es| ==> es[i].Valid()
    requires blob == pre + (EntryBytes(es) + post)
    ensures Items(blob, |pre|, |pre| + |EntryBytes(es)|) == EntryItems(es)
    decreases |es|
  {
    hide Field, Entry.Encoded, Entry.Valid;
    if es != [] {
      var s, t := es[0].Encoded(), EntryBytes(es[1..]);
      hide Items;
      Regroup(pre, s, t, post);
      ItemsStep(blob, pre, es[0], t + post, |pre| + |s| + |t|);
      ItemsOfEntries(blob, pre + s, es[1..], post);
    }
  }

  lemma HeaderFields(r: Region)
    requires r.Valid()
    ensures var h := r.Header();
      Field(h, 0, 4) == MAGIC && Field(h, 6, 2) == 16 + |r.extra| && Field(h, 8, 8) == |EntryBytes(r.entries)|
  {
    Widths();
    var h := r.Header();
    assert h[0..4] == Encode(MAGIC, 4);
    assert h[6..8] == Encode(16 + |r.extra|, 2);
    assert h[8..16] == Encode(|EntryBytes(r.entries)|, 8);
    DecodeEncode(MAGIC, 4);
    DecodeEncode(16 + |r.extra|, 2);
    DecodeEncode(|EntryBytes(r.entries)|, 8);
  }

  /** One round at a written header reads the region's items and lands at its end. */
  lemma RegionRound(blob: Bytes, pre: Bytes, r: Region, post: Bytes)
    requires r.Valid()
    requires blob == pre + ((r.Header() + (r.extra + EntryBytes(r.entries))) + post)
    ensures Found(blob, |pre|) == EntryItems(r.entries)
    ensures Advance(blob, |pre|) == |pre| + 16 + |r.extra| + |EntryBytes(r.entries)|
  {
    hide Field, Items, Region.Header, EntryBytes, Decode;
    var h, x, t := r.Header(), r.extra, EntryBytes(r.entries);
    HeaderFields(r);
    Regroup(pre, h, x + t, post);
    var rest := (x + t) + post;
    FieldInPiece(blob, pre, h, rest, 0, 4);
    FieldInPiece(blob, pre, h, rest, 6, 2);
    FieldInPiece(blob, pre, h, rest, 8, 8);
    Regroup(pre + h, x, t, post);
    ItemsOfEntries(blob, pre + h + x, r.entries, post);
  }

  /** The rounds over a gap find nothing. */
  lemma {:induction false} GapRounds(blob: Bytes, pre: Bytes, gap: Bytes, post: Bytes, k: nat)
    requires Quiet(gap) && |gap| % 8 == 0 && 8 * k <= |gap| && |post| >= 16
    requires blob == pre + (gap + post)
    ensures Position(blob, |pre|, k) == |pre| + 8 * k && Collected(blob, |pre|, k) == []
    decreases k
  {
    hide Field, Quiet;
    if k > 0 {
      QuietAt(gap, k - 1);
      GapRounds(blob, pre, gap, post, k - 1);
      PositionSplit(blob, |pre|, k - 1, 1);
      var off := |pre| + 8 * (k - 1);
      OneRound(blob, off);
      FieldInPiece(blob, pre, gap, post, 8 * (k - 1), 4);
    }
  }

  lemma QuietAt(s: Bytes, k: nat)
    requires Quiet(s) && 8 * k + 4 <= |s|
    ensures Field(s, 8 * k, 4) != MAGIC
  {
  }

  /** A quiet tail is walked to its end without finding anything. */
  lemma {:induction false} TailRounds(blob: Bytes, pre: Bytes, tail: Bytes, k: nat)
    requires Quiet(tail) && blob == pre + tail && 8 * k + 8 <= |tail| + (if k == 0 then 8 else 0)
    ensures Position(blob, |pre|, k) == |pre| + 8 * k && Collected(blob, |pre|, k) == []
    decreases k
  {
    hide Field, Quiet;
    if k > 0 {
      QuietAt(tail, k - 1);
      TailRounds(blob, pre, tail, k - 1);
      PositionSplit(blob, |pre|, k - 1, 1);
      OneRound(blob, |pre| + 8 * (k - 1));
      assert blob == pre + (tail + []);
      FieldInPiece(blob, pre, tail, [], 8 * (k - 1), 4);
    }
  }

  /** How many rounds the walker takes over what was written. */
  function RoundsFor(regions: seq<Region>, tail: Bytes): nat {
    if regions == [] then (if |tail| < 16 then 0 else (|tail| - 16) / 8 + 1)
    else |regions[0].gap| / 8 + 1 + RoundsFor(regions[1..], tail)
  }

  lemma {:induction false} WalkWritten(blob: Bytes, pre: Bytes, regions: seq<Region>, tail: Bytes)
    requires forall i :: 0 <= i < |regions| ==> regions[i].Valid()
    requires Quiet(tail) && blob == pre + Write(regions, tail)
    ensures Done(blob, Position(blob, |pre|, RoundsFor(regions, tail)))
    ensures Collected(blob, |pre|, RoundsFor(regions, tail)) == AllItems(regions)
    decreases |regions|
  {
    hide Field, Quiet, Items, Region.Header, EntryBytes, EntryItems, Position, Collected;
    if regions == [] {
      TailRounds(blob, pre, tail, RoundsFor(regions, tail));
    } else {
      var r, later := regions[0], Write(regions[1..], tail);
      var body := r.Header() + (r.extra + EntryBytes(r.entries));
      var k, rest := |r.gap| / 8, RoundsFor(regions[1..], tail);
      Regroup(pre, r.gap, body, later);
      GapRounds(blob, pre, r.gap, body + later, k);
      RegionRound(blob, pre + r.gap, r, later);
      OneRound(blob, |pre + r.gap|);
      PositionSplit(blob, |pre|, k, 1);
      Regroup(pre + r.gap, body, [], later);
      assert [] + later == later && body + [] == body;
      WalkWritten(blob, pre + r.gap + body, regions[1..], tail);
      PositionSplit(blob, |pre|, k + 1, rest);
    }
  }

  /** All entries of a blob, region after region. */
  function AllEntries(regions: seq<Region>): seq<Entry> {
    if regions == [] then [] else regions[0].entries + AllEntries(regions[1..])
  }

  /** The item names the entry's architecture, and its kind: code 1 is PTX, code 2 SASS, any other stays. */
  predicate Names(x: Item, e: Entry) {
    && x.arch == e.arch
    && (x.kind == Ptx <==> e.kind == 1) && (x.kind == Sass <==> e.kind == 2)
    && (x.kind.Other? ==> x.kind.code == e.kind)
  }

  predicate NamesAll(items: seq<Item>, es: seq<Entry>) {
    |items| == |es| && forall i :: 0 <= i < |es| ==> Names(items[i], es[i])
  }

  lemma {:induction false} EntryItemsName(es: seq<Entry>)
    ensures NamesAll(EntryItems(es), es)
  {
    if es != [] {
      EntryItemsName(es[1..]);
    }
  }

  lemma {:induction false} AllItemsName(regions: seq<Region>)
    ensures NamesAll(AllItems(regions), AllEntries(regions))
  {
    hide Names;
    if regions != [] {
      EntryItemsName(regions[0].entries);
      AllItemsName(regions[1..]);
    }
  }

  /** The walker terminates on anything written and names each of its entries once, in order. */
  method RoundTrip(regions: seq<Region>, tail: Bytes) returns (out: seq<Item>)
    requires (forall i :: 0 <= i < |regions| ==> regions[i].Valid()) && Quiet(tail)
    ensures out == AllItems(regions) && NamesAll(out, AllEntries(regions))
  {
    AllItemsName(regions);
    hide NamesAll, AllEntries;
    var blob := Write(regions, tail);
    assert blob == [] + Write(regions, tail);
    WalkWritten(blob, [], regions, tail);
    out := ParseFatbin(blob);
  }
}
