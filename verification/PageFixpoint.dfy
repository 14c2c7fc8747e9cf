/**
 What an accepted page is worth: synchronising it again changes nothing, every parser key has one
 row, and everything but default heads and generated tables stays in its place.
 */
module PageFixpoint {
  import opened PageText
  import opened PageTables
  import opened PageSync
  import opened Wrappers

  // ---------------------------------------------------------------- the layout of a page

  /**
   What the machine sees in a page, line by line: a kept line, a generated table, or a row. A row
   of a parser key is seen with its default cell cut down to the note; other rows stay whole.
   */
  datatype Item =
    | Line(text: string)
    | Made(table: string)
    | Entry(table: string, key: string, col: nat, cells: seq<string>)

  function ItemsOf(cfg: Config, core: Core, line: string): seq<Item> {
    match KindOf(cfg, core, line)
    case Skipped => []
    case Generated => [Made(core.table)]
    case Kept => [Line(line)]
    case Short => []
    case Row(key, cells, col) =>
      [Item.Entry(core.table, key, col,
                  if cfg.Known(core.table, key) then cells[col := Note(Strip(cells[col]))] else cells)]
  }

  /** The items of the lines, up to an index error. */
  function Layout(cfg: Config, core: Core, n: nat, lines: seq<string>): seq<Item>
    decreases |lines|
  {
    if lines == [] then []
    else
      var one := Process(cfg, core, n, lines[0]);
      ItemsOf(cfg, Current(cfg, core, lines[0]), lines[0])
      + (if one.IndexError? then [] else Layout(cfg, one.core, n + 1, lines[1..]))
  }

  function PageLayout(cfg: Config, lines: seq<string>): seq<Item>
    requires cfg.Valid()
  {
    Layout(cfg, Start(cfg), 1, lines)
  }

  /** A table is documented, and a row has its default cell. */
  predicate Sound(cfg: Config, x: Item) {
    (x.Made? ==> x.table in cfg.docs) && (x.Entry? ==> x.col < |x.cells|)
  }

  predicate SoundItems(cfg: Config, items: seq<Item>) { forall i :: 0 <= i < |items| ==> Sound(cfg, items[i]) }

  /** What the page shows for an item. */
  function Render(cfg: Config, x: Item): seq<string>
    requires Sound(cfg, x)
  {
    match x
    case Line(text) => [text]
    case Made(table) => Block(cfg, table)
    case Entry(table, key, col, cells) =>
      if cfg.Known(table, key) then
        [Join(cells[col := " " + RenderDefault(Get(cfg.Defaults(table), key)) + cells[col] + " "])]
      else [Join(cells)]
  }

  function RenderAll(cfg: Config, items: seq<Item>): seq<string>
    requires SoundItems(cfg, items)
  {
    if items == [] then [] else Render(cfg, items[0]) + RenderAll(cfg, items[1..])
  }

  lemma LineIsRendered(cfg: Config, core: Core, n: nat, line: string)
    requires Process(cfg, core, n, line).Effect?
    ensures var items := ItemsOf(cfg, Current(cfg, core, line), line);
      SoundItems(cfg, items) && Process(cfg, core, n, line).out == RenderAll(cfg, items)
  {
    hide Current, Cells, RowKey, Block, BlockErrors, RenderDefault, Note, Strip, Join, Config.Known, Config.Defaults, Generates,
      Retired, SeenAll;
    var now := Current(cfg, core, line);
    var items := ItemsOf(cfg, now, line);
    GeneratesDocumented(cfg, now, line);
    if items != [] {
      assert items[1..] == [];
      assert RenderAll(cfg, items) == Render(cfg, items[0]);
    }
    match KindOf(cfg, now, line) {
      case Row(key, cells, col) =>
        JoinOfCells(line, false);
        if cfg.Known(now.table, key) {
          var note := Note(Strip(cells[col]));
          var shown := " " + RenderDefault(Get(cfg.Defaults(now.table), key)) + note + " ";
          assert cells[col := note][col := shown] == cells[col := shown];
        }
      case _ =>
    }
  }

  lemma GeneratesDocumented(cfg: Config, core: Core, line: string)
    ensures Generates(cfg, core, line) ==> core.table in cfg.docs
  {
  }

  lemma {:induction false} RenderAppend(cfg: Config, a: seq<Item>, b: seq<Item>)
    requires SoundItems(cfg, a) && SoundItems(cfg, b)
    ensures SoundItems(cfg, a + b) && RenderAll(cfg, a + b) == RenderAll(cfg, a) + RenderAll(cfg, b)
  {
    hide Sound, Render;
    if a == [] {
      assert a + b == b;
    } else {
      assert (a + b)[1..] == a[1..] + b && (a + b)[0] == a[0];
      RenderAppend(cfg, a[1..], b);
    }
  }

  lemma {:induction false} RunIsRendered(cfg: Config, core: Core, n: nat, lines: seq<string>)
    requires Run(cfg, core, n, lines).Effect?
    ensures var items := Layout(cfg, core, n, lines);
      SoundItems(cfg, items) && Run(cfg, core, n, lines).out == RenderAll(cfg, items)
    decreases |lines|
  {
    hide Process, ItemsOf, Current, Then, Sound, Render;
    if lines != [] {
      var one := Process(cfg, core, n, lines[0]);
      ThenIs(one, Run(cfg, one.core, n + 1, lines[1..]));
      LineIsRendered(cfg, core, n, lines[0]);
      RunIsRendered(cfg, one.core, n + 1, lines[1..]);
      RenderAppend(cfg, ItemsOf(cfg, Current(cfg, core, lines[0]), lines[0]), Layout(cfg, one.core, n + 1, lines[1..]));
    }
  }

  /**
   Every page that does not end in an index error, refused or not, is the rendering of its layout,
   item by item: kept lines, tables and rows stay in their order.
   */
  lemma PageIsRendered(cfg: Config, lines: seq<string>)
    requires cfg.Valid() && Sync(cfg, lines).Page?
    ensures var items := PageLayout(cfg, lines);
      SoundItems(cfg, items) && Sync(cfg, lines).lines == RenderAll(cfg, items)
  {
    hide Run, Layout, FinalErrors;
    RunIsRendered(cfg, Start(cfg), 1, lines);
  }

  // ---------------------------------------------------------------- provisos

  /** A rendered default that a row can hold: no pipe cuts it and no note opens in it. */
  predicate CleanDefault(v: Value) { Whole(RenderDefault(v)) && Note(RenderDefault(v)) == "" }

  /** A row of a parser key right of the first pipe holds a clean default. */
  predicate CleanItem(cfg: Config, x: Item) {
    x.Entry? && x.col != 0 && cfg.Known(x.table, x.key) ==> CleanDefault(Get(cfg.Defaults(x.table), x.key))
  }

  predicate CleanItems(cfg: Config, items: seq<Item>) { forall x :: x in items ==> CleanItem(cfg, x) }

  /** Section headings look like headings. */
  predicate HashHeadings(cfg: Config) {
    forall i :: 0 <= i < |cfg.headings| ==> cfg.headings[i].0 != [] && cfg.headings[i].0[0] == '#'
  }

  /** A row of a parser key under a header whose first cell, left of the first pipe, is "default". */
  predicate Displaced(cfg: Config, x: Item) { x.Entry? && x.col == 0 && cfg.Known(x.table, x.key) }

  /** ... of a hand-written table. */
  predicate DisplacedByHand(cfg: Config, x: Item) { Displaced(cfg, x) && x.table !in cfg.docs }

  // ---------------------------------------------------------------- one row

  lemma RenderEnds(v: Value)
    ensures var r := RenderDefault(v);
      |r| >= 2 && !IsSpace(r[0]) && r[0] != '|' && !IsSpace(r[|r| - 1]) && !EndsInBackslash(r)
  {
  }

  lemma {:induction false} WholePrefix(s: string, p: string, escaped: bool)
    requires Cells(s, escaped) == [s] && p <= s
    ensures Cells(p, escaped) == [p]
  {
    if p != [] {
      WholeTail(s, escaped);
      assert p[1..] <= s[1..] && p[0] == s[0];
      WholePrefix(s[1..], p[1..], p[0] == '\\');
      assert [p[0]] + p[1..] == p;
    }
  }

  lemma StripIsPiece(c: string)
    ensures exists j :: 0 <= j <= |c| && Strip(c) <= c[j..]
  {
    LStripTrims(c);
    RStripTrims(LStrip(c));
    var j :| 0 <= j <= |c| && LStrip(c) == c[j..];
    assert Strip(c) <= c[j..];
  }

  /** The note of a cell is a piece of it that starts with white space, or nothing. */
  lemma NoteIsPiece(c: string)
    ensures var note := Note(Strip(c));
      note == "" || (OpensNote(note) && !IsSpace(note[|note| - 1])
                     && exists k :: 0 <= k < |c| && c[k] == note[0] && note <= c[k..])
  {
    hide *;
    var t := Strip(c);
    var note := Note(t);
    NoteIsSuffix(t);
    StripTrims(c);
    StripIsPiece(c);
    if note != "" {
      var j :| 0 <= j <= |c| && t <= c[j..];
      var i :| 0 <= i <= |t| && note == t[i..];
      PieceOfPiece(c, t, j, i);
      TrimEnd(t, i);
      assert 0 <= j + i < |c| && c[j + i] == note[0] && note <= c[j + i..];
    }
  }

  lemma PieceOfPiece(c: string, t: string, j: nat, i: nat)
    requires j <= |c| && i < |t| && t <= c[j..]
    ensures j + i < |c| && c[j + i] == t[i] && t[i..] <= c[j + i..]
  {
    assert c[j..][i..] == c[j + i..];
  }

  lemma TrimEnd(t: string, i: nat)
    requires Trim(t) && i < |t|
    ensures !IsSpace(t[i..][|t| - i - 1])
  {
  }

  lemma NoteIsWhole(c: string)
    requires Whole(c)
    ensures Whole(Note(Strip(c)))
  {
    var note := Note(Strip(c));
    NoteIsPiece(c);
    if note != "" {
      var k :| 0 <= k < |c| && c[k] == note[0] && note <= c[k..];
      WholeSuffix(c, false, k);
      WholePrefix(c[k..], note, false);
    }
  }

  lemma {:induction false} WholeThen(s: string, c: char, escaped: bool)
    requires Cells(s, escaped) == [s] && c != '|'
    ensures Cells(s + [c], escaped) == [s + [c]]
  {
    if s == [] {
      assert s + [c] == [c] && [c][1..] == "" && Cells("", false) == [""] && [c] + "" == [c];
    } else {
      WholeTail(s, escaped);
      assert (s + [c])[1..] == s[1..] + [c];
      WholeThen(s[1..], c, s[0] == '\\');
      assert [s[0]] + (s[1..] + [c]) == s + [c];
    }
  }

  /** A new cell is its text between two spaces. */
  lemma NewCellText(cell: string, v: Value)
    ensures var t := RenderDefault(v) + Note(Strip(cell));
      t != [] && Trim(t) && NewCell(cell, v) == " " + t + " " && Strip(NewCell(cell, v)) == t
    ensures !EndsInBackslash(NewCell(cell, v))
  {
    hide RenderDefault, Note, Strip;
    RenderEnds(v);
    NoteIsPiece(cell);
    StripPadded(RenderDefault(v) + Note(Strip(cell)));
    assert NewCell(cell, v) == " " + (RenderDefault(v) + Note(Strip(cell))) + " ";
  }

  lemma NewCellIsWhole(cell: string, v: Value)
    requires Whole(cell) && Whole(RenderDefault(v))
    ensures Whole(NewCell(cell, v))
  {
    hide RenderDefault, Note, Strip, NewCell;
    var r, note := RenderDefault(v), Note(Strip(cell));
    NewCellText(cell, v);
    RenderEnds(v);
    NoteIsWhole(cell);
    WholeSpace();
    WholeConcat(r, note, false);
    WholeConcat(" ", r + note, false);
    WholeThen(" " + (r + note), ' ', false);
  }

  /** A cell with a clean default is proper, and setting it again changes nothing. */
  lemma NewCellAgain(cell: string, v: Value)
    requires CleanDefault(v)
    ensures Whole(cell) ==> Whole(NewCell(cell, v))
    ensures !EndsInBackslash(NewCell(cell, v))
    ensures Note(Strip(NewCell(cell, v))) == Note(Strip(cell))
    ensures NewCell(NewCell(cell, v), v) == NewCell(cell, v)
  {
    hide RenderDefault, Note, Strip, Whole, Trim;
    var r, note := RenderDefault(v), Note(Strip(cell));
    RenderEnds(v);
    NoteIsPiece(cell);
    NoteAfterHead(r, note);
    NewCellText(cell, v);
    if Whole(cell) {
      NewCellIsWhole(cell, v);
    }
  }

  /** A row written with a clean default is read back as the same row and written the same. */
  lemma RowAgain(line: string, key: string, col: nat, v: Value)
    requires RowKey(line) == Some(key) && 2 <= col < |Cells(line, false)| && CleanDefault(v)
    ensures var cells := Cells(line, false); var row := Rewritten(cells, col, v);
      && RowKey(row) == Some(key)
      && Cells(row, false) == cells[col := NewCell(cells[col], v)]
      && Rewritten(Cells(row, false), col, v) == row
  {
    hide *;
    var cells := Cells(line, false);
    RowKeyIsKey(line);
    RowCells(line, key);
    LineCellsAreProper(line);
    ProperUpdate(cells, col, v);
    var cells' := cells[col := NewCell(cells[col], v)];
    CellsOfJoin(cells');
    JoinedRow(cells', key);
    NewCellAgain(cells[col], v);
    RewrittenIs(cells, col, v);
    RewrittenIs(cells', col, v);
    assert cells'[col := NewCell(cells'[col], v)] == cells';
  }

  lemma RewrittenIs(cells: seq<string>, col: nat, v: Value)
    requires col < |cells|
    ensures Rewritten(cells, col, v) == Join(cells[col := NewCell(cells[col], v)])
  {
  }

  lemma ProperUpdate(cells: seq<string>, col: nat, v: Value)
    requires Proper(cells) && col < |cells| && CleanDefault(v)
    ensures Proper(cells[col := NewCell(cells[col], v)])
  {
    NewCellAgain(cells[col], v);
    hide NewCell, Whole, EndsInBackslash;
  }

  // ---------------------------------------------------------------- lines that stay

  /**
   The variables of the two passes: the second has missed the rows in `lost`.  While the default
   column is the first cell it may have taken a displaced row for another header.
   */
  predicate Like(cfg: Config, lost: set<(string, string)>, a: Core, b: Core) {
    && a.table == b.table && a.skipping == b.skipping && a.generated == b.generated
    && (a.defaultCol == b.defaultCol || a.defaultCol == Some(0))
    && (forall p :: p in b.seen ==> p in a.seen)
    && (forall p :: p in lost ==> p.0 !in cfg.docs && p in a.seen && p !in b.seen)
    && (forall p :: p in a.seen && p.0 !in cfg.docs && p !in lost ==> p in b.seen)
  }

  function LostBy(cfg: Config, items: seq<Item>): set<(string, string)> {
    set x | x in items && DisplacedByHand(cfg, x) :: (x.table, x.key)
  }

  lemma CurrentAgain(cfg: Config, lost: set<(string, string)>, a: Core, b: Core, line: string)
    requires Like(cfg, lost, a, b) && a.defaultCol != Some(1)
    ensures var a', b' := Current(cfg, a, line), Current(cfg, b, line);
      && Like(cfg, lost, a', b') && a'.defaultCol != Some(1)
      && (KindOf(cfg, a', line) == KindOf(cfg, b', line)
          || (a'.defaultCol == Some(0) && (KindOf(cfg, a', line).Row? || KindOf(cfg, a', line).Short?)))
  {
    hide Cells, IndexOf, HeadingOf, RowKey, IsHeader, Strip, StartsWith;
    HeaderColumn(Cells(line, false));
  }

  /** The cell that makes a header is not its default cell. */
  lemma HeaderColumn(cells: seq<string>)
    ensures IsHeader(cells) ==> IndexOf(cells, "default") != Some(1)
  {
    hide Strip;
    assert |"default"| != |"key"|;
  }

  lemma {:induction false} NoHeading(headings: seq<(string, string)>, line: string)
    requires forall i :: 0 <= i < |headings| ==> headings[i].0 != [] && headings[i].0[0] == '#'
    requires line != [] ==> line[0] != '#'
    ensures HeadingOf(headings, line) == None
  {
    if headings != [] {
      NoHeading(headings[1..], line);
    }
  }

  lemma SkippedIsQuiet(cfg: Config, core: Core, line: string)
    requires KindOf(cfg, Current(cfg, core, line), line).Skipped?
    ensures Current(cfg, core, line) == core
  {
    hide Cells, IndexOf, HeadingOf, RowKey, IsHeader, StartsWith;
  }

  /** A row changes none of the variables that are looked at before it. */
  lemma RowIsQuiet(cfg: Config, core: Core, line: string, key: string)
    requires HashHeadings(cfg) && RowKey(line) == Some(key)
    ensures Current(cfg, core, line) == core && !Generates(cfg, core, line)
  {
    RowKeyIsKey(line);
    RowCells(line, key);
    KeyCellIsNotKey(key);
    RowKeyIsPrefix(line, key);
    assert line[0] == RowStart(key)[0] && line[2] == RowStart(key)[2] == '`';
    NoHeading(cfg.headings, line);
    assert OPENING[2] == 'k';
    hide Cells, RowKey, KeyCell, Strip;
  }

  /** The line that opens a generated table changes none of them either. */
  lemma OpeningIsQuiet(cfg: Config, core: Core, line: string)
    requires HashHeadings(cfg) && StartsWith(line, OPENING) && !core.skipping && Generates(cfg, core, line)
    ensures Current(cfg, core, line) == core && KindOf(cfg, core, line) == Generated
  {
    assert line[0] == OPENING[0];
    NoHeading(cfg.headings, line);
    hide Cells, RowKey, Strip;
  }

  lemma LayoutOne(cfg: Config, core: Core, n: nat, line: string)
    ensures Layout(cfg, core, n, [line]) == ItemsOf(cfg, Current(cfg, core, line), line)
  {
    hide Process, ItemsOf, Current;
    var one := Process(cfg, core, n, line);
    var items := ItemsOf(cfg, Current(cfg, core, line), line);
    assert items + [] == items;
    assert [line][1..] == [];
    if one.Effect? {
      assert Layout(cfg, one.core, n + 1, []) == [];
    }
  }

  lemma {:induction false} LayoutAppend(cfg: Config, core: Core, n: nat, a: seq<string>, b: seq<string>)
    requires Run(cfg, core, n, a).Effect?
    ensures Layout(cfg, core, n, a + b)
         == Layout(cfg, core, n, a) + Layout(cfg, Run(cfg, core, n, a).core, n + |a|, b)
    decreases |a|
  {
    hide Process, ItemsOf, Current, Then;
    if a == [] {
      assert a + b == b;
      assert [] + Layout(cfg, core, n, b) == Layout(cfg, core, n, b);
    } else {
      var one := Process(cfg, core, n, a[0]);
      assert (a + b)[1..] == a[1..] + b && (a + b)[0] == a[0];
      var more := Run(cfg, one.core, n + 1, a[1..]);
      ThenIs(one, more);
      LayoutAppend(cfg, one.core, n + 1, a[1..], b);
      var i := ItemsOf(cfg, Current(cfg, core, a[0]), a[0]);
      var x, y := Layout(cfg, one.core, n + 1, a[1..]), Layout(cfg, more.core, n + |a|, b);
      assert i + (x + y) == (i + x) + y;
    }
  }

  /** Lines under a generated header are skipped as long as they start with a pipe. */
  lemma {:induction false} SkipAll(cfg: Config, core: Core, n: nat, lines: seq<string>)
    requires HashHeadings(cfg) && core.skipping
    requires forall i :: 0 <= i < |lines| ==> lines[i] != [] && lines[i][0] == '|'
    ensures Run(cfg, core, n, lines) == Effect(core, [], []) && Layout(cfg, core, n, lines) == []
    decreases |lines|
  {
    if lines != [] {
      NoHeading(cfg.headings, lines[0]);
      assert Current(cfg, core, lines[0]) == core;
      assert KindOf(cfg, core, lines[0]).Skipped?;
      SkipAll(cfg, core, n + 1, lines[1..]);
      hide Current, KindOf;
    }
  }

  lemma {:induction false} DocRowsArePiped(t: Table, docs: Docs)
    ensures forall i :: 0 <= i < |DocRows(t, docs)| ==> DocRows(t, docs)[i] != [] && DocRows(t, docs)[i][0] == '|'
  {
    hide CellText, Quoted, RenderDefault, Documented, Lookup;
    if t != [] {
      DocRowsArePiped(t[1..], docs);
    }
  }

  // ---------------------------------------------------------------- one line, twice

  predicate NoneDisplaced(cfg: Config, items: seq<Item>) { forall x :: x in items ==> !Displaced(cfg, x) }

  /** Running b over `out` puts out the same lines without a refusal, is like `core` and sees the same items. */
  predicate Repeats(cfg: Config, lost: set<(string, string)>, core: Core, items: seq<Item>, b: Core, m: nat, out: seq<string>) {
    var again := Run(cfg, b, m, out);
    && again.Effect? && again.out == out && again.errors == []
    && Like(cfg, lost, core, again.core)
    && (NoneDisplaced(cfg, items) ==> Layout(cfg, b, m, out) == items)
  }

  lemma BlockShape(cfg: Config, table: string)
    requires table in cfg.docs
    ensures Block(cfg, table) == [HEADER] + Block(cfg, table)[1..]
    ensures var block := Block(cfg, table);
      forall i :: 0 <= i < |block[1..]| ==> block[1..][i] != [] && block[1..][i][0] == '|'
  {
    hide DocRows, HEADER, Config.Defaults;
    DocRowsArePiped(cfg.Defaults(table), cfg.docs[table]);
    var rows := [RULER] + DocRows(cfg.Defaults(table), cfg.docs[table]);
    assert Block(cfg, table) == [HEADER] + rows;
    assert RULER[0] == '|';
  }

  /** A header put out by the first pass opens the same table, and the rows under it are skipped. */
  lemma BlockRuns(cfg: Config, b: Core, m: nat)
    requires HashHeadings(cfg) && !b.skipping && b.table in cfg.docs && b.table !in b.generated
    requires BlockErrors(cfg, b.table) == []
    ensures Run(cfg, b, m, Block(cfg, b.table)) == Effect(AfterBlock(cfg, b, m), Block(cfg, b.table), [])
    ensures Layout(cfg, b, m, Block(cfg, b.table)) == [Made(b.table)]
  {
    hide Run, Layout, Process, ItemsOf, Block, DocRows, Current, KindOf, BlockErrors, HashHeadings, Then, SeenAll, HEADER;
    var block := Block(cfg, b.table);
    var rows := block[1..];
    BlockShape(cfg, b.table);
    var one := Effect(AfterBlock(cfg, b, m), block, []);
    HeaderProcessed(cfg, b, m);
    RunOne(cfg, b, m, HEADER);
    SkipAll(cfg, one.core, m + 1, rows);
    hide AfterBlock;
    RunAppend(cfg, b, m, [HEADER], rows);
    LayoutOne(cfg, b, m, HEADER);
    LayoutAppend(cfg, b, m, [HEADER], rows);
    ThenLaws(one.core, one, one, one);
    assert [Made(b.table)] + [] == [Made(b.table)];
  }

  lemma LikeAfterBlock(cfg: Config, lost: set<(string, string)>, a: Core, b: Core, n: nat, m: nat)
    requires Like(cfg, lost, a, b) && a.table in cfg.docs
    ensures Like(cfg, lost, AfterBlock(cfg, a, n), AfterBlock(cfg, b, m))
  {
    hide SeenAll, Config.Known;
    SeenAllKeys(cfg, a, n);
    SeenAllKeys(cfg, b, m);
  }

  lemma SeenAllKeys(cfg: Config, core: Core, n: nat)
    ensures forall p :: p in SeenAll(cfg, core, n) <==>
                        if p.0 == core.table then cfg.Known(p.0, p.1) else p in core.seen
  {
    hide Config.Defaults;
    var t := cfg.Defaults(core.table);
    forall p
      ensures p in SeenAll(cfg, core, n) <==> if p.0 == core.table then cfg.Known(p.0, p.1) else p in core.seen
    {
      if p.0 == core.table && cfg.Known(p.0, p.1) {
        var i :| 0 <= i < |t| && t[i].0 == p.1;
        assert p == (core.table, t[i].0);
      }
    }
  }

  /** The table opened by the first pass is opened again by its own header. */
  lemma BlockAgain(cfg: Config, lost: set<(string, string)>, a: Core, b: Core, n: nat, m: nat, line: string)
    requires HashHeadings(cfg) && Like(cfg, lost, a, b) && !a.skipping && Generates(cfg, a, line)
    requires BlockErrors(cfg, a.table) == []
    ensures Repeats(cfg, lost, AfterBlock(cfg, a, n), [Made(a.table)], b, m, Block(cfg, a.table))
  {
    BlockRuns(cfg, b, m);
    LikeAfterBlock(cfg, lost, a, b, n, m);
    hide Run, Layout, Block, AfterBlock, BlockErrors;
  }

  lemma HeaderProcessed(cfg: Config, b: Core, m: nat)
    requires HashHeadings(cfg) && !b.skipping && b.table in cfg.docs && b.table !in b.generated
    requires BlockErrors(cfg, b.table) == []
    ensures Process(cfg, b, m, HEADER) == Effect(AfterBlock(cfg, b, m), Block(cfg, b.table), [])
    ensures ItemsOf(cfg, Current(cfg, b, HEADER), HEADER) == [Made(b.table)]
  {
    OpeningIsHeader(cfg, b);
    hide Current, KindOf, Block, AfterBlock, BlockErrors, HashHeadings;
  }

  lemma HeaderOpens()
    ensures StartsWith(HEADER, OPENING)
  {
  }

  lemma OpeningIsHeader(cfg: Config, core: Core)
    requires HashHeadings(cfg) && !core.skipping && core.table in cfg.docs && core.table !in core.generated
    ensures Current(cfg, core, HEADER) == core && KindOf(cfg, core, HEADER) == Generated
  {
    hide Cells, RowKey, Current, KindOf, HashHeadings;
    HeaderOpens();
    OpeningIsQuiet(cfg, core, HEADER);
  }

  /** A line that is put out as it is, and counts the same on both passes. */
  lemma SameAgain(cfg: Config, lost: set<(string, string)>, a: Core, b: Core, n: nat, m: nat, line: string)
    requires Like(cfg, lost, a, b) && a.defaultCol != Some(1)
    requires var one := Process(cfg, a, n, line); one.Effect? && one.errors == [] && one.out == [line]
    requires var core := Current(cfg, a, line); var kind := KindOf(cfg, core, line);
      kind.Kept? || (kind.Row? && !cfg.Known(core.table, kind.key))
    ensures Repeats(cfg, lost, Process(cfg, a, n, line).core, ItemsOf(cfg, Current(cfg, a, line), line), b, m, [line])
  {
    hide Current, KindOf, Cells, RowKey, Retired, Layout, Run, Strip, Note, Config.Known, Rewritten, Like;
    CurrentAgain(cfg, lost, a, b, line);
    RunOne(cfg, b, m, line);
    LayoutOne(cfg, b, m, line);
    var a', b' := Current(cfg, a, line), Current(cfg, b, line);
    LikeVariables(cfg, lost, a', b');
    var kind := KindOf(cfg, a', line);
    if kind.Row? {
      RetiredNotFirst(cfg, a', line);
      LikeWith(cfg, lost, a', b', n, m, kind.key);
    }
  }

  /** The first cell of a row is empty, so no row is retired there. */
  lemma RetiredNotFirst(cfg: Config, core: Core, line: string)
    requires KindOf(cfg, core, line).Row?
    ensures var kind := KindOf(cfg, core, line);
      kind.col < |kind.cells|
      && (core.defaultCol == Some(0) ==> !Retired(cfg, core.table, kind.key, Strip(kind.cells[kind.col])))
  {
    hide Cells, RowKey, KeyCell, Contains;
    RowKeyIsKey(line);
    RowCells(line, RowKey(line).value);
    assert Strip("") == "";
    assert |"retired"| == 7;
  }

  lemma LikeVariables(cfg: Config, lost: set<(string, string)>, a: Core, b: Core)
    requires Like(cfg, lost, a, b)
    ensures a.table == b.table && a.skipping == b.skipping && a.generated == b.generated
    ensures a.defaultCol == b.defaultCol || a.defaultCol == Some(0)
  {
  }

  lemma LikeWith(cfg: Config, lost: set<(string, string)>, a: Core, b: Core, n: nat, m: nat, key: string)
    requires Like(cfg, lost, a, b) && (a.table, key) !in a.seen
    ensures Like(cfg, lost, a.(seen := a.seen[(a.table, key) := n]), b.(seen := b.seen[(b.table, key) := m]))
    ensures (a.table, key) !in b.seen
  {
  }

  /** A rewritten row is processed like the row it was, and seen the same. */
  lemma RowProcessed(cfg: Config, a: Core, b: Core, m: nat, line: string, key: string, col: nat)
    requires HashHeadings(cfg) && !a.skipping && !b.skipping && a.table == b.table
    requires RowKey(line) == Some(key) && 2 <= col < |Cells(line, false)| && a.defaultCol == b.defaultCol == Some(col)
    requires cfg.Known(a.table, key) && (a.table, key) !in b.seen && CleanDefault(Get(cfg.Defaults(a.table), key))
    ensures var row := Rewritten(Cells(line, false), col, Get(cfg.Defaults(a.table), key));
      && Process(cfg, b, m, row) == Effect(b.(seen := b.seen[(b.table, key) := m]), [row], [])
      && ItemsOf(cfg, Current(cfg, b, row), row) == ItemsOf(cfg, a, line)
  {
    var cells := Cells(line, false);
    var v := Get(cfg.Defaults(a.table), key);
    var row := Rewritten(cells, col, v);
    RowAgain(line, key, col, v);
    RowIsQuiet(cfg, b, row, key);
    RowIsQuiet(cfg, a, line, key);
    NewCellAgain(cells[col], v);
    var cells' := cells[col := NewCell(cells[col], v)];
    hide Current, Cells, RowKey, Strip, Note, Config.Known, Generates, HashHeadings, CleanDefault, Rewritten, NewCell;
    assert KindOf(cfg, b, row) == Row(key, cells', col);
    assert KindOf(cfg, a, line) == Row(key, cells, col);
    hide KindOf;
    assert cells'[col := Note(Strip(cells'[col]))] == cells[col := Note(Strip(cells[col]))];
  }

  /** A rewritten row right of the first pipe. */
  lemma RowTwice(cfg: Config, lost: set<(string, string)>, a: Core, b: Core, n: nat, m: nat, line: string)
    requires HashHeadings(cfg) && Like(cfg, lost, a, b) && !a.skipping
    requires RowKey(line).Some? && a.defaultCol.Some? && 2 <= a.defaultCol.value < |Cells(line, false)|
    requires cfg.Known(a.table, RowKey(line).value) && (a.table, RowKey(line).value) !in a.seen
    requires CleanDefault(Get(cfg.Defaults(a.table), RowKey(line).value))
    ensures var key := RowKey(line).value; var v := Get(cfg.Defaults(a.table), key);
      Repeats(cfg, lost, a.(seen := a.seen[(a.table, key) := n]), ItemsOf(cfg, a, line), b, m,
              [Rewritten(Cells(line, false), a.defaultCol.value, v)])
  {
    var key, cells, col := RowKey(line).value, Cells(line, false), a.defaultCol.value;
    var row := Rewritten(cells, col, Get(cfg.Defaults(a.table), key));
    LikeWith(cfg, lost, a, b, n, m, key);
    RowProcessed(cfg, a, b, m, line, key, col);
    RunOne(cfg, b, m, row);
    LayoutOne(cfg, b, m, row);
    hide Process, ItemsOf, Current, Cells, RowKey, Layout, Run, Config.Known, HashHeadings, CleanDefault, Rewritten;
  }

  /** A rewritten row left of the first pipe is no row any more. */
  lemma RowLost(cfg: Config, lost: set<(string, string)>, a: Core, b: Core, n: nat, m: nat, line: string)
    requires HashHeadings(cfg) && Like(cfg, lost, a, b) && !a.skipping && !Generates(cfg, a, line)
    requires RowKey(line).Some? && a.defaultCol == Some(0)
    requires cfg.Known(a.table, RowKey(line).value) && (a.table, RowKey(line).value) !in a.seen
    ensures var key := RowKey(line).value; var v := Get(cfg.Defaults(a.table), key);
      Repeats(cfg, lost + LostBy(cfg, ItemsOf(cfg, a, line)), a.(seen := a.seen[(a.table, key) := n]),
              ItemsOf(cfg, a, line), b, m, [Rewritten(Cells(line, false), 0, v)])
  {
    var key := RowKey(line).value;
    var v := Get(cfg.Defaults(a.table), key);
    var row := Rewritten(Cells(line, false), 0, v);
    LostItem(cfg, a, line, key);
    LostProcessed(cfg, b, m, line, key, v);
    var x := ItemsOf(cfg, a, line)[0];
    hide *;
    LostOne(cfg, x);
    LikeWithout(cfg, lost, a, b, n, key);
    LikeAnyColumn(cfg, lost + LostBy(cfg, [x]), a.(seen := a.seen[(a.table, key) := n]), b, Current(cfg, b, row).defaultCol);
    LostRepeats(cfg, lost + LostBy(cfg, [x]), a.(seen := a.seen[(a.table, key) := n]), x, b, m, row);
  }

  lemma LostItem(cfg: Config, core: Core, line: string, key: string)
    requires RowKey(line) == Some(key) && !core.skipping && !Generates(cfg, core, line) && core.defaultCol == Some(0)
    requires cfg.Known(core.table, key)
    ensures |ItemsOf(cfg, core, line)| == 1
    ensures var x := ItemsOf(cfg, core, line)[0];
      ItemsOf(cfg, core, line) == [x] && Displaced(cfg, x) && x.table == core.table && x.key == key
  {
    hide Cells, RowKey, Strip, Note, Config.Known, Generates;
    assert KindOf(cfg, core, line) == Row(key, Cells(line, false), 0);
  }

  lemma LostProcessed(cfg: Config, b: Core, m: nat, line: string, key: string, v: Value)
    requires HashHeadings(cfg) && RowKey(line) == Some(key) && !b.skipping
    ensures var row := Rewritten(Cells(line, false), 0, v); var now := Current(cfg, b, row);
      Run(cfg, b, m, [row]) == Effect(now, [row], []) && now == b.(defaultCol := now.defaultCol)
  {
    hide Current, Cells, RowKey, Run, HashHeadings, Rewritten;
    var row := Rewritten(Cells(line, false), 0, v);
    LostRowIsKept(cfg, b, line, key, v);
    RunOne(cfg, b, m, row);
  }

  lemma LikeAnyColumn(cfg: Config, lost: set<(string, string)>, a: Core, b: Core, col: Option<nat>)
    requires Like(cfg, lost, a, b) && a.defaultCol == Some(0)
    ensures Like(cfg, lost, a, b.(defaultCol := col))
  {
  }

  lemma LostRepeats(cfg: Config, lost: set<(string, string)>, core: Core, x: Item, b: Core, m: nat, row: string)
    requires Run(cfg, b, m, [row]).Effect? && Run(cfg, b, m, [row]).out == [row] && Run(cfg, b, m, [row]).errors == []
    requires Like(cfg, lost, core, Run(cfg, b, m, [row]).core) && !NoneDisplaced(cfg, [x])
    ensures Repeats(cfg, lost, core, [x], b, m, [row])
  {
    hide Like, Run, NoneDisplaced;
  }

  lemma LostOne(cfg: Config, x: Item)
    requires Displaced(cfg, x)
    ensures LostBy(cfg, [x]) == if x.table in cfg.docs then {} else {(x.table, x.key)}
    ensures x in [x] && !NoneDisplaced(cfg, [x])
  {
    hide Config.Known;
    assert x in [x];
  }

  lemma LikeWithout(cfg: Config, lost: set<(string, string)>, a: Core, b: Core, n: nat, key: string)
    requires Like(cfg, lost, a, b) && (a.table, key) !in a.seen
    ensures Like(cfg, lost + if a.table in cfg.docs then {} else {(a.table, key)}, a.(seen := a.seen[(a.table, key) := n]), b)
  {
  }

  /** Such a row starts with a space and is kept on a second pass, whatever its default holds. */
  lemma LostRowIsKept(cfg: Config, core: Core, line: string, key: string, v: Value)
    requires HashHeadings(cfg) && RowKey(line) == Some(key) && !core.skipping
    ensures var row := Rewritten(Cells(line, false), 0, v); var now := Current(cfg, core, row);
      KindOf(cfg, now, row) == Kept && now == core.(defaultCol := now.defaultCol)
  {
    hide Cells, IndexOf, Strip, KeyCell;
    var cells := Cells(line, false);
    RowKeyIsKey(line);
    RowCells(line, key);
    var row := Rewritten(cells, 0, v);
    assert row == NewCell(cells[0], v) + "|" + Join(cells[0 := NewCell(cells[0], v)][1..]);
    assert row[0] == ' ' && OPENING[0] == '|' && "| `"[0] == '|';
    NoHeading(cfg.headings, row);
  }

  lemma GeneratedIsQuiet(cfg: Config, core: Core, line: string)
    requires HashHeadings(cfg) && KindOf(cfg, Current(cfg, core, line), line).Generated?
    ensures Current(cfg, core, line) == core && !core.skipping && Generates(cfg, core, line)
  {
    assert StartsWith(line, OPENING) && line[0] == OPENING[0];
    NoHeading(cfg.headings, line);
    hide Cells, RowKey, IsHeader, IndexOf, HeadingOf;
  }

  /** A line taken without a refusal leaves lines that are taken the same again. */
  lemma LineAgain(cfg: Config, lost: set<(string, string)>, a: Core, b: Core, n: nat, m: nat, line: string)
    requires HashHeadings(cfg) && Like(cfg, lost, a, b) && a.defaultCol != Some(1)
    requires var one := Process(cfg, a, n, line); one.Effect? && one.errors == []
    requires CleanItems(cfg, ItemsOf(cfg, Current(cfg, a, line), line))
    ensures var one := Process(cfg, a, n, line); var items := ItemsOf(cfg, Current(cfg, a, line), line);
      one.core.defaultCol != Some(1) && Repeats(cfg, lost + LostBy(cfg, items), one.core, items, b, m, one.out)
  {
    var core := Current(cfg, a, line);
    var items := ItemsOf(cfg, core, line);
    CurrentAgain(cfg, lost, a, b, line);
    match KindOf(cfg, core, line) {
      case Skipped =>
        SkippedIsQuiet(cfg, a, line);
        NothingAgain(cfg, lost, a, b, m);
      case Generated =>
        GeneratedIsQuiet(cfg, a, line);
        BlockAgain(cfg, lost, a, b, n, m, line);
        NothingLost(cfg, lost, items);
      case Kept =>
        SameAgain(cfg, lost, a, b, n, m, line);
        NothingLost(cfg, lost, items);
      case Row(key, cells, col) =>
        RowIsQuiet(cfg, a, line, key);
        RowLineAgain(cfg, lost, a, b, n, m, line, key, cells, col);
    }
    hide *;
  }

  lemma NothingAgain(cfg: Config, lost: set<(string, string)>, a: Core, b: Core, m: nat)
    requires Like(cfg, lost, a, b)
    ensures Repeats(cfg, lost + LostBy(cfg, []), a, [], b, m, [])
  {
    hide Like;
    assert lost + LostBy(cfg, []) == lost;
  }

  lemma NothingLost(cfg: Config, lost: set<(string, string)>, items: seq<Item>)
    requires forall x :: x in items ==> !DisplacedByHand(cfg, x)
    ensures lost + LostBy(cfg, items) == lost
  {
    hide DisplacedByHand;
  }

  lemma RowLineAgain(cfg: Config, lost: set<(string, string)>, a: Core, b: Core, n: nat, m: nat, line: string,
                     key: string, cells: seq<string>, col: nat)
    requires HashHeadings(cfg) && Like(cfg, lost, a, b) && a.defaultCol != Some(1)
    requires Current(cfg, a, line) == a && KindOf(cfg, a, line) == Row(key, cells, col)
    requires var one := Process(cfg, a, n, line); one.Effect? && one.errors == []
    requires CleanItems(cfg, ItemsOf(cfg, a, line))
    ensures var one := Process(cfg, a, n, line); var items := ItemsOf(cfg, a, line);
      one.core.defaultCol != Some(1) && Repeats(cfg, lost + LostBy(cfg, items), one.core, items, b, m, one.out)
  {
    hide Like, Current, Cells, RowKey, Layout, Run, Config.Known, HashHeadings, CleanDefault, Rewritten, Repeats, LostBy, Retired;
    var items := ItemsOf(cfg, a, line);
    var x := items[0];
    assert x in items;
    RowKindIs(cfg, lost, a, b, line, key, cells, col);
    if !cfg.Known(a.table, key) {
      SameAgain(cfg, lost, a, b, n, m, line);
      NothingLost(cfg, lost, items);
    } else if col == 0 {
      RowLost(cfg, lost, a, b, n, m, line);
    } else {
      RowTwice(cfg, lost, a, b, n, m, line);
      NothingLost(cfg, lost, items);
    }
  }

  lemma RowKindIs(cfg: Config, lost: set<(string, string)>, a: Core, b: Core, line: string,
                  key: string, cells: seq<string>, col: nat)
    requires Like(cfg, lost, a, b) && KindOf(cfg, a, line) == Row(key, cells, col)
    ensures RowKey(line) == Some(key) && cells == Cells(line, false) && col < |cells| && a.defaultCol == Some(col)
    ensures !a.skipping && !Generates(cfg, a, line)
  {
    hide Cells, RowKey, Like;
  }

  // ---------------------------------------------------------------- a page, twice

  lemma NoErrors(a: Effect, b: Effect)
    requires a.Effect? && Then(a, b).Effect? && Then(a, b).errors == []
    ensures b.Effect? && a.errors == [] && b.errors == []
  {
    assert |a.errors + b.errors| == |a.errors| + |b.errors|;
  }

  lemma ItemsApart(cfg: Config, a: seq<Item>, b: seq<Item>)
    ensures CleanItems(cfg, a + b) <==> CleanItems(cfg, a) && CleanItems(cfg, b)
    ensures NoneDisplaced(cfg, a + b) <==> NoneDisplaced(cfg, a) && NoneDisplaced(cfg, b)
    ensures LostBy(cfg, a + b) == LostBy(cfg, a) + LostBy(cfg, b)
  {
    hide CleanItem, Displaced, DisplacedByHand;
    assert forall x :: x in a ==> x in a + b;
    assert forall x :: x in b ==> x in a + b;
  }

  lemma RepeatsThen(cfg: Config, lost: set<(string, string)>, b: Core, m: nat,
                    core1: Core, items1: seq<Item>, out1: seq<string>, gone: set<(string, string)>,
                    core2: Core, items2: seq<Item>, out2: seq<string>)
    requires Repeats(cfg, lost, core1, items1, b, m, out1)
    requires Repeats(cfg, lost + gone, core2, items2, Run(cfg, b, m, out1).core, m + |out1|, out2)
    ensures Repeats(cfg, lost + gone, core2, items1 + items2, b, m, out1 + out2)
  {
    hide Run, Layout, Like, NoneDisplaced, LostBy, Then;
    RunAppend(cfg, b, m, out1, out2);
    LayoutAppend(cfg, b, m, out1, out2);
    ItemsApart(cfg, items1, items2);
    ThenIs(Run(cfg, b, m, out1), Run(cfg, Run(cfg, b, m, out1).core, m + |out1|, out2));
  }

  lemma {:induction false} PageAgain(cfg: Config, lost: set<(string, string)>, a: Core, b: Core, n: nat, m: nat, lines: seq<string>)
    requires HashHeadings(cfg) && Like(cfg, lost, a, b) && a.defaultCol != Some(1)
    requires var run := Run(cfg, a, n, lines); run.Effect? && run.errors == []
    requires CleanItems(cfg, Layout(cfg, a, n, lines))
    ensures var run := Run(cfg, a, n, lines); var items := Layout(cfg, a, n, lines);
      Repeats(cfg, lost + LostBy(cfg, items), run.core, items, b, m, run.out)
    decreases |lines|
  {
    hide Process, ItemsOf, Current, Like, CleanItems, Then, HashHeadings;
    if lines == [] {
      NothingAgain(cfg, lost, a, b, m);
    } else {
      var one, items := Process(cfg, a, n, lines[0]), ItemsOf(cfg, Current(cfg, a, lines[0]), lines[0]);
      var rest, more := Run(cfg, one.core, n + 1, lines[1..]), Layout(cfg, one.core, n + 1, lines[1..]);
      NoErrors(one, rest);
      ThenIs(one, rest);
      ItemsApart(cfg, items, more);
      var gone := LostBy(cfg, items);
      LineAgain(cfg, lost, a, b, n, m, lines[0]);
      var next := Run(cfg, b, m, one.out).core;
      RepeatsLike(cfg, lost + gone, one.core, items, b, m, one.out);
      PageAgain(cfg, lost + gone, one.core, next, n + 1, m + |one.out|, lines[1..]);
      hide Run, Layout, Repeats, LostBy;
      RepeatsThen(cfg, lost + gone, b, m, one.core, items, one.out, LostBy(cfg, more), rest.core, more, rest.out);
      assert lost + gone + LostBy(cfg, more) == lost + LostBy(cfg, items + more);
    }
  }

  lemma RepeatsLike(cfg: Config, lost: set<(string, string)>, core: Core, items: seq<Item>, b: Core, m: nat, out: seq<string>)
    requires Repeats(cfg, lost, core, items, b, m, out)
    ensures Run(cfg, b, m, out).Effect? && Like(cfg, lost, core, Run(cfg, b, m, out).core)
  {
  }

  // ---------------------------------------------------------------- the refusals after the loop

  /** Every key of the table has been seen. */
  predicate AllSeen(core: Core, table: string, t: Table) {
    forall i :: 0 <= i < |t| ==> (table, t[i].0) in core.seen
  }

  lemma {:induction false} MissingRowsIff(core: Core, table: string, t: Table)
    ensures MissingRows(core, table, t) == [] <==> AllSeen(core, table, t)
  {
    if t != [] {
      MissingRowsIff(core, table, t[1..]);
      assert forall i :: 1 <= i < |t| ==> t[i] == t[1..][i - 1];
      assert AllSeen(core, table, t) <==> (table, t[0].0) in core.seen && AllSeen(core, table, t[1..]);
    }
  }

  lemma {:induction false} AllMissingRowsIff(cfg: Config, core: Core, names: seq<string>)
    ensures AllMissingRows(cfg, core, names) == []
      <==> forall i :: 0 <= i < |names| && names[i] !in cfg.docs ==> AllSeen(core, names[i], cfg.Defaults(names[i]))
  {
    hide AllSeen, MissingRows;
    if names != [] {
      AllMissingRowsIff(cfg, core, names[1..]);
      MissingRowsIff(core, names[0], cfg.Defaults(names[0]));
      assert forall i :: 1 <= i < |names| ==> names[i] == names[1..][i - 1];
    }
  }

  lemma {:induction false} MissingTablesIff(cfg: Config, core: Core, names: seq<string>)
    ensures MissingTables(cfg, core, names) == []
      <==> forall i :: 0 <= i < |names| && names[i] in cfg.docs ==> names[i] in core.generated
  {
    if names != [] {
      MissingTablesIff(cfg, core, names[1..]);
      assert forall i :: 1 <= i < |names| ==> names[i] == names[1..][i - 1];
    }
  }

  /** No key of a hand-written table is missing after the second pass unless its row was displaced. */
  lemma LostRowsAreMissing(cfg: Config, lost: set<(string, string)>, a: Core, b: Core)
    requires Like(cfg, lost, a, b) && FinalErrors(cfg, a) == []
    requires forall p :: p in lost ==> p.0 in cfg.names && cfg.Known(p.0, p.1)
    ensures FinalErrors(cfg, b) == [] <==> lost == {}
  {
    hide AllMissingRows, MissingTables, Config.Defaults;
    MissingTablesIff(cfg, a, cfg.names);
    MissingTablesIff(cfg, b, cfg.names);
    AllMissingRowsIff(cfg, a, cfg.names);
    AllMissingRowsIff(cfg, b, cfg.names);
    var x, y := MissingTables(cfg, b, cfg.names), AllMissingRows(cfg, b, cfg.names);
    assert |x + y| == |x| + |y|;
    assert |MissingTables(cfg, a, cfg.names) + AllMissingRows(cfg, a, cfg.names)| == 0;
    if lost != {} {
      var p :| p in lost;
      var i :| 0 <= i < |cfg.names| && cfg.names[i] == p.0;
      var j :| 0 <= j < |cfg.Defaults(p.0)| && cfg.Defaults(p.0)[j].0 == p.1;
      assert (p.0, p.1) !in b.seen;
      assert !AllSeen(b, cfg.names[i], cfg.Defaults(cfg.names[i]));
    } else {
      forall i | 0 <= i < |cfg.names| && cfg.names[i] !in cfg.docs
        ensures AllSeen(b, cfg.names[i], cfg.Defaults(cfg.names[i]))
      {
        assert AllSeen(a, cfg.names[i], cfg.Defaults(cfg.names[i]));
      }
    }
  }

  /** Known tables are registered. */
  lemma LostIsKnown(cfg: Config, items: seq<Item>)
    requires Registered(cfg)
    ensures forall p :: p in LostBy(cfg, items) ==> p.0 in cfg.names && cfg.Known(p.0, p.1)
    ensures LostBy(cfg, items) == {} <==> forall x :: x in items ==> !DisplacedByHand(cfg, x)
  {
    forall x | x in items && DisplacedByHand(cfg, x)
      ensures (x.table, x.key) in LostBy(cfg, items) && x.table in cfg.names
    {
      assert cfg.Defaults(x.table) != [];
    }
  }

  /** The page is accepted. */
  predicate Accepted(cfg: Config, lines: seq<string>)
    requires cfg.Valid()
  {
    Sync(cfg, lines).Page? && Sync(cfg, lines).errors == []
  }

  lemma AcceptedRun(cfg: Config, lines: seq<string>)
    requires cfg.Valid()
    ensures Accepted(cfg, lines) <==>
            var run := Run(cfg, Start(cfg), 1, lines);
            Registered(cfg) && run.Effect? && run.errors == [] && FinalErrors(cfg, run.core) == []
  {
    hide Run, FinalErrors, Registered;
    var run := Run(cfg, Start(cfg), 1, lines);
    if run.Effect? {
      assert |run.errors + FinalErrors(cfg, run.core)| == |run.errors| + |FinalErrors(cfg, run.core)|;
    }
  }

  /**
   An accepted page with clean defaults right of the first pipe is a fixpoint. It is accepted again exactly when no row of
   a hand-written table stands under a header whose first cell is "default", and then, if no other
   table has such a row either, both pages have the same layout.
   */
  lemma SyncIsIdempotent(cfg: Config, lines: seq<string>)
    requires cfg.Valid() && HashHeadings(cfg) && Accepted(cfg, lines) && CleanItems(cfg, PageLayout(cfg, lines))
    ensures var page := Sync(cfg, lines).lines; var items := PageLayout(cfg, lines);
      && Sync(cfg, page).Page? && Sync(cfg, page).lines == page
      && (Accepted(cfg, page) <==> forall x :: x in items ==> !DisplacedByHand(cfg, x))
      && (NoneDisplaced(cfg, items) ==> PageLayout(cfg, page) == items)
  {
    var page, items, core := Sync(cfg, lines).lines, PageLayout(cfg, lines), Start(cfg);
    AcceptedRun(cfg, lines);
    PageAgain(cfg, {}, core, core, 1, 1, lines);
    var lost := {} + LostBy(cfg, items);
    assert lost == LostBy(cfg, items);
    LostIsKnown(cfg, items);
    var run, again := Run(cfg, core, 1, lines), Run(cfg, core, 1, page);
    LostRowsAreMissing(cfg, lost, run.core, again.core);
    AcceptedRun(cfg, page);
    hide Run, Layout, FinalErrors, Like, LostBy, DisplacedByHand, Registered, HashHeadings;
  }
}
