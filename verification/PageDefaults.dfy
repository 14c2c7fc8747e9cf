/**
 What the page says about each default: rows that were set and generated rows open their default
 cell with the text of the parser's value, and on an accepted page every default has such a row.
 */
module PageDefaults {
  import opened PageText
  import opened PageTables
  import opened PageSync
  import opened PageFixpoint
  import opened PageRows
  import opened PageCells
  import opened Wrappers

  /** The text of a default that has one of its own. */
  function Content(v: Value): string {
    match v
    case Text(s) => s
    case Number(text) => text
    case _ => ""
  }

  /** What a default cell starts with; `code` is the default's text in backticks, as the row spells it. */
  predicate Opens(v: Value, code: string, cell: string) {
    match v
    case NoDefault => "unset" <= cell
    case Flag(b) => (b ==> "`true`" <= cell) && (!b ==> "`false`" <= cell)
    case Text(s) => if s == "" then "`\"\"`" <= cell else code <= cell
    case Number(_) => code <= cell
  }

  /** The line is the row of the key, and its cell `col` starts, after a blank, with the default. */
  predicate Shows(line: string, key: string, col: nat, v: Value, code: string) {
    var cells := Cells(line, false);
    RowKey(line) == Some(key) && col < |cells| && " " <= cells[col] && Opens(v, code, cells[col][1..])
  }

  /** A default in backticks. */
  function Code(v: Value): string { "`" + Content(v) + "`" }

  lemma OpensFurther(v: Value, code: string, a: string, b: string)
    requires Opens(v, code, a)
    ensures Opens(v, code, a + b)
  {
  }

  lemma RenderOpens(v: Value)
    ensures Opens(v, Code(v), RenderDefault(v))
  {
  }

  /** A row that was set shows a clean default as it is. */
  lemma SetRowShows(line: string, key: string, col: nat, v: Value)
    requires RowKey(line) == Some(key) && 2 <= col < |Cells(line, false)| && CleanDefault(v)
    ensures Shows(Rewritten(Cells(line, false), col, v), key, col, v, Code(v))
  {
    hide Cells, RowKey, Rewritten, CleanDefault, RenderDefault, Note, Strip, Opens;
    RowAgain(line, key, col, v);
    RenderOpens(v);
    var cell := Cells(line, false)[col];
    OpensFurther(v, Code(v), RenderDefault(v), Note(Strip(cell)) + " ");
    assert NewCell(cell, v) == " " + (RenderDefault(v) + (Note(Strip(cell)) + " "));
  }

  // ---------------------------------------------------------------- generated rows

  /** Letters, quotes and backticks are written as they are. */
  lemma PlainStays(t: string)
    requires forall i :: 0 <= i < |t| ==> '`' <= t[i] <= 'z' || t[i] == '\"'
    ensures CellText(t) == t
  {
    hide Cells, Collapse, EscapePipes;
    PlainIsWhole(t, false);
    CellTextIsText(t);
  }

  lemma FlagStays(b: bool)
    ensures CellText(if b then "`true`" else "`false`") == if b then "`true`" else "`false`"
  {
    PlainStays(if b then "`true`" else "`false`");
    hide *;
  }

  lemma EscapedOpens(v: Value)
    ensures Opens(v, CellText(Code(v)), CellText(RenderDefault(v)))
  {
    hide CellText;
    match v {
      case NoDefault => PlainStays("unset");
      case Flag(b) => FlagStays(b);
      case Text(s) =>
        if s == "" {
          PlainStays("`\"\"`");
        }
      case Number(_) =>
    }
  }

  lemma DefaultTextOpens(v: Value, e: Entry)
    requires e.Entry?
    ensures Opens(v, CellText(Code(v)), CellText(DefaultText(v, e)))
  {
    hide CellText, RenderDefault, Opens;
    EscapedOpens(v);
    if e.note != "" {
      var head, note := RenderDefault(v), "(" + e.note + ")";
      assert DefaultText(v, e) == head + " " + note;
      CellTextOfParts(head, note);
      var x, y := CellText(head), CellText(note);
      OpensFurther(v, CellText(Code(v)), x, if y == "" then "" else if x == "" then y else " " + y);
      assert "" + y == y && x + "" == x && x + " " + y == x + (" " + y);
    }
  }

  /** The cells of a joined row up to its third one, whatever follows. */
  lemma ThirdCell(a: string, b: string, c: string, rest: string)
    requires Whole(a) && Whole(b) && Whole(c) && !EndsInBackslash(a) && !EndsInBackslash(b) && !EndsInBackslash(c)
    ensures var cells := Cells(a + "|" + (b + "|" + (c + "|" + rest)), false); |cells| > 2 && cells[2] == c
  {
    CellsAppend(a, b + "|" + (c + "|" + rest), false);
    CellsAppend(b, c + "|" + rest, false);
    CellsAppend(c, rest, false);
    hide Cells, EndsInBackslash;
  }

  /** A generated row shows its default, escaped, whatever its other texts are. */
  lemma DocRowShows(key: string, v: Value, e: Entry)
    requires e.Entry? && IsKey(key)
    ensures Shows(DocRow(key, v, e), key, 2, v, CellText(Code(v)))
  {
    hide *;
    var shown := CellText(DefaultText(v, e));
    var cell := " " + shown + " ";
    DefaultTextIsWhole(v, e);
    EmptyIsWhole();
    KeyCellIsWhole(key);
    DocRowReadsBack(key, v, e);
    DocRowCells(key, v, e);
    DefaultTextOpens(v, e);
    ThirdCell("", KeyCell(key), cell, " " + CellText(e.meaning) + " |" + (" " + RefusedBy(e) + " |"));
    OpensFurther(v, CellText(Code(v)), shown, " ");
    assert cell[1..] == shown + " " && " " <= cell;
    ShowsIs(DocRow(key, v, e), key, 2, v, CellText(Code(v)));
  }

  lemma ShowsIs(line: string, key: string, col: nat, v: Value, code: string)
    ensures Shows(line, key, col, v, code) <==>
      var cells := Cells(line, false);
      RowKey(line) == Some(key) && col < |cells| && " " <= cells[col] && Opens(v, code, cells[col][1..])
  {
  }

  lemma EmptyIsWhole()
    ensures Whole("") && !EndsInBackslash("")
  {
  }

  lemma DefaultTextIsWhole(v: Value, e: Entry)
    requires e.Entry?
    ensures var cell := " " + CellText(DefaultText(v, e)) + " "; Whole(cell) && !EndsInBackslash(cell)
  {
    hide Collapse, EscapePipes, DefaultText, Cells;
    EscapedIsWhole(Collapse(DefaultText(v, e)), false);
    PaddedIsWhole(CellText(DefaultText(v, e)));
  }

  lemma DocRowCells(key: string, v: Value, e: Entry)
    requires e.Entry?
    ensures DocRow(key, v, e) == "" + "|" + (KeyCell(key) + "|" + (" " + CellText(DefaultText(v, e)) + " " + "|"
                                 + (" " + CellText(e.meaning) + " |" + (" " + RefusedBy(e) + " |"))))
  {
    hide CellText, Quoted, RenderDefault;
  }

  /** Blanks, letters and dashes. */
  predicate Wordy(s: string) { forall i :: 0 <= i < |s| ==> s[i] == ' ' || s[i] == '-' || 'a' <= s[i] <= 'z' }

  lemma WordyIsWhole(s: string)
    requires Wordy(s)
    ensures Whole(s) && !EndsInBackslash(s)
  {
    PlainIsWhole(s, false);
  }

  lemma FourColumns(a: string, b: string, c: string, d: string)
    requires Wordy(a) && Wordy(b) && Wordy(c) && Wordy(d)
    ensures Cells("" + "|" + (a + "|" + (b + "|" + (c + "|" + (d + "|" + "")))), false) == ["", a, b, c, d, ""]
  {
    WordyIsWhole("");
    WordyIsWhole(a);
    WordyIsWhole(b);
    WordyIsWhole(c);
    WordyIsWhole(d);
    hide Whole, EndsInBackslash, Wordy, Cells, Join;
    CellsOfJoin(["", a, b, c, d, ""]);
    JoinSix("", a, b, c, d, "");
  }

  lemma OnTheRight(a: string, rest: string)
    ensures "" + "|" + (a + "|") + rest == "" + "|" + (a + "|" + rest)
  {
  }

  /** The generated header names four columns, the second of them "default". */
  lemma HeaderNamesColumns()
    ensures Cells(HEADER, false) == ["", " key ", " default ", " meaning ", " refused by ", ""]
  {
    var tail := " meaning " + "|" + (" refused by " + "|" + "");
    assert tail == " meaning | refused by |";
    assert OPENING == "" + "|" + (" key " + "|");
    FourColumns(" key ", " default ", " meaning ", " refused by ");
    hide Cells, Wordy;
    assert HEADER == OPENING + (" default " + "|" + tail);
    OnTheRight(" key ", " default " + "|" + tail);
  }

  /** The line below it has as many. */
  lemma RulerIsAsWide()
    ensures Cells(RULER, false) == ["", "---", "---", "---", "---", ""]
  {
    FourColumns("---", "---", "---", "---");
    hide Cells, Wordy;
    assert RULER == "" + "|" + ("---" + "|" + ("---" + "|" + ("---" + "|" + ("---" + "|" + ""))));
  }

  // ---------------------------------------------------------------- an accepted page

  /** A header line whose cell `col` is "default". */
  predicate NamesDefault(line: string, col: nat) {
    var cells := Cells(line, false);
    |cells| >= 3 && Strip(cells[1]) == "key" && col < |cells| && Strip(cells[col]) == "default"
  }

  /** The default column in force is one that a header of the page names. */
  predicate ColumnIsNamed(page: seq<string>, col: Option<nat>) {
    col.Some? ==> exists h :: 0 <= h < |page| && NamesDefault(page[h], col.value)
  }

  /** The line is the row of the item, written out with its parser's default. */
  predicate SetFrom(cfg: Config, line: string, out: seq<string>, x: Item)
    requires x.Entry?
  {
    && cfg.Known(x.table, x.key) && RowKey(line) == Some(x.key) && x.col < |Cells(line, false)| && x.col != 1
    && Rewritten(Cells(line, false), x.col, Get(cfg.Defaults(x.table), x.key)) in out
  }

  /** What was put out for an item: a row of a parser key set, a generated table whole. */
  predicate PutOut(cfg: Config, page: seq<string>, out: seq<string>, x: Item) {
    match x
    case Line(_) => true
    case Made(table) => table in cfg.docs && forall i :: 0 <= i < |Block(cfg, table)| ==> Block(cfg, table)[i] in out
    case Entry(table, key, col, _) =>
      cfg.Known(table, key) ==>
        ColumnIsNamed(page, Some(col)) && exists i :: 0 <= i < |page| && SetFrom(cfg, page[i], out, x)
  }

  lemma ColumnStays(cfg: Config, core: Core, page: seq<string>, i: nat)
    requires i < |page| && ColumnIsNamed(page, core.defaultCol)
    ensures ColumnIsNamed(page, Current(cfg, core, page[i]).defaultCol)
  {
    hide Cells, HeadingOf, Generates, Strip;
    HeaderColumn(Cells(page[i], false));
  }

  lemma LinePutsOut(cfg: Config, core: Core, n: nat, page: seq<string>, i: nat)
    requires i < |page| && ColumnIsNamed(page, core.defaultCol) && core.defaultCol != Some(1)
    requires Process(cfg, core, n, page[i]).Effect?
    ensures var one := Process(cfg, core, n, page[i]);
      && ColumnIsNamed(page, one.core.defaultCol) && one.core.defaultCol != Some(1)
      && forall x :: x in ItemsOf(cfg, Current(cfg, core, page[i]), page[i]) ==> PutOut(cfg, page, one.out, x)
  {
    var now := Current(cfg, core, page[i]);
    ColumnStays(cfg, core, page, i);
    ColumnIsNotKey(cfg, core, page[i]);
    match KindOf(cfg, now, page[i]) {
      case Row(key, cells, col) => RowPutsOut(cfg, now, n, page, i);
      case Generated => TablePutsOut(cfg, now, n, page, page[i]);
      case _ =>
    }
    hide KindOf, Current, ColumnIsNamed, PutOut, RowEffect;
  }

  lemma TablePutsOut(cfg: Config, core: Core, n: nat, page: seq<string>, line: string)
    requires KindOf(cfg, core, line).Generated?
    ensures AfterBlock(cfg, core, n).defaultCol == core.defaultCol
    ensures forall x :: x in ItemsOf(cfg, core, line) ==> PutOut(cfg, page, Block(cfg, core.table), x)
  {
    hide Cells, RowKey, Block, SeenAll;
  }

  lemma RowPutsOut(cfg: Config, core: Core, n: nat, page: seq<string>, i: nat)
    requires i < |page| && ColumnIsNamed(page, core.defaultCol) && core.defaultCol != Some(1)
    requires KindOf(cfg, core, page[i]).Row?
    ensures var k := KindOf(cfg, core, page[i]); var e := RowEffect(cfg, core, n, page[i], k.key, k.cells, k.col);
      && e.core.defaultCol == core.defaultCol
      && forall x :: x in ItemsOf(cfg, core, page[i]) ==> PutOut(cfg, page, e.out, x)
  {
    hide Cells, RowKey, ColumnIsNamed, Config.Known, Config.Defaults, Rewritten, Note, Strip, Retired, Generates;
    var k := KindOf(cfg, core, page[i]);
    var e := RowEffect(cfg, core, n, page[i], k.key, k.cells, k.col);
    forall x | x in ItemsOf(cfg, core, page[i]) && cfg.Known(x.table, x.key)
      ensures SetFrom(cfg, page[i], e.out, x)
    {
    }
  }

  lemma ColumnIsNotKey(cfg: Config, core: Core, line: string)
    requires core.defaultCol != Some(1)
    ensures Current(cfg, core, line).defaultCol != Some(1)
  {
    hide Cells, HeadingOf, Generates, IndexOf, IsHeader;
    HeaderColumn(Cells(line, false));
  }

  lemma PutOutFurther(cfg: Config, page: seq<string>, a: seq<string>, out: seq<string>, b: seq<string>, x: Item)
    requires PutOut(cfg, page, out, x)
    ensures PutOut(cfg, page, a + out + b, x)
  {
    hide Cells, RowKey, Rewritten, Config.Known, Config.Defaults, ColumnIsNamed, Block;
    assert forall s :: s in out ==> s in a + out + b;
    if x.Entry? && cfg.Known(x.table, x.key) {
      var i :| 0 <= i < |page| && SetFrom(cfg, page[i], out, x);
      assert SetFrom(cfg, page[i], a + out + b, x);
    }
  }

  lemma {:induction false} PagePutsOut(cfg: Config, core: Core, n: nat, page: seq<string>, i: nat)
    requires i <= |page| && ColumnIsNamed(page, core.defaultCol) && core.defaultCol != Some(1)
    requires Run(cfg, core, n, page[i..]).Effect?
    ensures forall x :: x in Layout(cfg, core, n, page[i..]) ==> PutOut(cfg, page, Run(cfg, core, n, page[i..]).out, x)
    decreases |page| - i
  {
    hide Process, ItemsOf, Current, Then, PutOut, ColumnIsNamed;
    if i < |page| {
      assert page[i..][0] == page[i] && page[i..][1..] == page[i + 1..];
      var one := Process(cfg, core, n, page[i]);
      var rest := Run(cfg, one.core, n + 1, page[i + 1..]);
      ThenIs(one, rest);
      LinePutsOut(cfg, core, n, page, i);
      PagePutsOut(cfg, one.core, n + 1, page, i + 1);
      forall x | x in Layout(cfg, core, n, page[i..])
        ensures PutOut(cfg, page, one.out + rest.out, x)
      {
        if x in ItemsOf(cfg, Current(cfg, core, page[i]), page[i]) {
          PutOutFurther(cfg, page, [], one.out, rest.out, x);
          assert [] + one.out + rest.out == one.out + rest.out;
        } else {
          PutOutFurther(cfg, page, one.out, rest.out, [], x);
          assert one.out + rest.out + [] == one.out + rest.out;
        }
      }
    }
  }

  /** Some line of the text shows the default in the row of the key. */
  predicate ShownIn(out: seq<string>, key: string, col: nat, v: Value, code: string) {
    exists j :: 0 <= j < |out| && Shows(out[j], key, col, v, code)
  }

  lemma ShownBy(out: seq<string>, line: string, key: string, col: nat, v: Value, code: string)
    requires line in out && Shows(line, key, col, v, code)
    ensures ShownIn(out, key, col, v, code)
  {
    hide Shows;
    var j :| 0 <= j < |out| && out[j] == line;
  }

  lemma {:induction false} RowIsThere(t: Table, docs: Docs, i: nat)
    requires i < |t| && Documented(docs, t[i].0)
    ensures DocRow(t[i].0, t[i].1, Lookup(docs, t[i].0).value) in DocRows(t, docs)
  {
    hide DocRow, Lookup, WellFormed;
    if i > 0 {
      RowIsThere(t[1..], docs, i - 1);
    }
  }

  /**
   On every page without an index error, refused or not, a row of a parser key shows a clean
   default in a column that a header of the page calls "default", unless that is the text left of
   the first pipe; and a generated table shows the default of each documented key.
   */
  lemma PageShowsDefaults(cfg: Config, lines: seq<string>)
    requires cfg.Valid() && Sync(cfg, lines).Page?
    ensures forall x :: x in PageLayout(cfg, lines) ==> ItemShows(cfg, lines, Sync(cfg, lines).lines, x)
  {
    hide Run, Layout, FinalErrors, PutOut, ItemShows;
    assert lines[0..] == lines;
    var out := Run(cfg, Start(cfg), 1, lines).out;
    StartsUnnamed(cfg, lines);
    PagePutsOut(cfg, Start(cfg), 1, lines, 0);
    forall x | x in PageLayout(cfg, lines)
      ensures ItemShows(cfg, lines, out, x)
    {
      PutOutShows(cfg, lines, out, x);
    }
  }

  lemma StartsUnnamed(cfg: Config, page: seq<string>)
    requires cfg.Valid()
    ensures ColumnIsNamed(page, Start(cfg).defaultCol) && Start(cfg).defaultCol != Some(1)
  {
  }

  predicate ItemShows(cfg: Config, page: seq<string>, out: seq<string>, x: Item) {
    match x
    case Line(_) => true
    case Made(table) =>
      table in cfg.docs && forall i :: 0 <= i < |cfg.Defaults(table)| ==> TableShows(cfg.Defaults(table)[i], cfg.docs[table], out)
    case Entry(table, key, col, _) =>
      cfg.Known(table, key) && col != 0 && CleanDefault(Get(cfg.Defaults(table), key)) ==>
        var v := Get(cfg.Defaults(table), key);
        ColumnIsNamed(page, Some(col)) && ShownIn(out, key, col, v, Code(v))
  }

  predicate TableShows(p: (string, Value), docs: Docs, out: seq<string>) {
    Documented(docs, p.0) && IsKey(p.0) ==> ShownIn(out, p.0, 2, p.1, CellText(Code(p.1)))
  }

  lemma PutOutShows(cfg: Config, page: seq<string>, out: seq<string>, x: Item)
    requires PutOut(cfg, page, out, x)
    ensures ItemShows(cfg, page, out, x)
  {
    hide Cells, RowKey, Rewritten, Config.Known, Config.Defaults, ColumnIsNamed, CleanDefault, ShownIn, Block, Code, TableShows;
    match x {
      case Line(_) =>
      case Made(table) =>
        forall i | 0 <= i < |cfg.Defaults(table)|
          ensures TableShows(cfg.Defaults(table)[i], cfg.docs[table], out)
        {
          BlockShows(cfg, table, out, i);
        }
      case Entry(table, key, col, _) =>
        if cfg.Known(table, key) && col != 0 && CleanDefault(Get(cfg.Defaults(table), key)) {
          var v := Get(cfg.Defaults(table), key);
          var i :| 0 <= i < |page| && SetFrom(cfg, page[i], out, x);
          SetRowShows(page[i], key, col, v);
          ShownBy(out, Rewritten(Cells(page[i], false), col, v), key, col, v, Code(v));
        }
    }
  }

  lemma BlockShows(cfg: Config, table: string, out: seq<string>, i: nat)
    requires table in cfg.docs && i < |cfg.Defaults(table)|
    requires forall k :: 0 <= k < |Block(cfg, table)| ==> Block(cfg, table)[k] in out
    ensures TableShows(cfg.Defaults(table)[i], cfg.docs[table], out)
  {
    hide Config.Defaults, DocRows, DocRow, ShownIn, CellText, Code, IsKey, Lookup;
    var t, docs := cfg.Defaults(table), cfg.docs[table];
    if Documented(docs, t[i].0) && IsKey(t[i].0) {
      var row := DocRow(t[i].0, t[i].1, Lookup(docs, t[i].0).value);
      RowIsThere(t, docs, i);
      var k :| 0 <= k < |DocRows(t, docs)| && DocRows(t, docs)[k] == row;
      assert Block(cfg, table)[k + 2] == row;
      DocRowShows(t[i].0, t[i].1, Lookup(docs, t[i].0).value);
      ShownBy(out, row, t[i].0, 2, t[i].1, CellText(Code(t[i].1)));
    }
  }

  lemma {:induction false} CountedIsThere(items: seq<Item>, p: (string, string))
    ensures RowCount(items, p) > 0 ==> exists x :: x in items && IsRowOf(x, p)
    ensures MadeCount(items, p.0) > 0 ==> Made(p.0) in items
  {
    if items != [] {
      CountedIsThere(items[1..], p);
      assert forall x :: x in items[1..] ==> x in items;
      assert items[0] in items;
    }
  }

  lemma HandWrittenIsShown(cfg: Config, lines: seq<string>, table: string, i: nat)
    requires cfg.Valid() && Accepted(cfg, lines) && NoneDisplaced(cfg, PageLayout(cfg, lines))
    requires table in cfg.names && table !in cfg.docs && i < |cfg.Defaults(table)|
    ensures var t := cfg.Defaults(table); assert t[i] in t && Has(t, t[i].0); var v := Get(t, t[i].0);
      CleanDefault(v) ==>
        exists col: nat :: ColumnIsNamed(lines, Some(col)) && ShownIn(Sync(cfg, lines).lines, t[i].0, col, v, Code(v))
  {
    KeysHaveOneRow(cfg, lines);
    PageShowsDefaults(cfg, lines);
    var items, t := PageLayout(cfg, lines), cfg.Defaults(table);
    CountedIsThere(items, (table, t[i].0));
    hide PageLayout, Sync, RowCount, MadeCount, GoodItems, Config.Defaults, CleanDefault, ColumnIsNamed, ShownIn, Code, Get;
    var x :| x in items && IsRowOf(x, (table, t[i].0));
    assert !Displaced(cfg, x) && ItemShows(cfg, lines, Sync(cfg, lines).lines, x);
  }

  lemma DocumentedIsShown(cfg: Config, lines: seq<string>, table: string, i: nat)
    requires cfg.Valid() && Accepted(cfg, lines) && table in cfg.docs && i < |cfg.Defaults(table)|
    ensures var p := cfg.Defaults(table)[i];
      IsKey(p.0) ==> ShownIn(Sync(cfg, lines).lines, p.0, 2, p.1, CellText(Code(p.1)))
  {
    KeysHaveOneRow(cfg, lines);
    PageShowsDefaults(cfg, lines);
    var items := PageLayout(cfg, lines);
    CountedIsThere(items, (table, ""));
    BlockIsComplete(cfg, table);
    hide PageLayout, Sync, RowCount, MadeCount, Config.Defaults, Documented, Block, BlockErrors, IsKey, Code, ShownIn, CellText;
    var x := Made(table);
    assert x in items && GoodItem(cfg, x) && ItemShows(cfg, lines, Sync(cfg, lines).lines, x);
    assert TableShows(cfg.Defaults(table)[i], cfg.docs[table], Sync(cfg, lines).lines);
  }
}
