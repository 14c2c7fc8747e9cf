/** Keys and rows: on an accepted page each parser key has one row, and nothing else has one unless retired. */
module PageRows {
  import opened PageText
  import opened PageTables
  import opened PageSync
  import opened PageFixpoint
  import opened Wrappers

  // ---------------------------------------------------------------- counting rows

  predicate IsRowOf(x: Item, p: (string, string)) { x.Entry? && (x.table, x.key) == p }

  function RowCount(items: seq<Item>, p: (string, string)): nat {
    if items == [] then 0 else (if IsRowOf(items[0], p) then 1 else 0) + RowCount(items[1..], p)
  }

  function MadeCount(items: seq<Item>, table: string): nat {
    if items == [] then 0 else (if items[0] == Made(table) then 1 else 0) + MadeCount(items[1..], table)
  }

  lemma {:induction false} CountsAppend(a: seq<Item>, b: seq<Item>, p: (string, string))
    ensures RowCount(a + b, p) == RowCount(a, p) + RowCount(b, p)
    ensures MadeCount(a + b, p.0) == MadeCount(a, p.0) + MadeCount(b, p.0)
  {
    if a == [] {
      assert a + b == b;
    } else {
      assert (a + b)[1..] == a[1..] + b && (a + b)[0] == a[0];
      CountsAppend(a[1..], b, p);
    }
  }

  lemma CountsOne(x: Item, p: (string, string))
    ensures RowCount([x], p) == if IsRowOf(x, p) then 1 else 0
    ensures MadeCount([x], p.0) == if x == Made(p.0) then 1 else 0
  {
    assert [x][1..] == [];
    assert RowCount([], p) == 0 && MadeCount([], p.0) == 0;
  }

  /** What one or more lines do to the rows of a hand-written key. */
  predicate RowLedger(before: Core, after: Core, count: nat, p: (string, string)) {
    if p in before.seen then p in after.seen && count == 0 else count == if p in after.seen then 1 else 0
  }

  /** ... and to the generated table p.0. */
  predicate TableLedger(before: Core, after: Core, count: nat, table: string) {
    if table in before.generated then table in after.generated && count == 0
    else count == if table in after.generated then 1 else 0
  }

  /** The row is retired: the GW deck still refuses its key by name, and its default cell says so. */
  predicate RetiredItem(cfg: Config, x: Item) {
    x.Entry? && x.col < |x.cells| && Retired(cfg, x.table, x.key, Strip(x.cells[x.col]))
  }

  /** A row of a parser key or a retired one; a generated table without refusals. */
  predicate GoodItem(cfg: Config, x: Item) {
    match x
    case Line(_) => true
    case Made(table) => table in cfg.docs && BlockErrors(cfg, table) == []
    case Entry(table, key, _, _) => cfg.Known(table, key) || RetiredItem(cfg, x)
  }

  predicate GoodItems(cfg: Config, items: seq<Item>) { forall x :: x in items ==> GoodItem(cfg, x) }

  lemma LineLedger(cfg: Config, core: Core, n: nat, line: string, p: (string, string))
    requires p.0 !in cfg.docs
    requires var one := Process(cfg, core, n, line); one.Effect? && one.errors == []
    ensures var one := Process(cfg, core, n, line); var items := ItemsOf(cfg, Current(cfg, core, line), line);
      RowLedger(core, one.core, RowCount(items, p), p)
  {
    hide Current, Cells, RowKey, Config.Known, Retired, Rewritten, Strip, Note, BlockErrors, Block, Config.Defaults, SeenAll;
    var now := Current(cfg, core, line);
    CurrentKeepsSeen(cfg, core, line);
    SeenAllByHand(cfg, now, n, p);
    var items := ItemsOf(cfg, now, line);
    if items != [] {
      CountsOne(items[0], p);
    }
  }

  lemma SeenAllByHand(cfg: Config, core: Core, n: nat, p: (string, string))
    requires p.0 !in cfg.docs
    ensures core.table in cfg.docs ==> (p in SeenAll(cfg, core, n) <==> p in core.seen)
  {
    hide Config.Defaults;
  }

  lemma LineTables(cfg: Config, core: Core, n: nat, line: string, table: string)
    requires Process(cfg, core, n, line).Effect?
    ensures var one := Process(cfg, core, n, line); var items := ItemsOf(cfg, Current(cfg, core, line), line);
      TableLedger(core, one.core, MadeCount(items, table), table)
  {
    hide Current, Cells, RowKey, Config.Known, Retired, Rewritten, Strip, Note, BlockErrors, Block, SeenAll;
    var now := Current(cfg, core, line);
    CurrentKeepsSeen(cfg, core, line);
    var items := ItemsOf(cfg, now, line);
    if items != [] {
      CountsOne(items[0], (table, ""));
    }
  }

  lemma CurrentKeepsSeen(cfg: Config, core: Core, line: string)
    ensures Current(cfg, core, line).seen == core.seen && Current(cfg, core, line).generated == core.generated
  {
    hide Cells, IndexOf, HeadingOf, RowKey, IsHeader;
  }

  lemma {:induction false} PageLedger(cfg: Config, core: Core, n: nat, lines: seq<string>, p: (string, string))
    requires var run := Run(cfg, core, n, lines); run.Effect? && run.errors == []
    ensures var run := Run(cfg, core, n, lines); var items := Layout(cfg, core, n, lines);
      && (p.0 !in cfg.docs ==> RowLedger(core, run.core, RowCount(items, p), p))
      && TableLedger(core, run.core, MadeCount(items, p.0), p.0)
    decreases |lines|
  {
    hide Process, ItemsOf, Current, Then;
    if lines != [] {
      var one, items := Process(cfg, core, n, lines[0]), ItemsOf(cfg, Current(cfg, core, lines[0]), lines[0]);
      var rest, more := Run(cfg, one.core, n + 1, lines[1..]), Layout(cfg, one.core, n + 1, lines[1..]);
      NoErrors(one, rest);
      ThenIs(one, rest);
      CountsAppend(items, more, p);
      if p.0 !in cfg.docs {
        LineLedger(cfg, core, n, lines[0], p);
      }
      LineTables(cfg, core, n, lines[0], p.0);
      PageLedger(cfg, one.core, n + 1, lines[1..], p);
    }
  }

  lemma {:induction false} PageIsGood(cfg: Config, core: Core, n: nat, lines: seq<string>)
    requires var run := Run(cfg, core, n, lines); run.Effect? && run.errors == []
    ensures GoodItems(cfg, Layout(cfg, core, n, lines))
    decreases |lines|
  {
    hide Process, ItemsOf, Current, Then, GoodItem;
    if lines != [] {
      var one := Process(cfg, core, n, lines[0]);
      var rest := Run(cfg, one.core, n + 1, lines[1..]);
      NoErrors(one, rest);
      ThenIs(one, rest);
      LineIsGood(cfg, core, n, lines[0]);
      PageIsGood(cfg, one.core, n + 1, lines[1..]);
    }
  }

  lemma LineIsGood(cfg: Config, core: Core, n: nat, line: string)
    requires var one := Process(cfg, core, n, line); one.Effect? && one.errors == []
    ensures GoodItems(cfg, ItemsOf(cfg, Current(cfg, core, line), line))
  {
    hide Current, Cells, RowKey, Config.Known, Retired, Rewritten, Strip, Note, BlockErrors, Block, Config.Defaults;
  }

  /**
   On an accepted page every key of a hand-written table has exactly one row and no other key of
   it has more, a row of an unknown key is retired, and every documented table was generated once,
   without a refusal.
   */
  lemma KeysHaveOneRow(cfg: Config, lines: seq<string>)
    requires cfg.Valid() && Accepted(cfg, lines)
    ensures GoodItems(cfg, PageLayout(cfg, lines))
    ensures forall t, i :: t in cfg.names && t !in cfg.docs && 0 <= i < |cfg.Defaults(t)| ==>
      RowCount(PageLayout(cfg, lines), (t, cfg.Defaults(t)[i].0)) == 1
    ensures forall t, k :: t !in cfg.docs ==> RowCount(PageLayout(cfg, lines), (t, k)) <= 1
    ensures forall t :: t in cfg.docs ==> MadeCount(PageLayout(cfg, lines), t) == 1
  {
    hide Run, Layout, Registered, AllMissingRows, MissingTables, Config.Defaults, GoodItems, RowCount, MadeCount;
    AcceptedRun(cfg, lines);
    var items := PageLayout(cfg, lines);
    var core := Run(cfg, Start(cfg), 1, lines).core;
    PageIsGood(cfg, Start(cfg), 1, lines);
    AllMissingRowsIff(cfg, core, cfg.names);
    MissingTablesIff(cfg, core, cfg.names);
    assert |FinalErrors(cfg, core)| == |MissingTables(cfg, core, cfg.names)| + |AllMissingRows(cfg, core, cfg.names)|;
    forall t, k
      ensures t !in cfg.docs ==> RowCount(items, (t, k)) == if (t, k) in core.seen then 1 else 0
    {
      PageLedger(cfg, Start(cfg), 1, lines, (t, k));
    }
    forall t, i | t in cfg.names && t !in cfg.docs && 0 <= i < |cfg.Defaults(t)|
      ensures (t, cfg.Defaults(t)[i].0) in core.seen
    {
      var j :| 0 <= j < |cfg.names| && cfg.names[j] == t;
      assert AllSeen(core, cfg.names[j], cfg.Defaults(cfg.names[j]));
    }
    forall t | t in cfg.docs
      ensures MadeCount(items, t) == 1
    {
      PageLedger(cfg, Start(cfg), 1, lines, (t, ""));
      RegisteredDocs(cfg, t);
      var j :| 0 <= j < |cfg.names| && cfg.names[j] == t;
    }
  }

  lemma RegisteredDocs(cfg: Config, t: string)
    requires Registered(cfg) && t in cfg.docs
    ensures t in cfg.names
  {
  }

  // ---------------------------------------------------------------- generated tables

  /** A generated table is refused unless docs and defaults name the same keys, each well documented. */
  lemma {:induction false} DocErrorsIff(t: Table, docs: Docs, table: string)
    ensures DocErrors(t, docs, table) == [] <==> forall i :: 0 <= i < |t| ==> Documented(docs, t[i].0)
    ensures DocErrors(t, docs, table) == [] ==>
      |DocRows(t, docs)| == |t|
      && forall i :: 0 <= i < |t| ==> DocRows(t, docs)[i] == DocRow(t[i].0, t[i].1, Lookup(docs, t[i].0).value)
  {
    hide DocRow, Lookup, WellFormed;
    if t != [] {
      DocErrorsIff(t[1..], docs, table);
      assert forall i :: 1 <= i < |t| ==> t[i] == t[1..][i - 1];
    }
  }

  lemma {:induction false} StrayErrorsIff(t: Table, docs: Docs, table: string)
    ensures StrayErrors(t, docs, table) == [] <==> forall i :: 0 <= i < |docs| ==> Has(t, docs[i].0)
  {
    if docs != [] {
      StrayErrorsIff(t, docs[1..], table);
      assert forall i :: 1 <= i < |docs| ==> docs[i] == docs[1..][i - 1];
    }
  }

  /**
   A table is generated without a refusal exactly when each default has a well-formed docs entry and
   each docs entry has a default; then it holds the rows of all defaults, in the parser's order.
   */
  lemma BlockIsComplete(cfg: Config, table: string)
    requires table in cfg.docs
    ensures var t, docs := cfg.Defaults(table), cfg.docs[table];
      && (BlockErrors(cfg, table) == [] <==> (forall i :: 0 <= i < |t| ==> Documented(docs, t[i].0))
                                             && (forall i :: 0 <= i < |docs| ==> Has(t, docs[i].0)))
      && (BlockErrors(cfg, table) == [] ==>
            |Block(cfg, table)| == 2 + |t|
            && forall i :: 0 <= i < |t| ==>
              Block(cfg, table)[2 + i] == DocRow(t[i].0, t[i].1, Lookup(docs, t[i].0).value))
  {
    hide DocErrors, StrayErrors, DocRows, DocRow, Documented, Has;
    var t, docs := cfg.Defaults(table), cfg.docs[table];
    DocErrorsIff(t, docs, table);
    StrayErrorsIff(t, docs, table);
    assert |BlockErrors(cfg, table)| == |StrayErrors(t, docs, table)| + |DocErrors(t, docs, table)|;
  }

  // ---------------------------------------------------------------- what rows say

  /**
   A row that was set reads back as the same row whose default cell shows the parser's default
   followed by the old note; no other cell changed.
   */
  lemma RowShowsDefault(line: string, key: string, col: nat, v: Value, i: nat)
    requires RowKey(line) == Some(key) && 2 <= col < |Cells(line, false)| && CleanDefault(v) && i < |Cells(line, false)|
    ensures var old_, new_ := Cells(line, false), Cells(Rewritten(Cells(line, false), col, v), false);
      && RowKey(Rewritten(Cells(line, false), col, v)) == Some(key) && |new_| == |old_|
      && (i == col ==> Strip(new_[i]) == RenderDefault(v) + Note(Strip(old_[i])))
      && (i == col ==> Note(Strip(new_[i])) == Note(Strip(old_[i])))
      && (i != col ==> new_[i] == old_[i])
  {
    hide Cells, RowKey, Rewritten, NewCell, CleanDefault, RenderDefault, Note, Strip;
    RowAgain(line, key, col, v);
    NewCellText(Cells(line, false)[col], v);
    NewCellAgain(Cells(line, false)[col], v);
  }

  /** Escaping leaves no pipe that would cut the text. */
  lemma {:induction false} EscapedIsWhole(s: string, escaped: bool)
    ensures Cells(EscapePipes(s, escaped), escaped) == [EscapePipes(s, escaped)]
    decreases |s|
  {
    if s != [] {
      var rest := EscapePipes(s[1..], s[0] == '\\');
      EscapedIsWhole(s[1..], s[0] == '\\');
      var t := EscapePipes(s, escaped);
      if s[0] == '|' && !escaped {
        assert t == ['\\'] + (['|'] + rest);
        assert (['|'] + rest)[1..] == rest && t[1..] == ['|'] + rest;
        assert [['|'] + rest] == Cells(['|'] + rest, true);
      } else {
        assert t == [s[0]] + rest && t[1..] == rest;
      }
    }
  }

  /** Text between two spaces, as a cell. */
  lemma PaddedIsWhole(t: string)
    ensures Whole(" " + t + " ") <==> Whole(t)
    ensures !EndsInBackslash(" " + t + " ")
  {
    var padded := " " + t + " ";
    assert (" " + t)[1..] == t;
    if Whole(padded) {
      WholePrefix(padded, " " + t, false);
      WholeTail(" " + t, false);
    }
    if Whole(t) {
      WholeSpace();
      WholeConcat(" ", t, false);
      WholeThen(" " + t, ' ', false);
    }
    hide Cells;
  }

  /** A quoted name in front of the rest of a list. */
  lemma QuotedIsWhole(name: string, rest: string)
    requires rest == "" || rest[0] == ','
    ensures Whole("`" + name + "`" + rest) <==> Whole(name) && Whole(rest)
  {
    var s := "`" + name + "`" + rest;
    PlainIsWhole("`", false);
    assert Whole("");
    assert ("`" + name)[1..] == name;
    if Whole(s) {
      WholePrefix(s, "`" + name, false);
      WholeTail("`" + name, false);
      if rest != "" {
        WholeSuffix(s, false, |name| + 2);
        assert s[|name| + 2..] == rest;
      }
    }
    if Whole(name) && Whole(rest) {
      WholeConcat("`", name, false);
      WholeThen("`" + name, '`', false);
      WholeConcat("`" + name + "`", rest, false);
    }
    hide Cells;
  }

  lemma CommaIsWhole(t: string)
    ensures Whole(", " + t) <==> Whole(t)
  {
    PlainIsWhole(", ", false);
    assert (", " + t)[1..] == " " + t && (" " + t)[1..] == t;
    if Whole(", " + t) {
      WholeTail(", " + t, false);
      WholeTail(" " + t, false);
    }
    if Whole(t) {
      WholeConcat(", ", t, false);
    }
    hide Cells;
  }

  /** A list of quoted names is one cell exactly when every name is. */
  lemma {:induction false} NamesAreWhole(names: seq<string>)
    ensures Whole(Quoted(names)) <==> forall i :: 0 <= i < |names| ==> Whole(names[i])
  {
    assert Whole("");
    hide Whole;
    if names != [] {
      NamesAreWhole(names[1..]);
      var rest := if |names| == 1 then "" else ", " + Quoted(names[1..]);
      QuotedIsWhole(names[0], rest);
      CommaIsWhole(Quoted(names[1..]));
      assert forall i :: 1 <= i < |names| ==> names[i] == names[1..][i - 1];
    }
  }

  function RefusedBy(e: Entry): string
    requires e.Entry?
  {
    if e.refusals != [] then Quoted(e.refusals) else "\U{2014}"
  }

  function DefaultText(v: Value, e: Entry): string
    requires e.Entry?
  {
    if e.note != [] then RenderDefault(v) + " (" + e.note + ")" else RenderDefault(v)
  }

  /** The cells of a generated row as they are meant: the four columns between the outer pipes. */
  function Columns(key: string, v: Value, e: Entry): (cells: seq<string>)
    requires e.Entry?
    ensures |cells| == 6
  {
    ["", KeyCell(key), " " + CellText(DefaultText(v, e)) + " ", " " + CellText(e.meaning) + " ", " " + RefusedBy(e) + " ", ""]
  }

  lemma RefusedIsWhole(e: Entry)
    requires e.Entry?
    ensures Whole(RefusedBy(e)) <==> forall i :: 0 <= i < |e.refusals| ==> Whole(e.refusals[i])
  {
    NamesAreWhole(e.refusals);
    if e.refusals == [] {
      PlainIsWhole("\U{2014}", false);
    }
    hide Whole, Quoted;
  }

  /** Default, note and meaning are escaped, so only the refusals can be cut. */
  lemma ColumnsAreProper(key: string, v: Value, e: Entry)
    requires e.Entry? && IsKey(key)
    ensures Proper(Columns(key, v, e)) <==> Whole(RefusedBy(e))
  {
    EscapedIsWhole(Collapse(DefaultText(v, e)), false);
    EscapedIsWhole(Collapse(e.meaning), false);
    assert Whole("");
    hide Cells, Whole, Collapse, EscapePipes, Quoted, RenderDefault, RefusedBy, DefaultText, EndsInBackslash;
    PaddedIsWhole(CellText(DefaultText(v, e)));
    PaddedIsWhole(CellText(e.meaning));
    PaddedIsWhole(RefusedBy(e));
    KeyCellIsWhole(key);
    PlainIsWhole("", false);
    var cells := Columns(key, v, e);
    assert cells[4] == " " + RefusedBy(e) + " ";
  }

  /**
   A generated row is the row of its key, whatever its texts contain. It is cut into exactly its
   four columns when no refusal name holds an unescaped pipe, and only then: the names are the
   one text that is not escaped.
   */
  lemma DocRowReadsBack(key: string, v: Value, e: Entry)
    requires e.Entry? && IsKey(key)
    ensures RowKey(DocRow(key, v, e)) == Some(key)
    ensures Cells(DocRow(key, v, e), false) == Columns(key, v, e)
      <==> forall i :: 0 <= i < |e.refusals| ==> Whole(e.refusals[i])
  {
    var cells := Columns(key, v, e);
    DocRowIs(key, v, e);
    hide Cells, Whole, DocRow, RowKey, Columns, Proper, RefusedBy;
    ColumnsFirst(key, v, e);
    JoinedRow(cells, key);
    RefusedIsWhole(e);
    ColumnsAreProper(key, v, e);
    if Proper(cells) {
      CellsOfJoin(cells);
    }
    LineCellsAreProper(Join(cells));
  }

  lemma ColumnsFirst(key: string, v: Value, e: Entry)
    requires e.Entry?
    ensures Columns(key, v, e)[0] == "" && Columns(key, v, e)[1] == KeyCell(key)
  {
  }

  /** A refusal name with a pipe in it, in an entry that is not refused: the row has another column. */
  lemma PipedRefusalIsCut(key: string, v: Value)
    requires IsKey(key)
    ensures var e := Entry.Entry("", "m", ["a|b"]); WellFormed(e) && Cells(DocRow(key, v, e), false) != Columns(key, v, e)
  {
    var e := Entry.Entry("", "m", ["a|b"]);
    assert "a|b" == "a" + "|" + "b";
    PlainCell("a", "b");
    assert |[e.refusals[0]]| == 1 && |["a"] + Cells("b", false)| >= 2;
    hide Cells, DocRow, Columns;
    DocRowReadsBack(key, v, e);
    assert !Whole(e.refusals[0]);
  }

  lemma DocRowIs(key: string, v: Value, e: Entry)
    requires e.Entry?
    ensures DocRow(key, v, e) == Join(Columns(key, v, e))
  {
    hide CellText, Quoted, RenderDefault;
    var a, b, c := CellText(DefaultText(v, e)), CellText(e.meaning), RefusedBy(e);
    JoinSix("", KeyCell(key), " " + a + " ", " " + b + " ", " " + c + " ", "");
  }

  lemma JoinSix(a: string, b: string, c: string, d: string, e: string, f: string)
    ensures Join([a, b, c, d, e, f]) == a + "|" + (b + "|" + (c + "|" + (d + "|" + (e + "|" + f))))
  {
    JoinOnto(e, [f]);
    JoinOnto(d, [e, f]);
    JoinOnto(c, [d, e, f]);
    JoinOnto(b, [c, d, e, f]);
    JoinOnto(a, [b, c, d, e, f]);
  }
}
