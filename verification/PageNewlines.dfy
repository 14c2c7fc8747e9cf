/**
 Newlines that a pass puts in: a clean default with one changes the page on every pass, and in the
 places that the fixpoint's proviso shuts out a page with newlines can stay as it is.
 */
module PageNewlines {
  import opened PageText
  import opened PageTables
  import opened PageSync
  import opened PageFixpoint
  import opened PageProvisos
  import opened PageTexts
  import opened Wrappers

  // ---------------------------------------------------------------- rows that end in their default cell

  /** A header whose default column is the second. */
  const NARROW := "" + "|" + ("key" + "|" + "default")

  lemma NarrowCells()
    ensures Cells(NARROW, false) == ["", "key", "default"]
  {
    PlainIsWhole("default", false);
    hide Cells;
    PlainCell("key", "default");
    PlainCell("", "key" + "|" + "default");
    assert [""] + (["key"] + ["default"]) == ["", "key", "default"];
  }

  lemma NarrowColumn()
    ensures IsHeader(["", "key", "default"]) && IndexOf(["", "key", "default"], "default") == Some(2)
  {
    BareStrips();
    assert Strip("") == "";
    hide Strip;
    assert |"default"| == 7 && |"key"| == 3 && |""| == 0;
    assert IndexOf(["default"], "default") == Some(0);
    assert IndexOf(["key", "default"], "default") == Some(1);
  }

  lemma NarrowOpens(cfg: Config, n: nat)
    requires cfg.names != [] && cfg.headings == []
    ensures Process(cfg, Start(cfg), n, NARROW) == Effect(Start(cfg).(defaultCol := Some(2)), [NARROW], [])
    ensures OneLine(NARROW)
  {
    hide Cells, IndexOf, IsHeader, RowKey, StartsWith, NARROW, OPENING;
    NarrowCells();
    NarrowColumn();
    NarrowStarts();
    NarrowIsOneLine();
    assert HeadingOf(cfg.headings, NARROW) == None;
  }

  lemma NarrowStarts()
    ensures RowKey(NARROW) == None && !StartsWith(NARROW, OPENING)
  {
    assert NARROW[0] == '|' && NARROW[1] == 'k' && "| `"[1] == ' ' == OPENING[1];
  }

  lemma NarrowIsOneLine()
    ensures OneLine(NARROW)
  {
  }

  lemma ThreeCells(key: string, cell: string)
    requires IsKey(key) && Whole(cell)
    ensures RowKey(RowStart(key) + cell) == Some(key)
    ensures Cells(RowStart(key) + cell, false) == ["", KeyCell(key), cell]
  {
    RowStartText(key, cell);
    RowKeyIsPrefix(RowStart(key) + cell, key);
    KeyCellIsWhole(key);
    PlainIsWhole("", false);
    hide Cells, RowKey, KeyCell, RowStart;
    assert Cells(cell, false) == [cell] by { WholeMeans(cell); }
    assert Cells("", false) == [""];
    CellsAppend("", KeyCell(key) + "|" + cell, false);
    CellsAppend(KeyCell(key), cell, false);
    assert [""] + ([KeyCell(key)] + [cell]) == ["", KeyCell(key), cell];
  }

  lemma ThreeJoined(key: string, cell: string)
    ensures Join(["", KeyCell(key), cell]) == RowStart(key) + cell
  {
    RowStartText(key, cell);
    JoinOnto(KeyCell(key), [cell]);
    JoinOnto("", [KeyCell(key), cell]);
    assert [""] + [KeyCell(key), cell] == ["", KeyCell(key), cell];
    hide KeyCell, RowStart;
  }

  /** A row that ends in its default cell, under that header. */
  lemma LastCellIsSet(cfg: Config, core: Core, n: nat, key: string, cell: string)
    requires HashHeadings(cfg) && IsKey(key) && Whole(cell) && !core.skipping && core.defaultCol == Some(2)
    requires cfg.Known(core.table, key) && (core.table, key) !in core.seen
    ensures var v := Get(cfg.Defaults(core.table), key);
      Process(cfg, core, n, RowStart(key) + cell)
      == Effect(core.(seen := core.seen[(core.table, key) := n]), [RowStart(key) + NewCell(cell, v)], [])
    ensures var items := ItemsOf(cfg, Current(cfg, core, RowStart(key) + cell), RowStart(key) + cell);
      |items| == 1 && items[0].Entry? && items[0].table == core.table && items[0].key == key
  {
    hide Cells, RowKey, KeyCell, RowStart, HashHeadings, NewCell, Join, Whole, Current;
    var line := RowStart(key) + cell;
    var v := Get(cfg.Defaults(core.table), key);
    ThreeCells(key, cell);
    RowIsQuiet(cfg, core, line, key);
    ThreeJoined(key, NewCell(cell, v));
    assert ["", KeyCell(key), cell][2 := NewCell(cell, v)] == ["", KeyCell(key), NewCell(cell, v)];
  }

  lemma NoNotes()
    ensures Strip("") == "" && Note("") == "" && Strip(" `a") == "`a" && Note("`a") == ""
    ensures Whole("") && Whole(" `a")
  {
    PlainIsWhole(" `a", false);
    assert " `a"[1..] == "`a" && LStrip("`a") == "`a" && RStrip("`a") == "`a";
    assert "`a"[1..] == "a" && "a"[1..] == "" && !OpensNote("`a") && !OpensNote("a");
  }

  lemma TwoLineCell()
    ensures NewCell("", Text("a\nb")) == " `a\nb` " == NewCell(" `a", Text("a\nb"))
    ensures Whole("") && Whole(" `a")
  {
    NoNotes();
    hide Note, Strip, Whole;
  }

  lemma OneKeyKnown(key: string, v: Value)
    ensures OneKey(key, v).Known("t", key) && Get(OneKey(key, v).Defaults("t"), key) == v
  {
    assert OneKey(key, v).Defaults("t")[0] == (key, v);
  }

  /** That header and a row that ends in its default cell. */
  function RowPage(key: string, cell: string): (lines: seq<string>)
    ensures |lines| == 2
  {
    [NARROW, RowStart(key) + cell]
  }

  /** The variables before and after that row, if it is one of the first table. */
  function AtRow(cfg: Config): Core
    requires cfg.names != []
  {
    Start(cfg).(defaultCol := Some(2))
  }

  function PastRow(cfg: Config, key: string): Core
    requires cfg.names != []
  {
    AtRow(cfg).(seen := AtRow(cfg).seen[(AtRow(cfg).table, key) := 2])
  }

  lemma RowVariables(cfg: Config, key: string)
    requires cfg.names != []
    ensures AtRow(cfg).table == cfg.names[0] == PastRow(cfg, key).table && (AtRow(cfg).table, key) !in AtRow(cfg).seen
    ensures !AtRow(cfg).skipping && AtRow(cfg).defaultCol == Some(2) && !PastRow(cfg, key).skipping
    ensures PastRow(cfg, key).generated == {} && PastRow(cfg, key).seen.Keys == {(cfg.names[0], key)}
  {
  }

  lemma RowAbove(cfg: Config, key: string, cell: string) returns (x: Item)
    requires cfg.Valid() && cfg.headings == [] && cfg.Known(cfg.names[0], key) && IsKey(key) && Whole(cell)
    ensures Run(cfg, Start(cfg), 1, RowPage(key, cell))
         == Effect(PastRow(cfg, key), RowPage(key, NewCell(cell, Get(cfg.Defaults(cfg.names[0]), key))), [])
    ensures x in Layout(cfg, Start(cfg), 1, RowPage(key, cell)) && x.Entry? && x.table == cfg.names[0] && x.key == key
  {
    assert HashHeadings(cfg) && cfg.names != [] && Has(cfg.Defaults(cfg.names[0]), key);
    var line := RowStart(key) + cell;
    var before := AtRow(cfg);
    assert before == Start(cfg).(defaultCol := Some(2));
    assert RowPage(key, cell) == [NARROW, line];
    assert PastRow(cfg, key) == before.(seen := before.seen[(before.table, key) := 2]);
    hide *;
    RowVariables(cfg, key);
    NarrowOpens(cfg, 1);
    LastCellIsSet(cfg, before, 2, key, cell);
    RunTwo(cfg, Start(cfg), NARROW, line);
    x := ItemsOf(cfg, Current(cfg, before, line), line)[0];
    RowPageIs(key, NewCell(cell, Get(cfg.Defaults(cfg.names[0]), key)));
  }

  lemma RowPageIs(key: string, cell: string)
    ensures RowPage(key, cell) == [NARROW] + [RowStart(key) + cell]
  {
  }

  lemma NewlineFirst(key: string)
    requires IsKey(key)
    ensures var cfg := OneKey(key, Text("a\nb"));
      Sync(cfg, [NARROW, RowStart(key)]) == Page([NARROW, RowStart(key) + " `a\nb` "], [])
  {
    var cfg := OneKey(key, Text("a\nb"));
    assert RowStart(key) + "" == RowStart(key) && Registered(cfg) && cfg.Valid();
    TwoLineCell();
    OneKeyKnown(key, Text("a\nb"));
    hide RowStart, Run, Layout, FinalErrors, Registered, NARROW, Config.Known, Config.Defaults, Get, NewCell, Whole;
    var x := RowAbove(cfg, key, "");
    RowVariables(cfg, key);
    OneKeyFinal(key, Text("a\nb"), PastRow(cfg, key));
  }

  lemma KeptLast(cfg: Config, x: string, y: string, z: string)
    requires cfg.Valid() && Registered(cfg) && Run(cfg, Start(cfg), 1, [x, y]).Effect? && Unpiped(z)
    ensures var r := Sync(cfg, [x, y, z]); r.Page? && r.lines == Run(cfg, Start(cfg), 1, [x, y]).out + [z]
  {
    hide Process, Run, FinalErrors, Registered, Current;
    var core := Run(cfg, Start(cfg), 1, [x, y]).core;
    UnpipedIsKept(cfg, core, 3, z);
    RunOne(cfg, core, 3, z);
    RunAppend(cfg, Start(cfg), 1, [x, y], [z]);
    assert [x, y] + [z] == [x, y, z];
    ThenIs(Run(cfg, Start(cfg), 1, [x, y]), Run(cfg, core, 3, [z]));
  }

  lemma NewlineSecond(key: string, last: string)
    requires IsKey(key) && Unpiped(last)
    ensures var r := Sync(OneKey(key, Text("a\nb")), [NARROW, RowStart(key) + " `a", last]);
      r.Page? && r.lines == [NARROW, RowStart(key) + " `a\nb` ", last]
  {
    var cfg := OneKey(key, Text("a\nb"));
    assert Registered(cfg) && cfg.Valid();
    TwoLineCell();
    OneKeyKnown(key, Text("a\nb"));
    hide RowStart, Run, Layout, Registered, NARROW, Config.Known, Config.Defaults, Get, NewCell, Whole, Unpiped;
    var x := RowAbove(cfg, key, " `a");
    KeptLast(cfg, NARROW, RowStart(key) + " `a", last);
  }

  /** Two passes in lines, as passes over texts. */
  lemma PassesOfText(cfg: Config, head: string, row: string, cut: string, last: string)
    requires cfg.Valid() && OneLine(head) && OneLine(row) && OneLine(cut) && OneLine(last)
    requires Sync(cfg, [head, row]) == Page([head, cut + "\n" + last], [])
    requires var r := Sync(cfg, [head, cut, last]); r.Page? && r.lines == [head, cut + "\n" + last, last]
    ensures SplitLines(head + "\n" + row) == [head, row]
    ensures var (page, _) := SyncText(cfg, head + "\n" + row); var (again, r) := SyncText(cfg, page);
      page == head + "\n" + (cut + "\n" + last) && r.Page? && again == page + "\n" + last
  {
    hide SplitLines, JoinLines, Sync, OneLine;
    TwoLines(head, row);
    JoinTwo(head, cut + "\n" + last);
    ThreeLines(head, cut, last);
    JoinThree(head, cut + "\n" + last, last);
  }

  /** A clean default in two lines: the second pass adds another line to the page. */
  lemma NewlineDefaultGrows(key: string)
    requires IsKey(key)
    ensures CleanDefault(Text("a\nb"))
    ensures var cfg := OneKey(key, Text("a\nb")); var text := NARROW + "\n" + RowStart(key);
      var (page, _) := SyncText(cfg, text); var (again, r) := SyncText(cfg, page);
      && cfg.Valid() && Accepted(cfg, SplitLines(text))
      && r.Page? && again == page + "\nb` "
  {
    CleanInTwo();
    KeyIsOneLine(key);
    NarrowIsOneLine();
    hide RowStart, CleanDefault, SplitLines, JoinLines, Sync, OneLine, NARROW;
    var cut := RowStart(key) + " `a";
    assert RowStart(key) + " `a\nb` " == cut + "\n" + "b` ";
    var last := "b` ";
    assert Unpiped(last);
    NewlineFirst(key);
    NewlineSecond(key, last);
    PassesOfText(OneKey(key, Text("a\nb")), NARROW, RowStart(key), cut, last);
    Suffix(SyncText(OneKey(key, Text("a\nb")), NARROW + "\n" + RowStart(key)).0);
  }

  lemma Suffix(page: string)
    ensures page + "\n" + "b` " == page + "\nb` "
  {
  }

  lemma CleanInTwo()
    ensures CleanDefault(Text("a\nb"))
  {
    assert RenderDefault(Text("a\nb")) == "`a\nb`";
    PlainIsWhole("`a\nb`", false);
    assert "`a\nb`"[1..] == "a\nb`" && "a\nb`"[1..] == "\nb`" && "\nb`"[1..] == "b`" && "b`"[1..] == "`" && "`"[1..] == "";
    assert !OpensNote("`a\nb`") && !OpensNote("a\nb`") && !OpensNote("b`") && !OpensNote("`");
    assert !OpensNote("\nb`");
  }

  lemma KeyIsOneLine(key: string)
    requires IsKey(key)
    ensures OneLine(RowStart(key)) && OneLine(RowStart(key) + " `a") && OneLine("b` ")
  {
    assert forall i :: 0 <= i < |key| ==> key[i] != '\n';
  }

  lemma TwoLines(a: string, b: string)
    requires OneLine(a) && OneLine(b)
    ensures SplitLines(a + "\n" + b) == [a, b]
  {
    hide SplitLines;
    SplitAppend(a, b);
    SplitAppend(b, "");
  }

  lemma ThreeLines(a: string, b: string, c: string)
    requires OneLine(a) && OneLine(b) && OneLine(c)
    ensures SplitLines(a + "\n" + (b + "\n" + c)) == [a, b, c]
  {
    hide SplitLines;
    SplitAppend(a, b + "\n" + c);
    TwoLines(b, c);
  }

  lemma JoinTwo(a: string, b: string)
    ensures JoinLines([a, b]) == a + "\n" + b
  {
    assert [a, b][1..] == [b];
  }

  lemma JoinThree(a: string, b: string, c: string)
    ensures JoinLines([a, b, c]) == a + "\n" + b + "\n" + c
  {
    assert [a, b, c][1..] == [b, c];
    JoinTwo(b, c);
  }

  // ---------------------------------------------------------------- left of the first pipe

  /** A page without a line that starts with a pipe stays as it is. */
  lemma UnpipedPageStays(cfg: Config, page: string)
    requires cfg.Valid() && Registered(cfg) && AllUnpiped(SplitLines(page))
    ensures var (again, r) := SyncText(cfg, page); r.Page? && again == page
  {
    hide Run, Registered, SplitLines, JoinLines, FinalErrors, AllUnpiped;
    RunUnpiped(cfg, Start(cfg), 1, SplitLines(page));
    JoinOfSplit(page);
  }

  lemma DisplacedJoin(key: string, cell: string)
    ensures Join([cell, KeyCell(key), ""]) == cell + RowStart(key)
  {
    var last := [KeyCell(key), ""];
    ThreeJoined(key, "");
    assert RowStart(key) + "" == RowStart(key);
    hide RowStart, KeyCell, Join;
    assert [cell] + last == [cell, KeyCell(key), ""] && [""] + last == ["", KeyCell(key), ""];
    JoinOnto(cell, last);
    JoinOnto("", last);
    assert cell + "|" + Join(last) == cell + ("" + "|" + Join(last));
  }

  lemma DisplacedText(key: string)
    requires IsKey(key)
    ensures Cells(RowStart(key), false) == ["", KeyCell(key), ""]
    ensures var row := Rewritten(["", KeyCell(key), ""], 0, Text("a\nb"));
      row == " `a\nb` " + RowStart(key) && AllUnpiped(SplitLines(row))
  {
    TwoLineCell();
    assert RowStart(key) + "" == RowStart(key);
    KeyIsOneLine(key);
    hide RowStart, KeyCell, Cells, RowKey, NewCell, SplitLines, Whole, Join;
    ThreeCells(key, "");
    assert ["", KeyCell(key), ""][0 := " `a\nb` "] == [" `a\nb` ", KeyCell(key), ""];
    DisplacedJoin(key, " `a\nb` ");
    InTwoLines(RowStart(key));
  }

  lemma InTwoLines(rest: string)
    requires OneLine(rest)
    ensures AllUnpiped(SplitLines(" `a\nb` " + rest))
  {
    hide SplitLines;
    assert " `a\nb` " + rest == " `a" + "\n" + ("b` " + rest);
    TwoLines(" `a", "b` " + rest);
    UnpipedPair(rest);
  }

  lemma UnpipedPair(rest: string)
    ensures AllUnpiped([" `a", "b` " + rest])
  {
  }

  lemma OneKeyOnly(key: string, v: Value, table: string, other: string)
    requires OneKey(key, v).Known(table, other)
    ensures Get(OneKey(key, v).Defaults(table), other) == v
  {
  }

  lemma NotOneLine(cfg: Config, items: seq<Item>, i: nat)
    requires i < |items| && !OneLineItem(cfg, items[i])
    ensures !OneLineItems(cfg, items)
  {
    hide OneLineItem;
    assert items[i] in items;
  }

  lemma BareItems(key: string, x: Item)
    requires var cfg := OneKey(key, Text("a\nb")); DisplacedByHand(cfg, x)
    ensures var cfg := OneKey(key, Text("a\nb")); var items := [Line(BARE)] + [x];
      CleanItems(cfg, items) && !OneLineItems(cfg, items)
  {
    var cfg, v := OneKey(key, Text("a\nb")), Text("a\nb");
    assert "\n"[0] in RenderDefault(v);
    OneKeyOnly(key, v, x.table, x.key);
    hide RenderDefault, OneLineDocs, BARE, Config.Defaults;
    OneRowClean(cfg, [Line(BARE)] + [x], BARE, x);
    NotOneLine(cfg, [Line(BARE)] + [x], 1);
  }

  lemma BareIsUnpiped()
    ensures OneLine(BARE) && Unpiped(BARE)
  {
  }

  /** A page of two lines, put out as lines without a leading pipe, stays as it then is. */
  lemma UnpipedPairStays(cfg: Config, head: string, line: string, row: string)
    requires cfg.Valid() && Registered(cfg) && OneLine(head) && OneLine(line) && Unpiped(head) && AllUnpiped(SplitLines(row))
    requires Sync(cfg, [head, line]).Page? && Sync(cfg, [head, line]).lines == [head, row]
    ensures SplitLines(head + "\n" + line) == [head, line]
    ensures var (page, _) := SyncText(cfg, head + "\n" + line); var (again, r) := SyncText(cfg, page); r.Page? && again == page
  {
    hide SplitLines, JoinLines, Sync, OneLine, Registered, Unpiped;
    TwoLines(head, line);
    JoinTwo(head, row);
    SplitAppend(head, row);
    UnpipedPageStays(cfg, head + "\n" + row);
  }

  /** A displaced row whose default holds a newline can stay as it is. */
  lemma DisplacedNewlineStays(key: string)
    requires IsKey(key)
    ensures var cfg := OneKey(key, Text("a\nb")); var text := BARE + "\n" + RowStart(key);
      var items := PageLayout(cfg, SplitLines(text));
      var (page, _) := SyncText(cfg, text); var (again, r) := SyncText(cfg, page);
      && cfg.Valid() && Accepted(cfg, SplitLines(text)) && CleanItems(cfg, items) && !OneLineItems(cfg, items)
      && r.Page? && again == page
  {
    var cfg := OneKey(key, Text("a\nb"));
    assert Registered(cfg) && cfg.Valid();
    hide *;
    KeyIsOneLine(key);
    BareIsUnpiped();
    var x := BarePage(key, Text("a\nb"));
    BareItems(key, x);
    DisplacedText(key);
    AcceptedIsPage(cfg, [BARE, RowStart(key)]);
    UnpipedPairStays(cfg, BARE, RowStart(key), Rewritten(["", KeyCell(key), ""], 0, Text("a\nb")));
  }

  lemma AcceptedIsPage(cfg: Config, lines: seq<string>)
    requires cfg.Valid() && Accepted(cfg, lines)
    ensures Sync(cfg, lines).Page?
  {
  }

  // ---------------------------------------------------------------- next to generated tables

  /** One documented table with one key. */
  function DocKey(key: string, v: Value, refusals: seq<string>): Config {
    Config(["t"], [], map["t" := [(key, v)]], map["t" := [(key, Entry.Entry("", "m", refusals))]], "")
  }

  lemma DocKeyBlock(key: string, v: Value, refusals: seq<string>)
    requires forall i :: 0 <= i < |refusals| ==> refusals[i] != []
    ensures var cfg := DocKey(key, v, refusals);
      && cfg.Valid() && HashHeadings(cfg) && Registered(cfg) && cfg.Known("t", key) && Get(cfg.Defaults("t"), key) == v
      && BlockErrors(cfg, "t") == []
      && Block(cfg, "t") == [HEADER, RULER] + [DocRow(key, v, Entry.Entry("", "m", refusals))]
  {
    hide DocRow;
    var cfg := DocKey(key, v, refusals);
    var t, docs, e := cfg.Defaults("t"), cfg.docs["t"], Entry.Entry("", "m", refusals);
    assert t[0] == (key, v) && t[1..] == [] && docs[1..] == [];
    assert Lookup(docs, key) == Some(e) && WellFormed(e) && Documented(docs, key);
    assert DocRows([], docs) == [] && DocErrors([], docs, "t") == [] && StrayErrors(t, [], "t") == [];
    assert DocRows(t, docs) == [DocRow(key, v, e)] + DocRows(t[1..], docs);
  }

  lemma DocKeyFinal(key: string, v: Value, refusals: seq<string>, core: Core)
    requires core.generated == {"t"}
    ensures FinalErrors(DocKey(key, v, refusals), core) == []
  {
    var cfg := DocKey(key, v, refusals);
    MissingTablesIff(cfg, core, cfg.names);
    AllMissingRowsIff(cfg, core, cfg.names);
    hide MissingTables, AllMissingRows;
  }

  predicate AllPiped(lines: seq<string>) { forall i :: 0 <= i < |lines| ==> lines[i] != [] && lines[i][0] == '|' }

  /** A line that opens the table puts out the whole block, and lines with a pipe under it are skipped. */
  lemma BlockOpens(cfg: Config, core: Core, n: nat, line: string, under: seq<string>)
    requires HashHeadings(cfg) && !core.skipping && Generates(cfg, core, line) && BlockErrors(cfg, core.table) == []
    requires AllPiped(under)
    ensures Run(cfg, core, n, [line] + under) == Effect(AfterBlock(cfg, core, n), Block(cfg, core.table), [])
    ensures Layout(cfg, core, n, [line]) == [Made(core.table)]
  {
    OpeningIsQuiet(cfg, core, line);
    LayoutOne(cfg, core, n, line);
    var after := AfterBlock(cfg, core, n);
    assert after.skipping;
    SkipAll(cfg, after, n + 1, under);
    hide Run, Layout, Block, BlockErrors, AfterBlock, SeenAll, KindOf, Current, HashHeadings;
    FirstThenRest(cfg, core, n, line, under);
    var b := Block(cfg, core.table);
    assert b + [] == b;
  }

  /** Everything of a generated row in front of its refusals. */
  function RowHead(key: string, v: Value): string {
    "| `" + key + "` | " + CellText(RenderDefault(v)) + " | " + CellText("m") + " | "
  }

  lemma CellTextOneLine(text: string)
    ensures OneLine(CellText(text))
  {
    CollapseOneLine(text);
    EscapeOneLine(Collapse(text), false);
    hide Collapse, EscapePipes;
  }

  lemma RowHeadOneLine(key: string, v: Value)
    requires IsKey(key)
    ensures OneLine(RowHead(key, v)) && RowHead(key, v)[0] == '|'
  {
    hide CellText, RenderDefault;
    CellTextOneLine(RenderDefault(v));
    CellTextOneLine("m");
    PiecesOneLine(key, CellText(RenderDefault(v)), CellText("m"));
  }

  lemma PiecesOneLine(key: string, a: string, b: string)
    requires IsKey(key) && OneLine(a) && OneLine(b)
    ensures OneLine("| `" + key + "` | " + a + " | " + b + " | ")
  {
    assert OneLine(key);
  }

  lemma RowOfRefusals(key: string, v: Value, refusals: seq<string>)
    requires refusals != []
    ensures DocRow(key, v, Entry.Entry("", "m", refusals)) == RowHead(key, v) + Quoted(refusals) + " |"
  {
    hide CellText, Quoted, RenderDefault;
  }

  /** The lines of the row of a refusal with a newline and a pipe. */
  lemma RefusalLines(key: string, v: Value) returns (first: string, rest: string)
    requires IsKey(key)
    ensures SplitLines(DocRow(key, v, Entry.Entry("", "m", ["x\n|y"]))) == [first, rest]
    ensures first != "" && first[0] == '|' && rest != "" && rest[0] == '|'
  {
    assert Quoted(["x\n|y"]) == "`x" + "\n" + "|y`";
    hide Quoted, SplitLines, RowHead, DocRow;
    RowHeadOneLine(key, v);
    RowOfRefusals(key, v, ["x\n|y"]);
    first, rest := RowHead(key, v) + "`x", "|y`" + " |";
    MovedNewline(RowHead(key, v), "`x", "|y`", " |");
    TwoLines(first, rest);
  }

  lemma MovedNewline(a: string, b: string, c: string, d: string)
    ensures a + (b + "\n" + c) + d == (a + b) + "\n" + (c + d)
  {
  }

  /** A refusal name whose newline is followed by a pipe: its row stands in two lines and stays there. */
  lemma RefusalNewlineStays(key: string, v: Value)
    requires IsKey(key)
    ensures var cfg := DocKey(key, v, ["x\n|y"]);
      var items := PageLayout(cfg, SplitLines(OPENING));
      var (page, _) := SyncText(cfg, OPENING); var (again, r) := SyncText(cfg, page);
      && cfg.Valid() && Accepted(cfg, SplitLines(OPENING)) && CleanItems(cfg, items) && !OneLineItems(cfg, items)
      && r.Page? && again == page
  {
    var cfg := DocKey(key, v, ["x\n|y"]);
    hide DocRow, HEADER, RULER, SplitLines, JoinLines, Run, Layout, FinalErrors, Registered, HashHeadings, Block, BlockErrors,
      CleanItems, OneLineItems, SeenAll;
    DocKeyBlock(key, v, ["x\n|y"]);
    OpeningIsOneLine();
    BlockOpens(cfg, Start(cfg), 1, OPENING, []);
    assert [OPENING] + [] == [OPENING];
    DocKeyFinal(key, v, ["x\n|y"], AfterBlock(cfg, Start(cfg), 1));
    AcceptedRun(cfg, [OPENING]);
    RefusedItems(key, v);
    var first, rest := RefusalLines(key, v);
    var row := DocRow(key, v, Entry.Entry("", "m", ["x\n|y"]));
    BlockLines(row, first, rest);
    HeaderOpens();
    BlockOpens(cfg, Start(cfg), 1, HEADER, [RULER, first, rest]);
    SecondPass(cfg, Block(cfg, "t"));
  }

  lemma OpeningIsOneLine()
    ensures SplitLines(OPENING) == [OPENING] && StartsWith(OPENING, OPENING)
  {
    SplitAppend(OPENING, "");
  }

  lemma BlockLines(row: string, first: string, rest: string)
    requires SplitLines(row) == [first, rest]
    ensures Flat([HEADER, RULER] + [row]) == [HEADER] + [RULER, first, rest]
    ensures RULER != "" && RULER[0] == '|'
  {
    FixedOneLine();
    hide SplitLines;
    FlatOneLine([HEADER, RULER]);
    FlatOne(row);
    FlatAppend([HEADER, RULER], [row]);
  }

  lemma RefusedItems(key: string, v: Value)
    ensures var cfg := DocKey(key, v, ["x\n|y"]); CleanItems(cfg, [Made("t")]) && !OneLineItems(cfg, [Made("t")])
  {
    var cfg := DocKey(key, v, ["x\n|y"]);
    assert !OneLine("x\n|y") by { assert "x\n|y"[1] == '\n'; }
    var docs := cfg.docs["t"];
    assert docs[0].1.refusals[0] == "x\n|y";
    assert !OneLineDocs(docs);
    NotOneLine(cfg, [Made("t")], 0);
  }

  /** More lines, put out without a refusal. */
  lemma ThenMore(cfg: Config, core: Core, above: seq<string>, under: seq<string>, out: seq<string>, more: Effect)
    requires Run(cfg, core, 1, above).Effect? && Run(cfg, core, 1, above).errors == [] && Run(cfg, core, 1, above).out == out
    requires Run(cfg, Run(cfg, core, 1, above).core, 1 + |above|, under) == more && more.Effect? && more.errors == []
    ensures Run(cfg, core, 1, above + under) == Effect(more.core, out + more.out, [])
    ensures forall x :: x in Layout(cfg, core, 1, above) ==> x in Layout(cfg, core, 1, above + under)
  {
    hide Run, Layout;
    RunAppend(cfg, core, 1, above, under);
    LayoutAppend(cfg, core, 1, above, under);
    ThenIs(Run(cfg, core, 1, above), more);
  }

  lemma TableOpens(cfg: Config, core: Core, n: nat, line: string, under: seq<string>)
    requires HashHeadings(cfg) && !core.skipping && StartsWith(line, OPENING) && AllPiped(under)
    requires core.table in cfg.docs && core.table !in core.generated && BlockErrors(cfg, core.table) == []
    ensures Run(cfg, core, n, [line] + under) == Effect(AfterBlock(cfg, core, n), Block(cfg, core.table), [])
  {
    hide Run, HashHeadings, BlockErrors, Block, AfterBlock, StartsWith, OPENING, AllPiped;
    BlockOpens(cfg, core, n, line, under);
  }

  /** A documented table under lines that left room for it. */
  lemma AboveTable(cfg: Config, above: seq<string>, core: Core, shown: seq<string>, line: string, under: seq<string>)
    requires cfg.names != [] && HashHeadings(cfg) && Run(cfg, Start(cfg), 1, above) == Effect(core, shown, [])
    requires !core.skipping && StartsWith(line, OPENING) && AllPiped(under)
    requires core.table in cfg.docs && core.table !in core.generated && BlockErrors(cfg, core.table) == []
    ensures var after := AfterBlock(cfg, core, 1 + |above|);
      && Run(cfg, Start(cfg), 1, above + ([line] + under)) == Effect(after, shown + Block(cfg, core.table), [])
      && (core.generated == {} ==> after.generated == {core.table})
    ensures forall x :: x in Layout(cfg, Start(cfg), 1, above) ==> x in Layout(cfg, Start(cfg), 1, above + ([line] + under))
  {
    hide Run, Layout, HashHeadings, BlockErrors, Block, SeenAll, StartsWith, OPENING, AllPiped;
    var after := AfterBlock(cfg, core, 1 + |above|);
    TableOpens(cfg, core, 1 + |above|, line, under);
    ThenMore(cfg, Start(cfg), above, [line] + under, shown, Effect(after, Block(cfg, core.table), []));
  }

  /** A row and a documented table under it: what a pass puts out. */
  lemma RowAndTableOf(cfg: Config, table: string, key: string, cell: string, line: string, under: seq<string>) returns (core: Core, x: Item)
    requires cfg.Valid() && cfg.headings == [] && cfg.names[0] == table && cfg.Known(table, key) && IsKey(key) && Whole(cell)
    requires table in cfg.docs && BlockErrors(cfg, table) == [] && StartsWith(line, OPENING) && AllPiped(under)
    ensures var lines := RowPage(key, cell) + ([line] + under);
      && Run(cfg, Start(cfg), 1, lines) == Effect(core, RowPage(key, NewCell(cell, Get(cfg.Defaults(table), key))) + Block(cfg, table), [])
      && core.generated == {table} && x in Layout(cfg, Start(cfg), 1, lines) && x.Entry? && x.table == table && x.key == key
  {
    assert HashHeadings(cfg) && cfg.names != [] && Has(cfg.Defaults(table), key);
    hide *;
    x := RowAbove(cfg, key, cell);
    RowVariables(cfg, key);
    var before := PastRow(cfg, key);
    core := AfterBlock(cfg, before, 1 + |RowPage(key, cell)|);
    AboveTable(cfg, RowPage(key, cell), before, RowPage(key, NewCell(cell, Get(cfg.Defaults(table), key))), line, under);
  }

  lemma RowAndTable(key: string, v: Value, cell: string, line: string, under: seq<string>) returns (core: Core, x: Item)
    requires IsKey(key) && Whole(cell) && StartsWith(line, OPENING) && AllPiped(under)
    ensures var cfg := DocKey(key, v, []); var lines := RowPage(key, cell) + ([line] + under);
      && Run(cfg, Start(cfg), 1, lines) == Effect(core, RowPage(key, NewCell(cell, v)) + Block(cfg, "t"), [])
      && core.generated == {"t"} && x in Layout(cfg, Start(cfg), 1, lines) && x.Entry? && x.table == "t" && x.key == key
  {
    var cfg := DocKey(key, v, []);
    assert cfg.names[0] == "t" && cfg.headings == [] && "t" in cfg.docs;
    DocKeyBlock(key, v, []);
    hide *;
    core, x := RowAndTableOf(cfg, "t", key, cell, line, under);
  }

  lemma OpenerFirst(key: string, v: Value)
    requires IsKey(key) && Whole("")
    ensures var cfg := DocKey(key, v, []); var lines := RowPage(key, "") + [OPENING];
      && cfg.Valid() && Accepted(cfg, lines) && Sync(cfg, lines).lines == RowPage(key, NewCell("", v)) + Block(cfg, "t")
      && exists x :: x in PageLayout(cfg, lines) && x.Entry? && x.table == "t" && x.key == key
  {
    var cfg := DocKey(key, v, []);
    DocKeyBlock(key, v, []);
    OpeningIsOneLine();
    hide RowPage, Run, Layout, HashHeadings, BlockErrors, Block, Registered, NewCell, Whole, OPENING, FinalErrors, StartsWith;
    var core, x := RowAndTable(key, v, "", OPENING, []);
    assert [OPENING] + [] == [OPENING];
    DocKeyFinal(key, v, [], core);
    AcceptedRun(cfg, RowPage(key, "") + [OPENING]);
  }

  /** If the second line of the row opens the table itself, the second pass puts out the same. */
  lemma OpenerSecond(key: string, v: Value, cut: string, opener: string)
    requires IsKey(key) && Whole(cut) && OneLine(opener) && StartsWith(opener, OPENING) && OneLine(cut)
    requires NewCell("", v) == cut + "\n" + opener == NewCell(cut, v)
    ensures var cfg := DocKey(key, v, []);
      var page := JoinLines(RowPage(key, NewCell("", v)) + Block(cfg, "t"));
      var (again, r) := SyncText(cfg, page); r.Page? && again == page
  {
    var cfg := DocKey(key, v, []);
    DocKeyBlock(key, v, []);
    hide RowPage, Run, HashHeadings, BlockErrors, Block, Registered, NewCell, Whole, OPENING, FinalErrors,
      SplitLines, JoinLines, OneLine, Flat, StartsWith, AllPiped, Layout;
    var block := Block(cfg, "t");
    BlockIsPiped(key, v);
    OpenerLines(key, cut, opener, block);
    var core, x := RowAndTable(key, v, cut, opener, block);
    SecondPass(cfg, RowPage(key, NewCell("", v)) + block);
  }

  lemma BlockIsPiped(key: string, v: Value)
    requires IsKey(key)
    ensures var block := Block(DocKey(key, v, []), "t");
      AllOneLine(block) && AllPiped(block)
  {
    var cfg := DocKey(key, v, []);
    var docs := cfg.docs["t"];
    KeyIsOneLine(key);
    assert OneLine(key) by { assert forall i :: 0 <= i < |key| ==> RowStart(key)[3 + i] == key[i]; }
    hide DocRows, OneLine;
    DocRowsOneLine(cfg.Defaults("t"), docs);
    FixedOneLine();
    BlockShape(cfg, "t");
    assert HEADER[0] == '|';
  }

  lemma OpenerLines(key: string, cut: string, opener: string, block: seq<string>)
    requires IsKey(key) && OneLine(cut) && OneLine(opener) && AllOneLine(block)
    ensures Flat(RowPage(key, cut + "\n" + opener) + block) == RowPage(key, cut) + ([opener] + block)
  {
    hide Flat, RowPage, AllOneLine, OneLine;
    RowPageLines(key, cut, opener);
    FlatOneLine(block);
    FlatAppend(RowPage(key, cut + "\n" + opener), block);
  }

  lemma RowPageLines(key: string, cut: string, opener: string)
    requires IsKey(key) && OneLine(cut) && OneLine(opener)
    ensures Flat(RowPage(key, cut + "\n" + opener)) == RowPage(key, cut) + [opener]
  {
    KeyIsOneLine(key);
    NarrowIsOneLine();
    assert OneLine(RowStart(key) + cut);
    hide NARROW, RowStart, SplitLines, OneLine, Flat;
    var row := RowStart(key) + (cut + "\n" + opener);
    assert row == (RowStart(key) + cut) + "\n" + opener;
    TwoLines(RowStart(key) + cut, opener);
    FlatOne(NARROW);
    FlatOne(row);
    FlatAppend([NARROW], [row]);
    assert [NARROW] + [row] == [NARROW, row];
  }

  /** A default whose second line opens a table, and that line behind it. */
  const OPENER := "a\n| key | x"

  const OPENED := "| key | x` "

  lemma CutByPipe(a: string, b: string)
    requires forall i :: 0 <= i < |a| ==> a[i] != '|' && a[i] != '\\'
    ensures !Whole(a + "|" + b)
  {
    hide Cells;
    PlainCell(a, b);
    assert |[a] + Cells(b, false)| >= 2;
  }

  lemma OpenerIsCut()
    ensures RenderDefault(Text(OPENER)) == "`a\n" + "|" + " key | x`"
    ensures !Whole(RenderDefault(Text(OPENER))) && !OneLine(RenderDefault(Text(OPENER)))
  {
    hide Whole;
    CutByPipe("`a\n", " key | x`");
    assert RenderDefault(Text(OPENER))[2] == '\n';
  }

  lemma OpenerCells()
    ensures NewCell("", Text(OPENER)) == " `a" + "\n" + OPENED == NewCell(" `a", Text(OPENER))
    ensures Whole("") && Whole(" `a") && OneLine(" `a") && OneLine(OPENED) && StartsWith(OPENED, OPENING)
  {
    NoNotes();
    OpenerIsCut();
    hide Note, Strip, Whole, RenderDefault;
    OpenerText();
  }

  lemma OpenerText()
    ensures " " + ("`a\n" + "|" + " key | x`") + "" + " " == " `a" + "\n" + OPENED
    ensures OneLine(" `a") && OneLine(OPENED) && StartsWith(OPENED, OPENING)
  {
  }

  lemma CutItems(key: string, items: seq<Item>, x: Item)
    requires x in items && x.Entry? && x.table == "t" && x.key == key
    ensures !OneLineItems(DocKey(key, Text(OPENER), []), items)
  {
    var cfg, v := DocKey(key, Text(OPENER), []), Text(OPENER);
    OpenerIsCut();
    assert cfg.Defaults("t")[0] == (key, v);
    assert cfg.Known("t", key) && Get(cfg.Defaults("t"), key) == v;
    hide OneLineDocs, RenderDefault, Whole, OPENER;
    assert !OneLineItem(cfg, x);
  }

  lemma OpenerSplit(key: string)
    requires IsKey(key)
    ensures SplitLines(NARROW + "\n" + (RowStart(key) + "\n" + OPENING)) == RowPage(key, "") + [OPENING]
  {
    assert RowStart(key) + "" == RowStart(key);
    assert OneLine(OPENING);
    KeyIsOneLine(key);
    NarrowIsOneLine();
    hide NARROW, OPENING, RowStart, SplitLines, OneLine;
    ThreeLines(NARROW, RowStart(key), OPENING);
  }

  /** A default cut by a pipe right after its newline: the row's second line opens the table, and the page stays. */
  lemma CutNewlineStays(key: string)
    requires IsKey(key)
    ensures !Whole(RenderDefault(Text(OPENER)))
    ensures var cfg := DocKey(key, Text(OPENER), []); var text := NARROW + "\n" + (RowStart(key) + "\n" + OPENING);
      var (page, _) := SyncText(cfg, text); var (again, r) := SyncText(cfg, page);
      && cfg.Valid() && Accepted(cfg, SplitLines(text)) && !OneLineItems(cfg, PageLayout(cfg, SplitLines(text)))
      && r.Page? && again == page
  {
    var cfg, v := DocKey(key, Text(OPENER), []), Text(OPENER);
    assert cfg.Valid();
    hide *;
    OpenerIsCut();
    OpenerCells();
    OpenerSplit(key);
    OpenerFirst(key, v);
    var lines := RowPage(key, "") + [OPENING];
    var x :| x in PageLayout(cfg, lines) && x.Entry? && x.table == "t" && x.key == key;
    CutItems(key, PageLayout(cfg, lines), x);
    OpenerSecond(key, v, " `a", OPENED);
    AcceptedText(cfg, NARROW + "\n" + (RowStart(key) + "\n" + OPENING));
  }

  lemma AcceptedText(cfg: Config, text: string)
    requires cfg.Valid() && Accepted(cfg, SplitLines(text))
    ensures SyncText(cfg, text).0 == JoinLines(Sync(cfg, SplitLines(text)).lines)
  {
  }
}
