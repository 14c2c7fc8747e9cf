/** What the provisos of the fixpoint shut out: unclean defaults, displaced rows and short rows. */
module PageProvisos {
  import opened PageText
  import opened PageTables
  import opened PageSync
  import opened PageFixpoint
  import opened Wrappers

  // ---------------------------------------------------------------- an unclean default grows

  lemma {:induction false} FirstCellWithin(s: string, w: string, escaped: bool)
    requires |Cells(s, escaped)| >= 2
    ensures |Cells(s + w, escaped)[0]| < |s|
    decreases |s|
  {
    assert (s + w)[1..] == s[1..] + w && (s + w)[0] == s[0];
    if s[0] != '|' || escaped {
      FirstCellWithin(s[1..], w, s[0] == '\\');
    }
  }

  lemma FirstCellOf(s: string, t: string)
    requires Whole(s) && !EndsInBackslash(s)
    ensures Cells(s + "|" + t, false) == [s] + Cells(t, false)
  {
    CellsAppend(s, t, false);
  }

  /** Cells that survive joining stay in front of whatever follows them. */
  lemma {:induction false} CellsOfPrefix(pre: seq<string>, t: string)
    requires forall i :: 0 <= i < |pre| ==> Whole(pre[i]) && !EndsInBackslash(pre[i])
    ensures Cells(Join(pre + [t]), false) == pre + Cells(t, false)
  {
    hide Whole, EndsInBackslash;
    if pre == [] {
      assert pre + [t] == [t] && pre + Cells(t, false) == Cells(t, false);
    } else {
      assert (pre + [t])[1..] == pre[1..] + [t] && (pre + [t])[0] == pre[0];
      assert Join(pre + [t]) == pre[0] + "|" + Join(pre[1..] + [t]);
      FirstCellOf(pre[0], Join(pre[1..] + [t]));
      hide Cells, Join;
      CellsOfPrefix(pre[1..], t);
      assert [pre[0]] + (pre[1..] + Cells(t, false)) == pre + Cells(t, false);
    }
  }

  /** The cells from col on, as one text. */
  function JoinFrom(cells: seq<string>, col: nat): string
    requires col < |cells|
  {
    if col + 1 == |cells| then cells[col] else cells[col] + ("|" + Join(cells[col + 1..]))
  }

  lemma {:induction false} JoinInTwo(cells: seq<string>, col: nat)
    requires col < |cells|
    ensures Join(cells) == Join(cells[..col] + [JoinFrom(cells, col)])
    decreases col
  {
    if col == 0 {
      assert cells[..0] + [JoinFrom(cells, 0)] == [JoinFrom(cells, 0)];
      if |cells| > 1 {
        assert cells[0] + ("|" + Join(cells[1..])) == cells[0] + "|" + Join(cells[1..]);
      }
    } else {
      var part := cells[..col] + [JoinFrom(cells, col)];
      assert part[1..] == cells[1..][..col - 1] + [JoinFrom(cells, col)];
      assert col + 1 < |cells| ==> cells[1..][col..] == cells[col + 1..];
      JoinInTwo(cells[1..], col - 1);
    }
  }

  lemma {:induction false} JoinLength(cells: seq<string>, col: nat, x: string)
    requires col < |cells|
    ensures |Join(cells[col := x])| == |Join(cells)| - |cells[col]| + |x|
  {
    if |cells| == 1 {
    } else if col == 0 {
      assert cells[0 := x][1..] == cells[1..];
    } else {
      assert cells[col := x][1..] == cells[1..][col - 1 := x];
      JoinLength(cells[1..], col - 1, x);
    }
  }

  /** A note opens in the head: it swallows the note that follows. */
  lemma {:induction false} NoteGrows(head: string, note: string)
    requires head != [] && !IsSpace(head[|head| - 1]) && Note(head) != ""
    ensures Note(head + note) == Note(head) + note
  {
    OpensInside(head, note);
    assert (head + note)[1..] == head[1..] + note;
    if !OpensNote(head) {
      NoteGrows(head[1..], note);
    }
  }

  lemma WholeIsOneCell(s: string)
    ensures Whole(s) <==> |Cells(s, false)| == 1
  {
    JoinOfCells(s, false);
    var cells := Cells(s, false);
    assert |cells| == 1 ==> cells == [Join(cells)];
  }

  lemma NotWholeIsCut(s: string)
    requires !Whole(s)
    ensures |Cells(" " + s, false)| >= 2
  {
    WholeIsOneCell(s);
    assert (" " + s)[1..] == s;
  }

  /** A new cell that nothing cuts is the first cell of whatever it starts. */
  lemma NewCellFirst(nc: string, w: string)
    requires Whole(nc) && !EndsInBackslash(nc) && (w == "" || w[0] == '|')
    ensures Cells(nc + w, false)[0] == nc
  {
    if w == "" {
      assert nc + w == nc;
    } else {
      assert nc + w == nc + "|" + w[1..];
      CellsAppend(nc, w[1..], false);
    }
  }

  /** A note opener in the default: the next cell repeats it. */
  lemma OpenCellGrows(cell: string, v: Value, w: string)
    requires Whole(cell) && Whole(RenderDefault(v)) && Note(RenderDefault(v)) != "" && (w == "" || w[0] == '|')
    ensures var first := Cells(NewCell(cell, v) + w, false)[0]; |NewCell(first, v)| > |first|
  {
    hide RenderDefault, Cells, Note, Strip, Whole, Trim;
    var r, note := RenderDefault(v), Note(Strip(cell));
    RenderEnds(v);
    NewCellText(cell, v);
    NewCellIsWhole(cell, v);
    NewCellFirst(NewCell(cell, v), w);
    NoteGrows(r, note);
  }

  /** A pipe in the default: the next first cell ends at it. */
  lemma CutCellGrows(cell: string, v: Value, w: string)
    requires !Whole(RenderDefault(v))
    ensures var first := Cells(NewCell(cell, v) + w, false)[0]; |NewCell(first, v)| > |first|
  {
    hide RenderDefault, Cells, Note;
    var r, note := RenderDefault(v), Note(Strip(cell));
    NotWholeIsCut(r);
    assert NewCell(cell, v) + w == (" " + r) + (note + " " + w);
    FirstCellWithin(" " + r, note + " " + w, false);
  }

  /** A row written with an unclean default is a row again, and comes out longer. */
  lemma UncleanRowGrows(line: string, key: string, col: nat, v: Value)
    requires RowKey(line) == Some(key) && 2 <= col < |Cells(line, false)| && !CleanDefault(v)
    ensures var row := Rewritten(Cells(line, false), col, v);
      && RowKey(row) == Some(key) && col < |Cells(row, false)|
      && |Rewritten(Cells(row, false), col, v)| > |row|
  {
    assert !Whole(RenderDefault(v)) || Note(RenderDefault(v)) != "";
    hide *;
    var cells := Cells(line, false);
    RowKeyIsKey(line);
    RowCells(line, key);
    LineCellsAreProper(line);
    ProperParts(cells, col);
    var cells' := cells[col := NewCell(cells[col], v)];
    JoinedRow(cells', key);
    RewrittenIs(cells, col, v);
    JoinInTwo(cells', col);
    var t := JoinFrom(cells', col);
    var w := if col + 1 == |cells| then "" else "|" + Join(cells[col + 1..]);
    JoinFromIs(cells', col);
    assert cells'[col + 1..] == cells[col + 1..];
    assert t == NewCell(cells[col], v) + w;
    if Whole(RenderDefault(v)) {
      OpenCellGrows(cells[col], v, w);
    } else {
      CutCellGrows(cells[col], v, w);
    }
    assert cells'[..col] == cells[..col];
    CellsOfPrefix(cells[..col], t);
    var again := cells[..col] + Cells(t, false);
    var row := Join(cells');
    assert Cells(row, false) == again && again[col] == Cells(t, false)[0];
    RewrittenIs(again, col, v);
    JoinLength(again, col, NewCell(again[col], v));
    JoinOfCells(row, false);
  }

  lemma JoinFromIs(cells: seq<string>, col: nat)
    requires col < |cells|
    ensures JoinFrom(cells, col) == cells[col] + if col + 1 == |cells| then "" else "|" + Join(cells[col + 1..])
  {
    assert cells[col] + "" == cells[col];
  }

  lemma ProperParts(cells: seq<string>, col: nat)
    requires Proper(cells) && col < |cells|
    ensures Whole(cells[col])
    ensures forall i :: 0 <= i < col ==> Whole(cells[..col][i]) && !EndsInBackslash(cells[..col][i])
  {
  }

  // ---------------------------------------------------------------- a displaced row

  /** A header without a leading pipe. */
  const BARE := "default" + "|" + ("key" + "|" + "")

  lemma BareHeader()
    ensures Cells(BARE, false) == ["default", "key", ""] && RowKey(BARE) == None
  {
    assert Cells("", false) == [""];
    hide Cells;
    PlainCell("key", "");
    PlainCell("default", "key" + "|" + "");
    assert BARE[0] == 'd' && "| `"[0] == '|';
    assert ["default"] + (["key"] + [""]) == ["default", "key", ""];
  }

  lemma BareStrips()
    ensures Strip("default") == "default" && Strip("key") == "key"
  {
  }

  lemma BareHeaderOpens(cfg: Config)
    requires cfg.names != [] && cfg.headings == [] && cfg.docs == map[]
    ensures Process(cfg, Start(cfg), 1, BARE) == Effect(Start(cfg).(defaultCol := Some(0)), [BARE], [])
    ensures ItemsOf(cfg, Current(cfg, Start(cfg), BARE), BARE) == [Line(BARE)]
  {
    BareHeader();
    BareStrips();
    hide Cells, Strip, RowKey;
    assert IndexOf(["default", "key", ""], "default") == Some(0);
  }

  /** One table "t" with one key. */
  function OneKey(key: string, v: Value): Config { Config(["t"], [], map["t" := [(key, v)]], map[], "") }

  lemma BareRow(key: string, v: Value)
    requires IsKey(key)
    ensures var cfg := OneKey(key, v); var core := Start(cfg).(defaultCol := Some(0)); var row := RowStart(key);
      var one := Process(cfg, core, 2, row);
      && one.Effect? && one.errors == [] && one.core.seen.Keys == {("t", key)} && one.core.generated == {}
      && 0 < |Cells(row, false)| && one.out == [Rewritten(Cells(row, false), 0, v)]
      && |ItemsOf(cfg, Current(cfg, core, row), row)| == 1
      && DisplacedByHand(cfg, ItemsOf(cfg, Current(cfg, core, row), row)[0])
  {
    var cfg, row := OneKey(key, v), RowStart(key);
    var core := Start(cfg).(defaultCol := Some(0));
    RowKeyIsPrefix(row, key);
    RowCells(row, key);
    RowIsQuiet(cfg, core, row, key);
    hide Cells, Strip, RowKey, Current, Rewritten, RowStart, CleanDefault, Note;
    assert cfg.Defaults("t")[0] == (key, v);
    assert cfg.Known("t", key);
    assert KindOf(cfg, core, row) == Row(key, Cells(row, false), 0);
  }

  lemma RunTwo(cfg: Config, core: Core, x: string, y: string)
    requires var one := Process(cfg, core, 1, x); one.Effect? && Process(cfg, one.core, 2, y).Effect?
    ensures var one := Process(cfg, core, 1, x); var two := Process(cfg, one.core, 2, y);
      && Run(cfg, core, 1, [x, y]) == Effect(two.core, one.out + two.out, one.errors + two.errors)
      && Layout(cfg, core, 1, [x, y]) == ItemsOf(cfg, Current(cfg, core, x), x) + ItemsOf(cfg, Current(cfg, one.core, y), y)
  {
    hide Process, ItemsOf, Current, Run, Layout;
    RunOne(cfg, core, 1, x);
    RunOne(cfg, Process(cfg, core, 1, x).core, 2, y);
    assert [x] + [y] == [x, y];
    RunAppend(cfg, core, 1, [x], [y]);
    LayoutOne(cfg, core, 1, x);
    LayoutOne(cfg, Process(cfg, core, 1, x).core, 2, y);
    LayoutAppend(cfg, core, 1, [x], [y]);
  }

  lemma BareRun(key: string, v: Value) returns (core: Core, x: Item)
    requires IsKey(key)
    ensures var cfg := OneKey(key, v); var lines := [BARE, RowStart(key)];
      && 0 < |Cells(RowStart(key), false)|
      && Run(cfg, Start(cfg), 1, lines) == Effect(core, [BARE, Rewritten(Cells(RowStart(key), false), 0, v)], [])
      && Layout(cfg, Start(cfg), 1, lines) == [Line(BARE)] + [x] && DisplacedByHand(cfg, x)
      && FinalErrors(cfg, core) == []
  {
    hide Run, Process, ItemsOf, Layout, RowStart, Cells, Rewritten, FinalErrors, BARE, Current, DisplacedByHand;
    var cfg := OneKey(key, v);
    BareHeaderOpens(cfg);
    BareRow(key, v);
    RunTwo(cfg, Start(cfg), BARE, RowStart(key));
    core := Run(cfg, Start(cfg), 1, [BARE, RowStart(key)]).core;
    OneKeyFinal(key, v, core);
    x := ItemsOf(cfg, Current(cfg, Start(cfg).(defaultCol := Some(0)), RowStart(key)), RowStart(key))[0];
  }

  /** The page with that header and one row. */
  lemma BarePage(key: string, v: Value) returns (x: Item)
    requires IsKey(key)
    ensures var cfg := OneKey(key, v); var lines := [BARE, RowStart(key)];
      && cfg.Valid() && Accepted(cfg, lines) && PageLayout(cfg, lines) == [Line(BARE)] + [x] && DisplacedByHand(cfg, x)
      && 0 < |Cells(RowStart(key), false)|
      && Sync(cfg, lines).lines == [BARE, Rewritten(Cells(RowStart(key), false), 0, v)]
  {
    var cfg := OneKey(key, v);
    assert Registered(cfg) && cfg.Valid();
    hide Run, Layout, RowStart, Cells, Rewritten, FinalErrors, BARE, DisplacedByHand, Registered;
    var core, y := BareRun(key, v);
    x := y;
  }

  /** That page is accepted, and the page it becomes is refused. */
  lemma DisplacedRowIsRefused(key: string, v: Value)
    requires IsKey(key)
    ensures var cfg := OneKey(key, v); var lines := [BARE, RowStart(key)];
      cfg.Valid() && Accepted(cfg, lines) && !Accepted(cfg, Sync(cfg, lines).lines)
  {
    var cfg, lines := OneKey(key, v), [BARE, RowStart(key)];
    assert HashHeadings(cfg);
    var x := BarePage(key, v);
    OneRowClean(cfg, PageLayout(cfg, lines), BARE, x);
    SyncIsIdempotent(cfg, lines);
    hide *;
  }

  lemma OneKeyFinal(key: string, v: Value, core: Core)
    requires core.seen.Keys == {("t", key)} && core.generated == {}
    ensures FinalErrors(OneKey(key, v), core) == []
  {
    var cfg := OneKey(key, v);
    MissingTablesIff(cfg, core, cfg.names);
    AllMissingRowsIff(cfg, core, cfg.names);
    hide MissingTables, AllMissingRows;
  }

  lemma OneRowClean(cfg: Config, items: seq<Item>, first: string, row: Item)
    requires items == [Line(first)] + [row] && DisplacedByHand(cfg, row)
    ensures CleanItems(cfg, items) && !(forall x :: x in items ==> !DisplacedByHand(cfg, x))
  {
    assert row == items[1];
  }

  // ---------------------------------------------------------------- a short row

  /** A header whose default column is the third. */
  const WIDE := "" + "|" + (" key " + "|" + (" note " + "|" + (" default " + "|" + "")))

  lemma WideCells()
    ensures Cells(WIDE, false) == ["", " key ", " note ", " default ", ""]
  {
    var last := " default " + "|" + "";
    var noted := " note " + "|" + last;
    var keyed := " key " + "|" + noted;
    assert Cells("", false) == [""];
    hide Cells;
    PlainCell(" default ", "");
    PlainCell(" note ", last);
    PlainCell(" key ", noted);
    PlainCell("", keyed);
    assert [""] + ([" key "] + ([" note "] + ([" default "] + [""]))) == ["", " key ", " note ", " default ", ""];
  }

  lemma WideHeader()
    ensures Cells(WIDE, false) == ["", " key ", " note ", " default ", ""] && RowKey(WIDE) == None
    ensures !(WIDE != [] && WIDE[0] == '#')
  {
    hide Cells;
    WideCells();
    assert WIDE[0] == '|' && WIDE[2] == 'k' && "| `"[2] == '`';
  }

  lemma WideStrips()
    ensures Strip("") == "" && Strip(" key ") == "key" && Strip(" note ") == "note" && Strip(" default ") == "default"
  {
    StripPadded("key");
    StripPadded("note");
    StripPadded("default");
    assert " " + "key" + " " == " key " && " " + "note" + " " == " note " && " " + "default" + " " == " default ";
  }

  lemma WideColumn()
    ensures IsHeader(["", " key ", " note ", " default ", ""])
    ensures IndexOf(["", " key ", " note ", " default ", ""], "default") == Some(3)
  {
    WideStrips();
    hide Strip;
    assert |"default"| == 7 && |"note"| == 4 && |"key"| == 3 && |""| == 0;
    assert IndexOf([" default ", ""], "default") == Some(0);
    assert IndexOf([" note ", " default ", ""], "default") == Some(1);
    assert IndexOf([" key ", " note ", " default ", ""], "default") == Some(2);
  }

  lemma WideHeaderOpens(cfg: Config)
    requires cfg.Valid() && HashHeadings(cfg) && cfg.names[0] !in cfg.docs
    ensures Process(cfg, Start(cfg), 1, WIDE) == Effect(Start(cfg).(defaultCol := Some(3)), [WIDE], [])
  {
    WideHeader();
    WideColumn();
    hide Cells, RowKey, IndexOf, IsHeader, WIDE;
    NoHeading(cfg.headings, WIDE);
  }

  /** Under that header a row of any key that ends after its first cell crashes the page. */
  lemma ShortRowCrashes(cfg: Config, key: string)
    requires cfg.Valid() && Registered(cfg) && HashHeadings(cfg) && cfg.names[0] !in cfg.docs && IsKey(key)
    ensures Sync(cfg, [WIDE, RowStart(key)]).Crash?
  {
    hide Registered, Run, Process, RowStart, WIDE;
    var lines := [WIDE, RowStart(key)];
    WideHeaderOpens(cfg);
    RunOne(cfg, Start(cfg), 1, WIDE);
    assert lines[..1] == [WIDE];
    ShortRowStands(cfg, Start(cfg).(defaultCol := Some(3)), key);
    hide StandsShort;
    assert ShortAt(cfg, lines, 1);
    CrashIffShortRow(cfg, lines);
  }

  lemma ShortRowStands(cfg: Config, core: Core, key: string)
    requires HashHeadings(cfg) && IsKey(key) && !core.skipping && core.defaultCol == Some(3)
    ensures StandsShort(cfg, core, RowStart(key))
  {
    var row := RowStart(key);
    assert row == "" + "|" + (KeyCell(key) + "|" + "");
    RowKeyIsPrefix(row, key);
    PlainIsWhole("", false);
    KeyCellIsWhole(key);
    CellsAppend("", KeyCell(key) + "|" + "", false);
    CellsAppend(KeyCell(key), "", false);
    assert row[0] == '|';
    NoHeading(cfg.headings, row);
    hide Cells, RowKey, KeyCell, RowStart;
    assert [""] + ([KeyCell(key)] + [""]) == ["", KeyCell(key), ""];
  }
}
