/**
 The page as a text: it is cut at newlines, run over and joined again. A second pass gives the
 same text exactly when the defaults shown in rows are clean and hold no newline.
 */
module PageTexts {
  import opened PageText
  import opened PageTables
  import opened PageSync
  import opened PageFixpoint
  import opened PageProvisos
  import opened Wrappers

  /** text in, text out: the page is cut and joined at newlines. */
  function SyncText(cfg: Config, text: string): (string, Outcome)
    requires cfg.Valid()
  {
    var r := Sync(cfg, SplitLines(text));
    (if r.Page? then JoinLines(r.lines) else text, r)
  }

  // ---------------------------------------------------------------- lines without newlines

  predicate OneLineDocs(docs: Docs) {
    forall i :: 0 <= i < |docs| ==>
      docs[i].1.Entry? ==> forall j :: 0 <= j < |docs[i].1.refusals| ==> OneLine(docs[i].1.refusals[j])
  }

  /** No newline is put into a line: rendered defaults of rows, and keys and refusals of generated tables. */
  predicate OneLineItem(cfg: Config, x: Item) {
    && (x.Entry? && cfg.Known(x.table, x.key) ==> OneLine(RenderDefault(Get(cfg.Defaults(x.table), x.key))))
    && (x.Made? && x.table in cfg.docs ==>
          OneLineDocs(cfg.docs[x.table])
          && forall i :: 0 <= i < |cfg.Defaults(x.table)| ==> OneLine(cfg.Defaults(x.table)[i].0))
  }

  predicate OneLineItems(cfg: Config, items: seq<Item>) { forall x :: x in items ==> OneLineItem(cfg, x) }

  predicate AllOneLine(lines: seq<string>) { forall i :: 0 <= i < |lines| ==> OneLine(lines[i]) }

  lemma {:induction false} JoinOneLine(cells: seq<string>)
    requires cells != []
    ensures OneLine(Join(cells)) <==> AllOneLine(cells)
  {
    assert OneLine(cells[0]) && AllOneLine(cells[1..]) <==> AllOneLine(cells) by {
      assert forall i :: 1 <= i < |cells| ==> cells[i] == cells[1..][i - 1];
    }
    if |cells| > 1 {
      JoinOneLine(cells[1..]);
    }
  }

  lemma RewrittenOneLine(line: string, col: nat, v: Value)
    requires OneLine(line) && col < |Cells(line, false)| && OneLine(RenderDefault(v))
    ensures OneLine(Rewritten(Cells(line, false), col, v))
  {
    hide Cells, Join, RenderDefault, Note, Strip;
    var cells := Cells(line, false);
    JoinOfCells(line, false);
    JoinOneLine(cells);
    NoteIsPiece(cells[col]);
    assert OneLine(NewCell(cells[col], v));
    JoinOneLine(cells[col := NewCell(cells[col], v)]);
  }

  /** Collapsed text has no newline. */
  lemma {:induction false} CollapseOneLine(text: string)
    ensures OneLine(Collapse(text))
    decreases |text|
  {
    var t := LStrip(text);
    LStripShrinks(text);
    if t != [] {
      var w := Word(t);
      assert forall i :: 0 <= i < |w| ==> w[i] != '\n';
      LStripShrinks(t[|w|..]);
      CollapseOneLine(LStrip(t[|w|..]));
    }
  }

  lemma {:induction false} EscapeOneLine(s: string, escaped: bool)
    requires OneLine(s)
    ensures OneLine(EscapePipes(s, escaped))
  {
    if s != [] {
      EscapeOneLine(s[1..], s[0] == '\\');
    }
  }

  lemma {:induction false} QuotedOneLine(names: seq<string>)
    requires forall i :: 0 <= i < |names| ==> OneLine(names[i])
    ensures OneLine(Quoted(names))
  {
    if names != [] {
      QuotedOneLine(names[1..]);
    }
  }

  lemma DocRowOneLine(key: string, v: Value, e: Entry)
    requires e.Entry? && OneLine(key) && forall i :: 0 <= i < |e.refusals| ==> OneLine(e.refusals[i])
    ensures OneLine(DocRow(key, v, e))
  {
    hide RenderDefault, Collapse, EscapePipes, Quoted;
    var head := RenderDefault(v);
    var cell := if e.note != [] then head + " (" + e.note + ")" else head;
    CollapseOneLine(cell);
    EscapeOneLine(Collapse(cell), false);
    CollapseOneLine(e.meaning);
    EscapeOneLine(Collapse(e.meaning), false);
    QuotedOneLine(e.refusals);
  }

  lemma {:induction false} LookupOneLine(docs: Docs, key: string)
    requires OneLineDocs(docs) && Lookup(docs, key).Some?
    ensures var e := Lookup(docs, key).value;
      e.Entry? ==> forall j :: 0 <= j < |e.refusals| ==> OneLine(e.refusals[j])
  {
    hide OneLine;
    if docs[0].0 != key {
      assert OneLineDocs(docs[1..]) by {
        assert forall i :: 0 <= i < |docs[1..]| ==> docs[1..][i] == docs[i + 1];
      }
      LookupOneLine(docs[1..], key);
    }
  }

  lemma {:induction false} DocRowsOneLine(t: Table, docs: Docs)
    requires OneLineDocs(docs) && forall i :: 0 <= i < |t| ==> OneLine(t[i].0)
    ensures AllOneLine(DocRows(t, docs))
  {
    hide OneLineDocs, DocRow, Lookup, OneLine;
    if t != [] {
      if Documented(docs, t[0].0) {
        LookupOneLine(docs, t[0].0);
        DocRowOneLine(t[0].0, t[0].1, Lookup(docs, t[0].0).value);
      }
      assert forall i :: 0 <= i < |t[1..]| ==> t[1..][i] == t[i + 1];
      DocRowsOneLine(t[1..], docs);
    }
  }

  lemma LineOutOneLine(cfg: Config, core: Core, n: nat, line: string)
    requires OneLine(line) && Process(cfg, core, n, line).Effect?
    requires OneLineItems(cfg, ItemsOf(cfg, Current(cfg, core, line), line))
    ensures AllOneLine(Process(cfg, core, n, line).out)
  {
    hide OneLineDocs, DocRows, OneLine, Current, Cells, RowKey, RenderDefault, Rewritten, Config.Known, Strip, Note;
    var now := Current(cfg, core, line);
    var items := ItemsOf(cfg, now, line);
    if items != [] {
      assert items[0] in items;
    }
    match KindOf(cfg, now, line) {
      case Generated =>
        DocRowsOneLine(cfg.Defaults(now.table), cfg.docs[now.table]);
        FixedOneLine();
      case Row(key, cells, col) =>
        if cfg.Known(now.table, key) {
          RewrittenOneLine(line, col, Get(cfg.Defaults(now.table), key));
        }
      case _ =>
    }
  }

  lemma FixedOneLine()
    ensures OneLine(HEADER) && OneLine(RULER)
  {
  }

  lemma {:induction false} RunOneLine(cfg: Config, core: Core, n: nat, lines: seq<string>)
    requires AllOneLine(lines) && OneLineItems(cfg, Layout(cfg, core, n, lines)) && Run(cfg, core, n, lines).Effect?
    ensures AllOneLine(Run(cfg, core, n, lines).out)
    ensures lines != [] && !core.skipping ==> Run(cfg, core, n, lines).out != []
    decreases |lines|
  {
    hide Process, ItemsOf, Current, Then, OneLineItem, OneLine;
    if lines != [] {
      var one := Process(cfg, core, n, lines[0]);
      ThenIs(one, Run(cfg, one.core, n + 1, lines[1..]));
      LineOutOneLine(cfg, core, n, lines[0]);
      if !core.skipping {
        FirstLineStays(cfg, core, n, lines[0]);
      }
      RunOneLine(cfg, one.core, n + 1, lines[1..]);
    }
  }

  lemma FirstLineStays(cfg: Config, core: Core, n: nat, line: string)
    requires !core.skipping && Process(cfg, core, n, line).Effect?
    ensures Process(cfg, core, n, line).out != []
  {
    hide Cells, RowKey, IndexOf, HeadingOf, Rewritten, Config.Known, DocRows;
  }

  // ---------------------------------------------------------------- lines of what was put out

  lemma {:induction false} SplitConcat(a: string, b: string)
    ensures SplitLines(a + "\n" + b) == SplitLines(a) + SplitLines(b)
  {
    if a == [] {
      assert ("" + "\n" + b)[1..] == b;
    } else {
      assert (a + "\n" + b)[1..] == a[1..] + "\n" + b;
      SplitConcat(a[1..], b);
    }
  }

  /** The lines of strings that may hold newlines. */
  function Flat(out: seq<string>): seq<string> {
    if out == [] then [] else SplitLines(out[0]) + Flat(out[1..])
  }

  lemma {:induction false} FlatAppend(a: seq<string>, b: seq<string>)
    ensures Flat(a + b) == Flat(a) + Flat(b)
  {
    hide SplitLines;
    if a == [] {
      assert a + b == b;
    } else {
      assert (a + b)[1..] == a[1..] + b && (a + b)[0] == a[0];
      FlatAppend(a[1..], b);
    }
  }

  lemma FlatOne(s: string)
    ensures Flat([s]) == SplitLines(s)
    ensures OneLine(s) ==> Flat([s]) == [s]
  {
    hide SplitLines, OneLine;
    assert [s][1..] == [];
    if OneLine(s) {
      SplitAppend(s, "");
    }
  }

  lemma {:induction false} FlatOneLine(out: seq<string>)
    requires AllOneLine(out)
    ensures Flat(out) == out
  {
    hide SplitLines, OneLine;
    if out != [] {
      assert out == [out[0]] + out[1..];
      SplitAppend(out[0], "");
      FlatOneLine(out[1..]);
    }
  }

  /** Cutting the joined page gives the lines of what was put out. */
  lemma {:induction false} SplitOfPage(out: seq<string>)
    requires out != []
    ensures SplitLines(JoinLines(out)) == Flat(out)
  {
    hide SplitLines;
    if |out| == 1 {
      assert out == [out[0]];
      FlatOne(out[0]);
    } else {
      SplitConcat(out[0], JoinLines(out[1..]));
      SplitOfPage(out[1..]);
    }
  }

  // ---------------------------------------------------------------- lines left of the first pipe

  predicate Unpiped(line: string) { line == "" || line[0] != '|' }

  predicate AllUnpiped(lines: seq<string>) { forall i :: 0 <= i < |lines| ==> Unpiped(lines[i]) }

  /** A line that does not start with a pipe is put out as it is, in any state. */
  lemma UnpipedIsKept(cfg: Config, core: Core, n: nat, line: string)
    requires Unpiped(line)
    ensures Process(cfg, core, n, line) == Effect(Current(cfg, core, line), [line], [])
  {
    hide Cells, IndexOf, HeadingOf, IsHeader;
    assert OPENING[0] == '|' && "| `"[0] == '|';
  }

  lemma {:induction false} RunUnpiped(cfg: Config, core: Core, n: nat, lines: seq<string>)
    requires AllUnpiped(lines)
    ensures Run(cfg, core, n, lines).Effect? && Run(cfg, core, n, lines).out == lines
    decreases |lines|
  {
    hide Process, Current, Then;
    if lines != [] {
      assert Unpiped(lines[0]);
      UnpipedIsKept(cfg, core, n, lines[0]);
      var one := Process(cfg, core, n, lines[0]);
      RunUnpiped(cfg, one.core, n + 1, lines[1..]);
      ThenIs(one, Run(cfg, one.core, n + 1, lines[1..]));
      assert [lines[0]] + lines[1..] == lines;
    }
  }

  /** No page is what its pass puts out with such lines pushed in front. */
  lemma {:induction false} NoShift(cfg: Config, core: Core, n: nat, p: seq<string>, lines: seq<string>)
    requires p != [] && AllUnpiped(p) && AllOneLine(p) && Run(cfg, core, n, lines).Effect?
    ensures p + Flat(Run(cfg, core, n, lines).out) != lines
    decreases |lines|
  {
    hide Run, AllUnpiped, AllOneLine, Flat;
    if p + Flat(Run(cfg, core, n, lines).out) == lines {
      var rest := lines[|p|..];
      assert lines == p + rest;
      RunUnpiped(cfg, core, n, p);
      RunAppend(cfg, core, n, p, rest);
      var first := Run(cfg, core, n, p);
      var more := Run(cfg, first.core, n + |p|, rest);
      ThenIs(first, more);
      FlatAppend(p, more.out);
      FlatOneLine(p);
      assert rest == p + Flat(more.out);
      NoShift(cfg, first.core, n + |p|, p, rest);
    }
  }

  // ---------------------------------------------------------------- a second pass that differs

  /** Running b over these lines crashes or puts out other ones. */
  predicate Differs(cfg: Config, b: Core, m: nat, lines: seq<string>) {
    var again := Run(cfg, b, m, lines); again.IndexError? || Flat(again.out) != lines
  }

  lemma DiffersThen(cfg: Config, b: Core, m: nat, lines: seq<string>, rest: seq<string>)
    requires AllOneLine(lines) && Run(cfg, b, m, lines).Effect? && Run(cfg, b, m, lines).out == lines
    requires Differs(cfg, Run(cfg, b, m, lines).core, m + |lines|, rest)
    ensures Differs(cfg, b, m, lines + rest)
  {
    hide Run, Flat, AllOneLine;
    RunAppend(cfg, b, m, lines, rest);
    var more := Run(cfg, Run(cfg, b, m, lines).core, m + |lines|, rest);
    if more.Effect? {
      FlatAppend(lines, more.out);
      FlatOneLine(lines);
      assert (lines + Flat(more.out))[|lines|..] == Flat(more.out) && (lines + rest)[|lines|..] == rest;
    }
  }

  /** What the lines after the first are turned into. */
  lemma FirstThenRest(cfg: Config, b: Core, m: nat, line: string, rest: seq<string>)
    requires Process(cfg, b, m, line).Effect?
    ensures var one := Process(cfg, b, m, line); var more := Run(cfg, one.core, m + 1, rest);
      Run(cfg, b, m, [line] + rest)
      == if more.IndexError? then IndexError else Effect(more.core, one.out + more.out, one.errors + more.errors)
  {
    hide Process;
    assert ([line] + rest)[1..] == rest;
  }

  /** An unclean one-line default: the row comes out longer. */
  lemma UncleanRowDiffers(cfg: Config, b: Core, m: nat, line: string, key: string, col: nat, rest: seq<string>)
    requires HashHeadings(cfg) && !b.skipping && cfg.Known(b.table, key) && !CleanDefault(Get(cfg.Defaults(b.table), key))
    requires RowKey(line) == Some(key) && 2 <= col < |Cells(line, false)| && b.defaultCol == Some(col)
    requires OneLine(line) && OneLine(RenderDefault(Get(cfg.Defaults(b.table), key)))
    ensures var row := Rewritten(Cells(line, false), col, Get(cfg.Defaults(b.table), key));
      Differs(cfg, b, m, SplitLines(row) + rest)
  {
    hide Cells, Rewritten, Config.Known, RowKey, HashHeadings, CleanDefault, Current, RenderDefault, OneLine, SplitLines, Run;
    var v := Get(cfg.Defaults(b.table), key);
    var row := Rewritten(Cells(line, false), col, v);
    RewrittenOneLine(line, col, v);
    SplitAppend(row, "");
    UncleanRowGrows(line, key, col, v);
    RowIsQuiet(cfg, b, row, key);
    var next := Rewritten(Cells(row, false), col, v);
    RewrittenOneLine(row, col, v);
    assert Process(cfg, b, m, row).out == [next];
    FirstThenRest(cfg, b, m, row, rest);
    FirstDiffers(cfg, b, m, row, next, rest);
  }

  lemma FirstDiffers(cfg: Config, b: Core, m: nat, row: string, next: string, rest: seq<string>)
    requires row != next && OneLine(next) && Process(cfg, b, m, row).Effect? && Process(cfg, b, m, row).out == [next]
    ensures Differs(cfg, b, m, [row] + rest)
  {
    hide Process, Run, Flat, OneLine;
    FirstThenRest(cfg, b, m, row, rest);
    var again := Run(cfg, b, m, [row] + rest);
    if again.Effect? {
      var more := Run(cfg, Process(cfg, b, m, row).core, m + 1, rest);
      FlatAppend([next], more.out);
      FlatOne(next);
      assert ([next] + Flat(more.out))[0] == next && ([row] + rest)[0] == row;
    }
  }

  // ---------------------------------------------------------------- a default that holds a newline

  /** The place of the first newline. */
  function FirstNewline(s: string): (k: nat)
    requires !OneLine(s)
    ensures k < |s| && s[k] == '\n' && OneLine(s[..k])
  {
    if s[0] == '\n' then 0
    else
      assert s == [s[0]] + s[1..];
      var k := FirstNewline(s[1..]);
      assert s[..k + 1] == [s[0]] + s[1..][..k];
      k + 1
  }

  /** Where no pipe cuts, no line but the first can start with one. */
  lemma {:induction false} PiecesAreUnpiped(s: string, t: string, escaped: bool)
    requires s != [] && s[|s| - 1] != '\n' && Cells(s, escaped) == [s] && OneLine(t)
    ensures var pieces := SplitLines(s + t);
      (!escaped ==> Unpiped(pieces[0])) && AllUnpiped(pieces[1..])
    decreases |s|
  {
    WholeTail(s, escaped);
    assert (s + t)[1..] == s[1..] + t;
    if |s| == 1 {
      assert s[1..] + t == t;
      SplitAppend(t, "");
    } else {
      PiecesAreUnpiped(s[1..], t, s[0] == '\\');
      var rest := SplitLines(s[1..] + t);
      assert rest == [rest[0]] + rest[1..];
    }
  }

  /** Text without a newline at the end does not change the number of lines. */
  lemma {:induction false} LineCount(s: string, t: string)
    requires OneLine(t)
    ensures |SplitLines(s + t)| == |SplitLines(s)|
  {
    if s == [] {
      assert s + t == t;
      SplitAppend(t, "");
    } else {
      assert (s + t)[1..] == s[1..] + t;
      LineCount(s[1..], t);
    }
  }

  /** The parts of a rendered default at its first newline. */
  lemma HeadAndRest(v: Value) returns (head: string, rest: string)
    requires !OneLine(RenderDefault(v)) && Whole(RenderDefault(v))
    ensures RenderDefault(v) == head + "\n" + rest && OneLine(head) && Whole(" " + head) && Whole(rest)
    ensures rest != "" && rest[|rest| - 1] != '\n'
  {
    hide RenderDefault, Cells;
    var r := RenderDefault(v);
    RenderEnds(v);
    var k := FirstNewline(r);
    head, rest := r[..k], r[k + 1..];
    assert IsSpace(r[k]) && r == head + "\n" + rest;
    WholePrefix(r, head, false);
    WholeSpace();
    WholeConcat(" ", head, false);
    WholeSuffix(r, false, k);
    WholeTail(r[k..], false);
    assert r[k..][1..] == rest && r[k..][0] == '\n';
  }

  /** The cells in front of a cell and behind it, with their pipes. */
  function Before(cells: seq<string>, col: nat): string
    requires 0 < col < |cells|
  {
    Join(cells[..col]) + "|"
  }

  function After(cells: seq<string>, col: nat): string
    requires col < |cells|
  {
    if col + 1 == |cells| then "" else "|" + Join(cells[col + 1..])
  }

  lemma InParts(cells: seq<string>, col: nat, cell: string)
    requires 0 < col < |cells|
    ensures Join(cells[col := cell]) == Before(cells, col) + cell + After(cells, col)
    ensures Join(cells[..col] + [cell]) == Before(cells, col) + cell
  {
    hide Join;
    var cells' := cells[col := cell];
    assert cells'[..col] == cells[..col] && cells'[col + 1..] == cells[col + 1..];
    JoinInTwo(cells', col);
    JoinFromIs(cells', col);
    JoinLast(cells[..col], JoinFrom(cells', col));
    JoinLast(cells[..col], cell);
    hide JoinFrom;
  }

  lemma PartsOneLine(cells: seq<string>, col: nat)
    requires 0 < col < |cells| && OneLine(Join(cells))
    ensures OneLine(Before(cells, col)) && OneLine(After(cells, col))
  {
    hide Before, After, Join;
    InParts(cells, col, cells[col]);
    assert cells[col := cells[col]] == cells;
  }

  lemma {:induction false} JoinLast(cells: seq<string>, x: string)
    requires cells != []
    ensures Join(cells + [x]) == Join(cells) + "|" + x
  {
    assert (cells + [x])[1..] == cells[1..] + [x];
    if |cells| > 1 {
      JoinLast(cells[1..], x);
      assert cells[0] + "|" + (Join(cells[1..]) + "|" + x) == cells[0] + "|" + Join(cells[1..]) + "|" + x;
    }
  }

  /** The first line of a row written with such a default is the same row, cut off in its default cell. */
  lemma CutRow(line: string, key: string, col: nat, head: string) returns (row: string)
    requires RowKey(line) == Some(key) && 2 <= col < |Cells(line, false)| && Whole(" " + head)
    ensures row == Join(Cells(line, false)[..col] + [" " + head]) && RowKey(row) == Some(key)
    ensures Cells(row, false) == Cells(line, false)[..col] + [" " + head]
  {
    var cells := Cells(line, false);
    RowKeyIsKey(line);
    RowCells(line, key);
    LineCellsAreProper(line);
    ProperParts(cells, col);
    hide Cells, RowKey, Proper;
    row := Join(cells[..col] + [" " + head]);
    CellsOfPrefix(cells[..col], " " + head);
    JoinedRow(cells[..col] + [" " + head], key);
  }

  /** A line that grows by lines which are kept afterwards: what follows cannot make up for them. */
  lemma GrownDiffers(cfg: Config, b: Core, m: nat, line: string, grown: string, old_: seq<string>, new_: seq<string>, rest: seq<string>)
    requires Process(cfg, b, m, line).Effect? && Process(cfg, b, m, line).out == [grown] && SplitLines(grown) == [line] + new_
    requires |new_| == |old_| && old_ != [] && AllUnpiped(old_) && AllOneLine(old_)
    ensures Differs(cfg, b, m, [line] + old_ + rest)
  {
    hide Process, Run, Flat, AllUnpiped, AllOneLine, SplitLines;
    var core := Process(cfg, b, m, line).core;
    FirstThenRest(cfg, b, m, line, old_ + rest);
    assert [line] + old_ + rest == [line] + (old_ + rest);
    var more := Run(cfg, core, m + 1, old_ + rest);
    if more.Effect? {
      FlatAppend([grown], more.out);
      FlatOne(grown);
      if [line] + new_ + Flat(more.out) == [line] + old_ + rest {
        assert ([line] + new_ + Flat(more.out))[1 + |new_|..] == Flat(more.out);
        assert ([line] + old_ + rest)[1 + |old_|..] == rest;
        RunUnpiped(cfg, core, m + 1, old_);
        RunAppend(cfg, core, m + 1, old_, rest);
        var kept := Run(cfg, core, m + 1, old_);
        var last := Run(cfg, kept.core, m + 1 + |old_|, rest);
        ThenIs(kept, last);
        FlatAppend(old_, last.out);
        FlatOneLine(old_);
        NoShift(cfg, kept.core, m + 1 + |old_|, old_, rest);
      }
    }
  }

  lemma NoteOneLine(cell: string)
    requires OneLine(cell)
    ensures OneLine(Note(Strip(cell)))
  {
    NoteIsPiece(cell);
    hide Note, Strip;
  }

  /** A default cell whose default holds a newline, as text. */
  lemma CellInTwo(pre: string, cell: string, v: Value, head: string, rest: string, post: string)
    requires RenderDefault(v) == head + "\n" + rest && OneLine(pre) && OneLine(head) && OneLine(cell) && OneLine(post)
    requires rest != "" && rest[|rest| - 1] != '\n' && Whole(rest)
    ensures var t := Note(Strip(cell)) + " " + post;
      && OneLine(t) && SplitLines(pre + NewCell(cell, v) + post) == [pre + (" " + head)] + SplitLines(rest + t)
      && AllUnpiped(SplitLines(rest + t)) && AllOneLine(SplitLines(rest + t))
  {
    hide RenderDefault, Note, Strip, Whole, SplitLines, Cells;
    var note := Note(Strip(cell));
    var t := note + " " + post;
    NoteOneLine(cell);
    assert pre + (" " + (head + "\n" + rest) + note + " ") + post == (pre + (" " + head)) + "\n" + (rest + t);
    SplitAppend(pre + (" " + head), rest + t);
    assert Cells(rest, false) == [rest] by { WholeMeans(rest); }
    PiecesAreUnpiped(rest, t, false);
    SplitIsOneLine(rest + t);
  }

  lemma WholeMeans(s: string)
    ensures Whole(s) <==> Cells(s, false) == [s]
  {
    hide Cells;
  }

  /** A default that holds a newline and no pipe that cuts it: the text gets more lines with every pass. */
  lemma NewlineRowDiffers(cfg: Config, b: Core, m: nat, line: string, key: string, col: nat, rest: seq<string>)
    requires HashHeadings(cfg) && !b.skipping && cfg.Known(b.table, key)
    requires RowKey(line) == Some(key) && 2 <= col < |Cells(line, false)| && b.defaultCol == Some(col) && OneLine(line)
    requires var r := RenderDefault(Get(cfg.Defaults(b.table), key)); !OneLine(r) && Whole(r)
    ensures var row := Rewritten(Cells(line, false), col, Get(cfg.Defaults(b.table), key));
      Differs(cfg, b, m, SplitLines(row) + rest)
  {
    hide Cells, RowKey, HashHeadings, Current, RenderDefault, SplitLines, Run, NewCell, Config.Known, Whole, OneLine,
      Before, After, Join, Note, Strip;
    var v := Get(cfg.Defaults(b.table), key);
    var cells := Cells(line, false);
    var head, tail := HeadAndRest(v);
    var pre, post := Before(cells, col), After(cells, col);
    JoinOfCells(line, false);
    PartsOneLine(cells, col);
    CellOneLine(cells, col);
    InParts(cells, col, NewCell(cells[col], v));
    CellInTwo(pre, cells[col], v, head, tail, post);
    var first := CutRow(line, key, col, head);
    InParts(cells, col, " " + head);
    RowIsQuiet(cfg, b, first, key);
    var again := cells[..col] + [" " + head];
    InParts(cells, col, NewCell(" " + head, v));
    assert again[col := NewCell(" " + head, v)] == cells[..col] + [NewCell(" " + head, v)];
    var grown := Rewritten(again, col, v);
    assert Process(cfg, b, m, first).out == [grown];
    SpacedOneLine(head);
    CellInTwo(pre, " " + head, v, head, tail, "");
    var old_, new_ := Note(Strip(cells[col])) + " " + post, Note(Strip(" " + head)) + " " + "";
    LineCount(tail, old_);
    LineCount(tail, new_);
    assert pre + NewCell(" " + head, v) + "" == grown;
    GrownDiffers(cfg, b, m, first, grown, SplitLines(tail + old_), SplitLines(tail + new_), rest);
  }

  lemma SpacedOneLine(head: string)
    requires OneLine(head)
    ensures OneLine(" " + head) && OneLine("")
  {
  }

  lemma CellOneLine(cells: seq<string>, col: nat)
    requires col < |cells| && OneLine(Join(cells))
    ensures OneLine(cells[col])
  {
    JoinOneLine(cells);
  }

  // ---------------------------------------------------------------- the first unsteady row

  /**
   Newlines are put in by rows right of the first pipe only, and a default that holds one holds no
   pipe that would cut it.
   */
  predicate MildItem(cfg: Config, x: Item) {
    OneLineItem(cfg, x)
    || (x.Entry? && x.col != 0 && cfg.Known(x.table, x.key) && Whole(RenderDefault(Get(cfg.Defaults(x.table), x.key))))
  }

  predicate MildItems(cfg: Config, items: seq<Item>) { forall x :: x in items ==> MildItem(cfg, x) }

  /** What a fixpoint shows: clean one-line defaults. */
  predicate SteadyItem(cfg: Config, x: Item) { CleanItem(cfg, x) && OneLineItem(cfg, x) }

  predicate SteadyItems(cfg: Config, items: seq<Item>) { forall x :: x in items ==> SteadyItem(cfg, x) }

  /** A mild item that is not steady is a row of a parser key right of the first pipe. */
  lemma UnsteadyIsRow(cfg: Config, x: Item)
    requires MildItem(cfg, x) && !SteadyItem(cfg, x)
    ensures x.Entry? && x.col != 0 && cfg.Known(x.table, x.key)
    ensures var v := Get(cfg.Defaults(x.table), x.key);
      if OneLine(RenderDefault(v)) then !CleanDefault(v) else Whole(RenderDefault(v))
  {
    hide CleanDefault, RenderDefault, OneLine, OneLineDocs, Config.Known;
  }

  /** Such a row comes out different on the second pass, whatever follows. */
  lemma UnsteadyLineDiffers(cfg: Config, a: Core, b: Core, n: nat, m: nat, line: string, rest: seq<string>)
    requires HashHeadings(cfg) && a.table == b.table && a.skipping == b.skipping && OneLine(line)
    requires a.defaultCol == b.defaultCol || a.defaultCol == Some(0)
    requires a.defaultCol != Some(1) && Process(cfg, a, n, line).Effect?
    requires var items := ItemsOf(cfg, Current(cfg, a, line), line); MildItems(cfg, items) && !SteadyItems(cfg, items)
    ensures Differs(cfg, b, m, Flat(Process(cfg, a, n, line).out) + rest)
  {
    hide Cells, Rewritten, Config.Known, RowKey, HashHeadings, CleanDefault, Current, Note, Strip, MildItem, SteadyItem, OneLine,
      SplitLines, Flat, RenderDefault, Whole;
    var core := Current(cfg, a, line);
    var x :| x in ItemsOf(cfg, core, line) && !SteadyItem(cfg, x);
    UnsteadyIsRow(cfg, x);
    RowIsQuiet(cfg, a, line, x.key);
    FlatOne(Rewritten(Cells(line, false), x.col, Get(cfg.Defaults(b.table), x.key)));
    if OneLine(RenderDefault(Get(cfg.Defaults(x.table), x.key))) {
      UncleanRowDiffers(cfg, b, m, line, x.key, x.col, rest);
    } else {
      NewlineRowDiffers(cfg, b, m, line, x.key, x.col, rest);
    }
  }

  lemma SteadyItemsAre(cfg: Config, items: seq<Item>)
    ensures SteadyItems(cfg, items) <==> CleanItems(cfg, items) && OneLineItems(cfg, items)
    ensures SteadyItems(cfg, []) && MildItems(cfg, [])
  {
    hide CleanItem, OneLineItem;
  }

  lemma TextItemsApart(cfg: Config, a: seq<Item>, b: seq<Item>)
    ensures SteadyItems(cfg, a + b) <==> SteadyItems(cfg, a) && SteadyItems(cfg, b)
    ensures MildItems(cfg, a + b) <==> MildItems(cfg, a) && MildItems(cfg, b)
  {
    hide SteadyItem, MildItem;
    assert forall x :: x in a ==> x in a + b;
    assert forall x :: x in b ==> x in a + b;
  }

  lemma {:induction false} PageDiffers(cfg: Config, lost: set<(string, string)>, a: Core, b: Core, n: nat, m: nat,
                                       lines: seq<string>)
    requires HashHeadings(cfg) && Like(cfg, lost, a, b) && a.defaultCol != Some(1) && AllOneLine(lines)
    requires var run := Run(cfg, a, n, lines); run.Effect? && run.errors == []
    requires var items := Layout(cfg, a, n, lines); MildItems(cfg, items) && !SteadyItems(cfg, items)
    ensures Differs(cfg, b, m, Flat(Run(cfg, a, n, lines).out))
    decreases |lines|
  {
    hide Process, ItemsOf, Current, SteadyItems, MildItems, Then, HashHeadings, CleanItems, OneLineItems, Flat, Differs, OneLine;
    if lines == [] {
      SteadyItemsAre(cfg, []);
    } else {
      var one, items := Process(cfg, a, n, lines[0]), ItemsOf(cfg, Current(cfg, a, lines[0]), lines[0]);
      var rest, more := Run(cfg, one.core, n + 1, lines[1..]), Layout(cfg, one.core, n + 1, lines[1..]);
      NoErrors(one, rest);
      ThenIs(one, rest);
      TextItemsApart(cfg, items, more);
      FlatAppend(one.out, rest.out);
      if SteadyItems(cfg, items) {
        SteadyItemsAre(cfg, items);
        LineAgain(cfg, lost, a, b, n, m, lines[0]);
        LineOutOneLine(cfg, a, n, lines[0]);
        FlatOneLine(one.out);
        var gone := lost + LostBy(cfg, items);
        RepeatsLike(cfg, gone, one.core, items, b, m, one.out);
        PageDiffers(cfg, gone, one.core, Run(cfg, b, m, one.out).core, n + 1, m + |one.out|, lines[1..]);
        DiffersThen(cfg, b, m, one.out, Flat(rest.out));
      } else {
        UnsteadyLineDiffers(cfg, a, b, n, m, lines[0], Flat(rest.out));
      }
    }
  }

  // ---------------------------------------------------------------- the fixpoint

  /** The text of an accepted page comes back unchanged and, rows right of the first pipe, without a refusal. */
  lemma SyncTextIsIdempotent(cfg: Config, text: string)
    requires cfg.Valid() && HashHeadings(cfg) && Accepted(cfg, SplitLines(text))
    requires var items := PageLayout(cfg, SplitLines(text)); CleanItems(cfg, items) && OneLineItems(cfg, items)
    ensures var (page, _) := SyncText(cfg, text); var (again, r) := SyncText(cfg, page);
      again == page && r.Page?
      && (NoneDisplaced(cfg, PageLayout(cfg, SplitLines(text))) ==> r.errors == [])
  {
    var lines := SplitLines(text);
    var out := Sync(cfg, lines).lines;
    SplitIsOneLine(text);
    AcceptedRun(cfg, lines);
    RunOneLine(cfg, Start(cfg), 1, lines);
    SplitOfJoin(out);
    SyncIsIdempotent(cfg, lines);
    assert NoneDisplaced(cfg, PageLayout(cfg, lines)) ==> Accepted(cfg, out);
    hide Run, Layout, FinalErrors, Registered, HashHeadings, CleanItems, SplitLines, JoinLines, OneLine;
  }

  lemma RunStays(cfg: Config, core: Core, n: nat, lines: seq<string>)
    requires lines != [] && !core.skipping && Run(cfg, core, n, lines).Effect?
    ensures Run(cfg, core, n, lines).out != []
  {
    hide Process, Then;
    var one := Process(cfg, core, n, lines[0]);
    FirstLineStays(cfg, core, n, lines[0]);
    ThenIs(one, Run(cfg, one.core, n + 1, lines[1..]));
  }

  /** Another pass over the joined page, in lines. */
  lemma SecondPass(cfg: Config, out: seq<string>)
    requires cfg.Valid() && Registered(cfg) && out != []
    ensures var run := Run(cfg, Start(cfg), 1, Flat(out)); var (again, r) := SyncText(cfg, JoinLines(out));
      && (r.Page? <==> run.Effect?)
      && (r.Page? ==> again == JoinLines(run.out) && SplitLines(again) == Flat(run.out))
  {
    hide Run, Registered, Flat, JoinLines, SplitLines, FinalErrors;
    SplitOfPage(out);
    var run := Run(cfg, Start(cfg), 1, Flat(out));
    if run.Effect? {
      RunStays(cfg, Start(cfg), 1, Flat(out));
      SplitOfPage(run.out);
    }
  }

  lemma UnsteadyTextDiffers(cfg: Config, text: string)
    requires cfg.Valid() && HashHeadings(cfg) && Accepted(cfg, SplitLines(text))
    requires var items := PageLayout(cfg, SplitLines(text)); MildItems(cfg, items) && !SteadyItems(cfg, items)
    ensures var (page, _) := SyncText(cfg, text); var (again, r) := SyncText(cfg, page); !(r.Page? && again == page)
  {
    hide Layout, FinalErrors, Registered, HashHeadings, SplitLines, JoinLines, OneLine, Flat, SteadyItems, MildItems, Run, Like;
    var lines, core := SplitLines(text), Start(cfg);
    SplitIsOneLine(text);
    AcceptedRun(cfg, lines);
    var out := Run(cfg, core, 1, lines).out;
    RunStays(cfg, core, 1, lines);
    AlikeAtStart(cfg);
    PageDiffers(cfg, {}, core, core, 1, 1, lines);
    SecondPass(cfg, out);
    SplitOfPage(out);
  }

  lemma AlikeAtStart(cfg: Config)
    requires cfg.names != []
    ensures Like(cfg, {}, Start(cfg), Start(cfg))
  {
  }

  /**
   The text of an accepted page comes out of a second pass unchanged exactly when the default of
   every row of a parser key right of the first pipe is clean and no newline is put in.
   */
  lemma FixpointIffClean(cfg: Config, text: string)
    requires cfg.Valid() && HashHeadings(cfg) && Accepted(cfg, SplitLines(text))
    requires MildItems(cfg, PageLayout(cfg, SplitLines(text)))
    ensures var items := PageLayout(cfg, SplitLines(text));
      var (page, _) := SyncText(cfg, text); var (again, r) := SyncText(cfg, page);
      r.Page? && again == page <==> CleanItems(cfg, items) && OneLineItems(cfg, items)
  {
    var items := PageLayout(cfg, SplitLines(text));
    SteadyItemsAre(cfg, items);
    hide Run, Layout, FinalErrors, Registered, HashHeadings, CleanItems, OneLineItems, SplitLines, JoinLines, OneLine, Flat,
      SteadyItems, MildItems;
    if SteadyItems(cfg, items) {
      SyncTextIsIdempotent(cfg, text);
    } else {
      UnsteadyTextDiffers(cfg, text);
    }
  }

  /** A registry in which no default, key or refusal holds a newline. */
  predicate OneLineRegistry(cfg: Config) {
    && (forall t, i :: t in cfg.defaults && 0 <= i < |cfg.defaults[t]| ==>
          OneLine(cfg.defaults[t][i].0) && OneLine(RenderDefault(cfg.defaults[t][i].1)))
    && (forall t :: t in cfg.docs ==> OneLineDocs(cfg.docs[t]))
  }

  lemma RegistryItem(cfg: Config, x: Item)
    requires OneLineRegistry(cfg)
    ensures OneLineItem(cfg, x)
  {
    hide OneLine, RenderDefault, OneLineDocs;
    if x.Entry? && cfg.Known(x.table, x.key) {
      var v := Get(cfg.Defaults(x.table), x.key);
      var i :| 0 <= i < |cfg.Defaults(x.table)| && cfg.Defaults(x.table)[i] == (x.key, v);
      assert OneLine(RenderDefault(cfg.defaults[x.table][i].1));
    }
  }

  /** With such a registry, any accepted page: unchanged exactly when clean. */
  lemma RegistryFixpoint(cfg: Config, text: string)
    requires cfg.Valid() && HashHeadings(cfg) && Accepted(cfg, SplitLines(text)) && OneLineRegistry(cfg)
    ensures var (page, _) := SyncText(cfg, text); var (again, r) := SyncText(cfg, page);
      r.Page? && again == page <==> CleanItems(cfg, PageLayout(cfg, SplitLines(text)))
  {
    hide OneLineRegistry, OneLineItem, CleanItems, SplitLines, Layout, HashHeadings, JoinLines;
    forall x
      ensures OneLineItem(cfg, x)
    {
      RegistryItem(cfg, x);
    }
    FixpointIffClean(cfg, text);
  }
}
