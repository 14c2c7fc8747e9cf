/**
 The page synchroniser (`sync`): a line-driven machine that sets the default cells of the
 hand-written tables and replaces the generated ones, with its list of refusals.
 */
module PageSync {
  import opened PageText
  import opened PageTables
  import opened Wrappers

  // ---------------------------------------------------------------- one line

  /** The machine's variables between lines; `seen` maps (table, key) to the line of its row. */
  datatype Core = Core(table: string, skipping: bool, generated: set<string>, defaultCol: Option<nat>,
                       seen: map<(string, string), nat>)

  /** What the machine takes a line for. */
  datatype Kind = Skipped | Generated | Kept | Short | Row(key: string, cells: seq<string>, col: nat)

  /** What a line does: the next variables, the lines put out and the refusals; or an index error. */
  datatype Effect = Effect(core: Core, out: seq<string>, errors: seq<Refusal>) | IndexError

  /** The table of the first heading the line starts with. */
  function HeadingOf(headings: seq<(string, string)>, line: string): Option<string> {
    if headings == [] then None
    else if StartsWith(line, headings[0].0) then Some(headings[0].1)
    else HeadingOf(headings[1..], line)
  }

  function IndexOf(cells: seq<string>, name: string): (i: Option<nat>)
    ensures i.Some? ==> i.value < |cells| && Strip(cells[i.value]) == name
    ensures i == None ==> forall k :: 0 <= k < |cells| ==> Strip(cells[k]) != name
  {
    if cells == [] then None
    else if Strip(cells[0]) == name then Some(0)
    else
      var i := IndexOf(cells[1..], name);
      assert forall k :: 1 <= k < |cells| ==> cells[k] == cells[1..][k - 1];
      if i.Some? then Some(i.value + 1) else None
  }

  predicate IsHeader(cells: seq<string>) { |cells| > 2 && Strip(cells[1]) == "key" }

  /** A section heading switches the table and ends skipping. */
  function Enter(cfg: Config, core: Core, line: string): Core {
    var h := HeadingOf(cfg.headings, line);
    if h.Some? then core.(table := h.value, skipping := false) else core
  }

  predicate Generates(cfg: Config, core: Core, line: string) {
    core.table in cfg.docs && core.table !in core.generated && StartsWith(line, OPENING)
  }

  /** The variables once headings, skipping and the header of a table are looked at. */
  function Current(cfg: Config, before: Core, line: string): Core {
    var entered := Enter(cfg, before, line);
    if entered.skipping && StartsWith(line, "|") then entered
    else
      var core := entered.(skipping := false);
      var cells := Cells(line, false);
      if Generates(cfg, core, line) || !IsHeader(cells) then core
      else core.(defaultCol := IndexOf(cells, "default"))
  }

  function KindOf(cfg: Config, core: Core, line: string): Kind {
    var cells, key := Cells(line, false), RowKey(line);
    if core.skipping then Skipped
    else if Generates(cfg, core, line) then Generated
    else if key.None? || core.defaultCol.None? then Kept
    else if core.defaultCol.value >= |cells| then Short
    else Row(key.value, cells, core.defaultCol.value)
  }

  /** The retired rule of the GW deck. */
  predicate Retired(cfg: Config, table: string, key: string, cell: string) {
    table == "gw" && cell == "retired" && Contains(cfg.source, "\"" + key + "\"")
  }

  predicate Contains(s: string, part: string) {
    exists i :: 0 <= i <= |s| && part <= s[i..]
  }

  /** The default cell: the rendered default and the cell's own note. */
  function NewCell(cell: string, v: Value): string { " " + RenderDefault(v) + Note(Strip(cell)) + " " }

  /** The row with its default cell set. */
  function Rewritten(cells: seq<string>, col: nat, v: Value): string
    requires col < |cells|
  {
    Join(cells[col := NewCell(cells[col], v)])
  }

  function RowEffect(cfg: Config, core: Core, n: nat, line: string, key: string, cells: seq<string>, col: nat): Effect
    requires col < |cells|
  {
    var again := if (core.table, key) in core.seen then [SecondRow(n, key, core.seen[(core.table, key)])] else [];
    var core' := core.(seen := core.seen[(core.table, key) := n]);
    if cfg.Known(core.table, key) then
      Effect(core', [Rewritten(cells, col, Get(cfg.Defaults(core.table), key))], again)
    else if Retired(cfg, core.table, key, Strip(cells[col])) then Effect(core', [line], again)
    else Effect(core', [line], again + [UnknownKey(n, key)])
  }

  /** All keys of the generated table count as seen at its header, and no others of it. */
  function SeenAll(cfg: Config, core: Core, n: nat): map<(string, string), nat> {
    var others := map p | p in core.seen && p.0 != core.table :: core.seen[p];
    others + map i | 0 <= i < |cfg.Defaults(core.table)| :: (core.table, cfg.Defaults(core.table)[i].0) := n
  }

  function AfterBlock(cfg: Config, core: Core, n: nat): Core {
    core.(generated := core.generated + {core.table}, seen := SeenAll(cfg, core, n), skipping := true)
  }

  /** One round of the loop. */
  function Process(cfg: Config, before: Core, n: nat, line: string): Effect {
    var core := Current(cfg, before, line);
    match KindOf(cfg, core, line)
    case Skipped => Effect(core, [], [])
    case Generated => Effect(AfterBlock(cfg, core, n), Block(cfg, core.table), BlockErrors(cfg, core.table))
    case Kept => Effect(core, [line], [])
    case Short => IndexError
    case Row(key, cells, col) => RowEffect(cfg, core, n, line, key, cells, col)
  }

  // ---------------------------------------------------------------- a page

  /** One effect after another. */
  function Then(first: Effect, rest: Effect): Effect
    requires first.Effect?
  {
    if rest.IndexError? then IndexError
    else Effect(rest.core, first.out + rest.out, first.errors + rest.errors)
  }

  /** The loop over lines numbered from n. */
  function Run(cfg: Config, core: Core, n: nat, lines: seq<string>): Effect
    decreases |lines|
  {
    if lines == [] then Effect(core, [], [])
    else
      var first := Process(cfg, core, n, lines[0]);
      if first.IndexError? then IndexError
      else Then(first, Run(cfg, first.core, n + 1, lines[1..]))
  }

  function Start(cfg: Config): Core
    requires cfg.names != []
  {
    Core(cfg.names[0], false, {}, None, map[])
  }

  /** Generated tables the page has no place for. */
  function MissingTables(cfg: Config, core: Core, names: seq<string>): seq<Refusal> {
    if names == [] then []
    else
      (if names[0] in cfg.docs && names[0] !in core.generated then [NoTable(names[0])] else [])
      + MissingTables(cfg, core, names[1..])
  }

  function MissingRows(core: Core, table: string, t: Table): seq<Refusal> {
    if t == [] then []
    else (if (table, t[0].0) in core.seen then [] else [NoRow(table, t[0].0)]) + MissingRows(core, table, t[1..])
  }

  /** Keys of the hand-written tables that have no row. */
  function AllMissingRows(cfg: Config, core: Core, names: seq<string>): seq<Refusal> {
    if names == [] then []
    else
      (if names[0] in cfg.docs then [] else MissingRows(core, names[0], cfg.Defaults(names[0])))
      + AllMissingRows(cfg, core, names[1..])
  }

  /** The refusals after the loop. */
  function FinalErrors(cfg: Config, core: Core): seq<Refusal> {
    MissingTables(cfg, core, cfg.names) + AllMissingRows(cfg, core, cfg.names)
  }

  datatype Outcome = Page(lines: seq<string>, errors: seq<Refusal>) | Crash | BadRegistry

  /** Defaults and docs name registered tables only. */
  predicate Registered(cfg: Config) {
    (forall t :: t in cfg.defaults ==> t in cfg.names) && (forall t :: t in cfg.docs ==> t in cfg.names)
  }

  function Finish(cfg: Config, e: Effect): Outcome {
    match e
    case IndexError => Crash
    case Effect(core, out, errors) => Page(out, errors + FinalErrors(cfg, core))
  }

  function Sync(cfg: Config, lines: seq<string>): Outcome
    requires cfg.Valid()
  {
    if !Registered(cfg) then BadRegistry else Finish(cfg, Run(cfg, Start(cfg), 1, lines))
  }

  // ---------------------------------------------------------------- running in parts

  lemma ThenLaws(core: Core, a: Effect, b: Effect, c: Effect)
    requires a.Effect? && b.Effect?
    ensures Then(a, Then(b, c)) == Then(Then(a, b), c)
    ensures Then(Effect(core, [], []), c) == c
    ensures Then(a, Effect(a.core, [], [])) == a
  {
    if c.Effect? {
      assert a.out + (b.out + c.out) == (a.out + b.out) + c.out;
      assert a.errors + (b.errors + c.errors) == (a.errors + b.errors) + c.errors;
      assert [] + c.out == c.out && [] + c.errors == c.errors;
    }
    assert a.out + [] == a.out && a.errors + [] == a.errors;
  }

  lemma {:induction false} RunAppend(cfg: Config, core: Core, n: nat, a: seq<string>, b: seq<string>)
    ensures var first := Run(cfg, core, n, a);
      Run(cfg, core, n, a + b) == if first.IndexError? then IndexError else Then(first, Run(cfg, first.core, n + |a|, b))
    decreases |a|
  {
    hide Process, Then;
    if a == [] {
      assert a + b == b;
      var none := Effect(core, [], []);
      ThenLaws(core, none, none, Run(cfg, core, n, b));
    } else {
      var one := Process(cfg, core, n, a[0]);
      assert (a + b)[1..] == a[1..] + b && (a + b)[0] == a[0];
      if one.Effect? {
        RunAppend(cfg, one.core, n + 1, a[1..], b);
        var more := Run(cfg, one.core, n + 1, a[1..]);
        ThenIs(one, IndexError);
        if more.Effect? {
          ThenLaws(core, one, more, Run(cfg, more.core, n + |a|, b));
          ThenIs(one, more);
        }
      }
    }
  }

  lemma ThenIs(a: Effect, b: Effect)
    requires a.Effect?
    ensures Then(a, b) == if b.IndexError? then IndexError else Effect(b.core, a.out + b.out, a.errors + b.errors)
  {
  }

  lemma RunNone(cfg: Config, core: Core)
    ensures Run(cfg, core, 1, []) == Effect(core, [], [])
  {
  }

  lemma RunOne(cfg: Config, core: Core, n: nat, line: string)
    ensures Run(cfg, core, n, [line]) == Process(cfg, core, n, line)
  {
    hide Process;
    var one := Process(cfg, core, n, line);
    assert [line][1..] == [];
    if one.Effect? {
      assert Run(cfg, one.core, n + 1, []) == Effect(one.core, [], []);
      ThenLaws(core, one, one, one);
    }
  }

  /** One more line; and an index error is final. */
  lemma RunNext(cfg: Config, core: Core, lines: seq<string>, i: nat)
    requires i < |lines| && Run(cfg, core, 1, lines[..i]).Effect?
    ensures var so := Run(cfg, core, 1, lines[..i]); var one := Process(cfg, so.core, i + 1, lines[i]);
      if one.IndexError? then Run(cfg, core, 1, lines) == IndexError
      else Run(cfg, core, 1, lines[..i + 1]) == Effect(one.core, so.out + one.out, so.errors + one.errors)
  {
    hide Process, Run, Then;
    var so := Run(cfg, core, 1, lines[..i]);
    var one := Process(cfg, so.core, i + 1, lines[i]);
    RunAppend(cfg, core, 1, lines[..i], [lines[i]]);
    RunOne(cfg, so.core, i + 1, lines[i]);
    assert lines[..i + 1] == lines[..i] + [lines[i]];
    ThenIs(so, one);
    RunAppend(cfg, core, 1, lines[..i + 1], lines[i + 1..]);
    assert lines == lines[..i + 1] + lines[i + 1..];
  }

  // ---------------------------------------------------------------- the index error

  /** A key row outside skipped lines with no more cells than the index of the default column in force. */
  predicate StandsShort(cfg: Config, core: Core, line: string) {
    && RowKey(line).Some? && !Enter(cfg, core, line).skipping
    && core.defaultCol.Some? && |Cells(line, false)| <= core.defaultCol.value
  }

  /** A row is no header and opens no table. */
  lemma RowIsPlain(line: string, key: string)
    requires RowKey(line) == Some(key)
    ensures !IsHeader(Cells(line, false)) && !StartsWith(line, OPENING)
  {
    RowKeyIsKey(line);
    RowCells(line, key);
    KeyCellIsNotKey(key);
    RowKeyIsPrefix(line, key);
    assert line[2] == RowStart(key)[2] == '`' && OPENING[2] == 'k';
    hide Cells, RowKey, KeyCell, Strip;
  }

  lemma ShortIffStandsShort(cfg: Config, core: Core, n: nat, line: string)
    ensures Process(cfg, core, n, line).IndexError? <==> StandsShort(cfg, core, line)
  {
    hide Cells, RowKey, HeadingOf, IsHeader, IndexOf, StartsWith, Config.Known, Retired, Rewritten;
    if RowKey(line).Some? {
      RowIsPlain(line, RowKey(line).value);
      RowIsPiped(line);
    }
  }

  lemma RowIsPiped(line: string)
    requires RowKey(line).Some?
    ensures StartsWith(line, "|")
  {
    assert line[0] == "| `"[0];
  }

  /** Line i stands short, and the lines before it ran without an index error. */
  predicate ShortAt(cfg: Config, lines: seq<string>, i: nat)
    requires cfg.Valid() && i < |lines|
  {
    var before := Run(cfg, Start(cfg), 1, lines[..i]);
    before.Effect? && StandsShort(cfg, before.core, lines[i])
  }

  lemma {:induction false} FirstShort(cfg: Config, lines: seq<string>, k: nat) returns (i: nat)
    requires cfg.Valid() && k <= |lines| && Run(cfg, Start(cfg), 1, lines[..k]).IndexError?
    ensures i < k && ShortAt(cfg, lines, i)
    decreases k
  {
    hide Process, Run, StandsShort;
    assert lines[..0] == [];
    RunNone(cfg, Start(cfg));
    assert k > 0;
    i := k - 1;
    var before := Run(cfg, Start(cfg), 1, lines[..i]);
    if before.IndexError? {
      i := FirstShort(cfg, lines, i);
    } else {
      RunNext(cfg, Start(cfg), lines, i);
      ShortIffStandsShort(cfg, before.core, k, lines[i]);
    }
  }

  /**
   The page ends in an index error exactly when some key row, reached without one, has no more
   cells than the index of the default column then in force.
   */
  lemma CrashIffShortRow(cfg: Config, lines: seq<string>)
    requires cfg.Valid() && Registered(cfg)
    ensures Sync(cfg, lines).Crash? <==> exists i :: 0 <= i < |lines| && ShortAt(cfg, lines, i)
  {
    hide Process, Run, StandsShort, Registered;
    if Sync(cfg, lines).Crash? {
      assert lines[..|lines|] == lines;
      var i := FirstShort(cfg, lines, |lines|);
    }
    if i :| 0 <= i < |lines| && ShortAt(cfg, lines, i) {
      RunNext(cfg, Start(cfg), lines, i);
      ShortIffStandsShort(cfg, Run(cfg, Start(cfg), 1, lines[..i]).core, i + 1, lines[i]);
    }
  }

  // ---------------------------------------------------------------- the loops

  method StraysOf(t: Table, docs: Docs, table: string) returns (errors: seq<Refusal>)
    ensures errors == StrayErrors(t, docs, table)
  {
    hide Has;
    errors := [];
    for i := 0 to |docs|
      invariant errors + StrayErrors(t, docs[i..], table) == StrayErrors(t, docs, table)
    {
      assert docs[i..][1..] == docs[i + 1..];
      if !Has(t, docs[i].0) {
        errors := errors + [StrayDoc(table, docs[i].0)];
      }
    }
    assert docs[|docs|..] == [];
  }

  /** The rows of a generated table and the refusals of its defaults, appended one default at a time. */
  method RowsOf(t: Table, docs: Docs, table: string) returns (rows: seq<string>, errors: seq<Refusal>)
    ensures rows == DocRows(t, docs) && errors == DocErrors(t, docs, table)
  {
    hide DocRow, Lookup;
    rows, errors := [], [];
    for i := 0 to |t|
      invariant rows + DocRows(t[i..], docs) == DocRows(t, docs)
      invariant errors + DocErrors(t[i..], docs, table) == DocErrors(t, docs, table)
    {
      assert t[i..][1..] == t[i + 1..];
      var e := Lookup(docs, t[i].0);
      if e.None? {
        errors := errors + [MissingDoc(table, t[i].0)];
        continue;
      }
      if !WellFormed(e.value) {
        errors := errors + [MalformedDoc(table, t[i].0)];
        continue;
      }
      rows := rows + [DocRow(t[i].0, t[i].1, e.value)];
    }
    assert t[|t|..] == [];
  }

  /** `doc_rows`: the refusals of stray docs entries come first. */
  method GenerateRows(cfg: Config, table: string) returns (rows: seq<string>, errors: seq<Refusal>)
    requires table in cfg.docs
    ensures [HEADER, RULER] + rows == Block(cfg, table) && errors == BlockErrors(cfg, table)
  {
    var strays := StraysOf(cfg.Defaults(table), cfg.docs[table], table);
    rows, errors := RowsOf(cfg.Defaults(table), cfg.docs[table], table);
    errors := strays + errors;
  }

  /** The first heading the line starts with switches to its table. */
  method FindHeading(headings: seq<(string, string)>, line: string) returns (table: Option<string>)
    ensures table == HeadingOf(headings, line)
  {
    hide StartsWith;
    for j := 0 to |headings|
      invariant HeadingOf(headings, line) == HeadingOf(headings[j..], line)
    {
      assert headings[j..][1..] == headings[j + 1..];
      if StartsWith(line, headings[j].0) {
        return Some(headings[j].1);
      }
    }
    assert headings[|headings|..] == [];
    return None;
  }

  /** The end of the loop body, for a row: a second row, the index error, an unknown key, or the default set. */
  method SetRow(cfg: Config, core: Core, n: nat, line: string, key: string, cells: seq<string>, col: nat) returns (e: Effect)
    ensures e == if col >= |cells| then IndexError else RowEffect(cfg, core, n, line, key, cells, col)
  {
    hide Cells, Strip, Note, Has, Rewritten, Retired;
    var seen, errors := core.seen, [];
    if (core.table, key) in seen {
      errors := errors + [SecondRow(n, key, seen[(core.table, key)])];
    }
    seen := seen[(core.table, key) := n];
    if col >= |cells| {
      return IndexError;
    }
    var cell := Strip(cells[col]);
    if !cfg.Known(core.table, key) {
      if !Retired(cfg, core.table, key, cell) {
        errors := errors + [UnknownKey(n, key)];
      }
      return Effect(core.(seen := seen), [line], errors);
    }
    return Effect(core.(seen := seen), [Rewritten(cells, col, Get(cfg.Defaults(core.table), key))], errors);
  }

  /** The body of the loop over lines: the variables change in the program's order. */
  method SyncLine(cfg: Config, core: Core, n: nat, line: string) returns (e: Effect)
    ensures e == Process(cfg, core, n, line)
  {
    hide Cells, IndexOf, RowKey, SeenAll, Block, BlockErrors, RowEffect, HeadingOf, IsHeader, AfterBlock, StartsWith;
    var table, skipping, defaultCol, seen := core.table, core.skipping, core.defaultCol, core.seen;
    var heading := FindHeading(cfg.headings, line);
    if heading.Some? {
      table, skipping := heading.value, false;
    }
    assert Enter(cfg, core, line) == core.(table := table, skipping := skipping);
    if skipping {
      if StartsWith(line, "|") {
        return Effect(core.(table := table), [], []);
      }
      skipping := false;
    }
    if table in cfg.docs && table !in core.generated && StartsWith(line, OPENING) {
      var rows, errors := GenerateRows(cfg, table);
      var now := core.(table := table, skipping := skipping);
      return Effect(AfterBlock(cfg, now, n), [HEADER, RULER] + rows, errors);
    }
    var cells := Cells(line, false);
    if IsHeader(cells) {
      defaultCol := IndexOf(cells, "default");
    }
    var key := RowKey(line);
    var now := Core(table, skipping, core.generated, defaultCol, seen);
    assert now == Current(cfg, core, line);
    if key.None? || defaultCol.None? {
      return Effect(now, [line], []);
    }
    e := SetRow(cfg, now, n, line, key.value, cells, defaultCol.value);
  }

  /** The refusals that only the whole page shows. */
  method FinishPage(cfg: Config, core: Core) returns (errors: seq<Refusal>)
    ensures errors == FinalErrors(cfg, core)
  {
    var tables := TablesMissing(cfg, core);
    var rows := RowsMissing(cfg, core);
    return tables + rows;
  }

  method TablesMissing(cfg: Config, core: Core) returns (errors: seq<Refusal>)
    ensures errors == MissingTables(cfg, core, cfg.names)
  {
    errors := [];
    for i := 0 to |cfg.names|
      invariant errors + MissingTables(cfg, core, cfg.names[i..]) == MissingTables(cfg, core, cfg.names)
    {
      assert cfg.names[i..][1..] == cfg.names[i + 1..];
      if cfg.names[i] in cfg.docs && cfg.names[i] !in core.generated {
        errors := errors + [NoTable(cfg.names[i])];
      }
    }
    assert cfg.names[|cfg.names|..] == [];
  }

  method RowsMissing(cfg: Config, core: Core) returns (errors: seq<Refusal>)
    ensures errors == AllMissingRows(cfg, core, cfg.names)
  {
    hide MissingRows, Config.Defaults;
    errors := [];
    for i := 0 to |cfg.names|
      invariant errors + AllMissingRows(cfg, core, cfg.names[i..]) == AllMissingRows(cfg, core, cfg.names)
    {
      assert cfg.names[i..][1..] == cfg.names[i + 1..];
      if cfg.names[i] in cfg.docs {
        continue;
      }
      var missing := MissingOf(core, cfg.names[i], cfg.Defaults(cfg.names[i]));
      errors := errors + missing;
    }
    assert cfg.names[|cfg.names|..] == [];
  }

  method MissingOf(core: Core, table: string, t: Table) returns (errors: seq<Refusal>)
    ensures errors == MissingRows(core, table, t)
  {
    errors := [];
    for i := 0 to |t|
      invariant errors + MissingRows(core, table, t[i..]) == MissingRows(core, table, t)
    {
      assert t[i..][1..] == t[i + 1..] && t[i..][0] == t[i];
      if (table, t[i].0) !in core.seen {
        errors := errors + [NoRow(table, t[i].0)];
      }
    }
    assert t[|t|..] == [];
  }

  /** One pass over the lines that appends to the page and to the refusals. */
  method SyncLines(cfg: Config, lines: seq<string>) returns (r: Outcome)
    requires cfg.Valid()
    ensures r == Sync(cfg, lines)
  {
    hide Process, Run, FinalErrors;
    if !Registered(cfg) {
      return BadRegistry;
    }
    var core, out, errors := Start(cfg), [], [];
    RunNone(cfg, core);
    assert lines[..0] == [];
    for i := 0 to |lines|
      invariant Run(cfg, Start(cfg), 1, lines[..i]) == Effect(core, out, errors)
    {
      RunNext(cfg, Start(cfg), lines, i);
      var one := SyncLine(cfg, core, i + 1, lines[i]);
      if one.IndexError? {
        return Crash;
      }
      core, out, errors := one.core, out + one.out, errors + one.errors;
    }
    assert lines[..|lines|] == lines;
    var final := FinishPage(cfg, core);
    return Page(out, errors + final);
  }
}
