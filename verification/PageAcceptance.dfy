/**
 Which pages are accepted, in terms of what stands on them: every row is of a parser key or retired,
 none comes twice, every hand-written key has one, and every documented table is there and complete.
 */
module PageAcceptance {
  import opened PageText
  import opened PageTables
  import opened PageSync
  import opened PageFixpoint
  import opened PageRows
  import opened Wrappers

  // ---------------------------------------------------------------- rows that came before

  /** A row or a generated table that takes the place of key p's row. */
  predicate Takes(cfg: Config, x: Item, p: (string, string)) {
    IsRowOf(x, p) || (x == Made(p.0) && cfg.Known(p.0, p.1))
  }

  /** The key's row stands among the items: none of its table's generation came after. */
  predicate Stands(cfg: Config, items: seq<Item>, p: (string, string)) {
    exists j :: 0 <= j < |items| && Takes(cfg, items[j], p) && NotMadeAfter(items, j, p.0)
  }

  predicate NotMadeAfter(items: seq<Item>, j: nat, table: string) {
    forall k :: j < k < |items| ==> items[k] != Made(table)
  }

  lemma StandsAfter(cfg: Config, items: seq<Item>, x: Item, p: (string, string))
    ensures Stands(cfg, items + [x], p) <==> Takes(cfg, x, p) || (x != Made(p.0) && Stands(cfg, items, p))
  {
    hide Takes;
    var all := items + [x];
    if Takes(cfg, x, p) {
      assert all[|items|] == x && NotMadeAfter(all, |items|, p.0);
    } else if x != Made(p.0) && Stands(cfg, items, p) {
      var j :| 0 <= j < |items| && Takes(cfg, items[j], p) && NotMadeAfter(items, j, p.0);
      assert all[j] == items[j] && NotMadeAfter(all, j, p.0);
    }
    if Stands(cfg, all, p) && !Takes(cfg, x, p) {
      var j :| 0 <= j < |all| && Takes(cfg, all[j], p) && NotMadeAfter(all, j, p.0);
      assert all[|items|] == x && all[j] == items[j];
      assert NotMadeAfter(items, j, p.0) by {
        assert forall k :: j < k < |items| ==> all[k] == items[k];
      }
    }
  }

  /** A row that does not repeat one that stands. */
  predicate New(cfg: Config, before: seq<Item>, x: Item) {
    x.Entry? ==> !Stands(cfg, before, (x.table, x.key))
  }

  predicate AllNew(cfg: Config, before: seq<Item>, items: seq<Item>) {
    forall i :: 0 <= i < |items| ==> New(cfg, before + items[..i], items[i])
  }

  /** The machine has seen exactly the keys whose rows stand. */
  ghost predicate Remembers(cfg: Config, core: Core, items: seq<Item>) {
    forall p :: p in core.seen <==> Stands(cfg, items, p)
  }

  // ---------------------------------------------------------------- one line

  lemma SeenAllIs(cfg: Config, core: Core, n: nat, p: (string, string))
    ensures p in SeenAll(cfg, core, n) <==> if p.0 == core.table then cfg.Known(p.0, p.1) else p in core.seen
  {
    var t := cfg.Defaults(core.table);
    if p.0 == core.table && cfg.Known(p.0, p.1) {
      var i :| 0 <= i < |t| && t[i].0 == p.1;
      assert (core.table, t[i].0) == p;
    }
  }

  lemma LineRemembers(cfg: Config, core: Core, n: nat, line: string, before: seq<Item>)
    requires Process(cfg, core, n, line).Effect? && Remembers(cfg, core, before)
    ensures var one, items := Process(cfg, core, n, line), ItemsOf(cfg, Current(cfg, core, line), line);
      Remembers(cfg, one.core, before + items)
  {
    hide Current, Cells, RowKey, Config.Known, Config.Defaults, Retired, Rewritten, Strip, Note, BlockErrors, Block,
      SeenAll, Stands;
    var now := Current(cfg, core, line);
    CurrentKeepsSeen(cfg, core, line);
    var one, items := Process(cfg, core, n, line), ItemsOf(cfg, now, line);
    if items == [] {
      assert before + items == before;
    } else {
      forall p
        ensures p in one.core.seen <==> Stands(cfg, before + items, p)
      {
        SeenAllIs(cfg, now, n, p);
        StandsAfter(cfg, before, items[0], p);
      }
    }
  }

  lemma LineRefusedIff(cfg: Config, core: Core, n: nat, line: string, before: seq<Item>)
    requires Process(cfg, core, n, line).Effect? && Remembers(cfg, core, before)
    ensures var one, items := Process(cfg, core, n, line), ItemsOf(cfg, Current(cfg, core, line), line);
      one.errors == [] <==> AllNew(cfg, before, items) && GoodItems(cfg, items)
  {
    hide Current, Cells, RowKey, Config.Known, Config.Defaults, Retired, Rewritten, Strip, Note, BlockErrors, Block,
      SeenAll, Stands;
    var now := Current(cfg, core, line);
    CurrentKeepsSeen(cfg, core, line);
    GeneratesDocumented(cfg, now, line);
    var items := ItemsOf(cfg, now, line);
    if items != [] {
      assert before + items[..0] == before;
      assert items[0] in items;
    }
  }

  // ---------------------------------------------------------------- a page

  lemma AllNewApart(cfg: Config, before: seq<Item>, a: seq<Item>, b: seq<Item>)
    ensures AllNew(cfg, before, a + b) <==> AllNew(cfg, before, a) && AllNew(cfg, before + a, b)
  {
    hide New;
    forall i | 0 <= i < |a|
      ensures (a + b)[i] == a[i] && before + (a + b)[..i] == before + a[..i]
    {
    }
    forall i | 0 <= i < |b|
      ensures (a + b)[|a| + i] == b[i] && before + (a + b)[..|a| + i] == before + a + b[..i]
    {
    }
    if AllNew(cfg, before, a + b) {
      forall i | 0 <= i < |a|
        ensures New(cfg, before + a[..i], a[i])
      {
        assert New(cfg, before + (a + b)[..i], (a + b)[i]);
      }
      forall i | 0 <= i < |b|
        ensures New(cfg, before + a + b[..i], b[i])
      {
        assert New(cfg, before + (a + b)[..|a| + i], (a + b)[|a| + i]);
      }
    }
    if AllNew(cfg, before, a) && AllNew(cfg, before + a, b) {
      forall i | 0 <= i < |a + b|
        ensures New(cfg, before + (a + b)[..i], (a + b)[i])
      {
        if i < |a| {
          assert New(cfg, before + a[..i], a[i]);
        } else {
          assert (a + b)[|a| + (i - |a|)] == b[i - |a|];
          assert New(cfg, before + a + b[..i - |a|], b[i - |a|]);
        }
      }
    }
  }

  lemma GoodApart(cfg: Config, a: seq<Item>, b: seq<Item>)
    ensures GoodItems(cfg, a + b) <==> GoodItems(cfg, a) && GoodItems(cfg, b)
  {
    hide GoodItem;
    assert forall x :: x in a + b <==> x in a || x in b;
  }

  lemma ErrorsApart(a: Effect, b: Effect)
    requires a.Effect? && b.Effect?
    ensures Then(a, b).Effect? && (Then(a, b).errors == [] <==> a.errors == [] && b.errors == [])
  {
    assert |a.errors + b.errors| == |a.errors| + |b.errors|;
  }

  lemma {:induction false} RunRefusedIff(cfg: Config, core: Core, n: nat, lines: seq<string>, before: seq<Item>)
    requires Run(cfg, core, n, lines).Effect? && Remembers(cfg, core, before)
    ensures var run, items := Run(cfg, core, n, lines), Layout(cfg, core, n, lines);
      && Remembers(cfg, run.core, before + items)
      && (run.errors == [] <==> AllNew(cfg, before, items) && GoodItems(cfg, items))
    decreases |lines|
  {
    hide Process, ItemsOf, Current, Then, Remembers, AllNew, GoodItems;
    if lines == [] {
      assert before + [] == before;
      NothingNew(cfg, before);
    } else {
      var one, items := Process(cfg, core, n, lines[0]), ItemsOf(cfg, Current(cfg, core, lines[0]), lines[0]);
      var rest, more := Run(cfg, one.core, n + 1, lines[1..]), Layout(cfg, one.core, n + 1, lines[1..]);
      ThenIs(one, rest);
      ErrorsApart(one, rest);
      LineRemembers(cfg, core, n, lines[0], before);
      LineRefusedIff(cfg, core, n, lines[0], before);
      RunRefusedIff(cfg, one.core, n + 1, lines[1..], before + items);
      assert before + items + more == before + (items + more);
      AllNewApart(cfg, before, items, more);
      GoodApart(cfg, items, more);
    }
  }

  lemma NothingNew(cfg: Config, before: seq<Item>)
    ensures AllNew(cfg, before, []) && GoodItems(cfg, [])
  {
  }

  // ---------------------------------------------------------------- what is asked of an item

  /** The docs describe the key: its first entry has a meaning and no empty refusal name. */
  predicate Describe(docs: Docs, key: string) {
    exists i :: 0 <= i < |docs| && docs[i].0 == key && NotBefore(docs, i, key) && docs[i].1.Entry?
                && docs[i].1.meaning != "" && "" !in docs[i].1.refusals
  }

  predicate NotBefore(docs: Docs, i: nat, key: string) {
    forall j :: 0 <= j < i && j < |docs| ==> docs[j].0 != key
  }

  lemma {:induction false} LookupIs(docs: Docs, key: string)
    ensures Lookup(docs, key).None? ==> NotBefore(docs, |docs|, key)
    ensures Lookup(docs, key).Some? ==>
      exists i :: 0 <= i < |docs| && docs[i] == (key, Lookup(docs, key).value) && NotBefore(docs, i, key)
  {
    if docs != [] {
      if docs[0].0 == key {
        assert docs[0] == (key, Lookup(docs, key).value) && NotBefore(docs, 0, key);
      } else {
        LookupIs(docs[1..], key);
        assert forall j :: 1 <= j < |docs| ==> docs[j] == docs[1..][j - 1];
        if Lookup(docs, key).Some? {
          var i :| 0 <= i < |docs[1..]| && docs[1..][i] == (key, Lookup(docs, key).value) && NotBefore(docs[1..], i, key);
          assert docs[i + 1] == (key, Lookup(docs, key).value) && NotBefore(docs, i + 1, key);
        }
      }
    }
  }

  lemma DocumentedIff(docs: Docs, key: string)
    ensures Documented(docs, key) <==> Describe(docs, key)
  {
    hide Lookup;
    LookupIs(docs, key);
    if Lookup(docs, key).Some? {
      var i :| 0 <= i < |docs| && docs[i] == (key, Lookup(docs, key).value) && NotBefore(docs, i, key);
      forall k | 0 <= k < |docs| && docs[k].0 == key && NotBefore(docs, k, key)
        ensures k == i
      {
        assert k <= i;
      }
      if Describe(docs, key) {
        var k :| 0 <= k < |docs| && docs[k].0 == key && NotBefore(docs, k, key) && docs[k].1.Entry?
                 && docs[k].1.meaning != "" && "" !in docs[k].1.refusals;
        assert k == i;
      }
    }
  }

  /** The text holds the key in double quotes. */
  ghost predicate Quotes(text: string, key: string) {
    exists a, b :: text == a + ("\"" + key + "\"") + b
  }

  lemma ContainsIff(s: string, part: string)
    ensures Contains(s, part) <==> exists a, b :: s == a + part + b
  {
    if Contains(s, part) {
      var i :| 0 <= i <= |s| && part <= s[i..];
      assert s == s[..i] + part + s[i + |part|..];
    }
    if a, b :| s == a + part + b {
      assert s[|a|..] == part + b;
    }
  }

  /** A row of a parser key, or one of the GW deck's retired keys; a table whose defaults and docs match. */
  ghost predicate Rightful(cfg: Config, x: Item) {
    match x
    case Line(_) => true
    case Made(table) =>
      && table in cfg.docs
      && (forall i :: 0 <= i < |cfg.Defaults(table)| ==> Describe(cfg.docs[table], cfg.Defaults(table)[i].0))
      && (forall i :: 0 <= i < |cfg.docs[table]| ==> cfg.Known(table, cfg.docs[table][i].0))
    case Entry(table, key, col, cells) =>
      cfg.Known(table, key) || (table == "gw" && col < |cells| && Strip(cells[col]) == "retired" && Quotes(cfg.source, key))
  }

  lemma GoodIff(cfg: Config, x: Item)
    ensures GoodItem(cfg, x) <==> Rightful(cfg, x)
  {
    hide Describe, Documented, BlockErrors, Contains, Quotes, Strip, Has;
    match x {
      case Line(_) =>
      case Made(table) =>
        if table in cfg.docs {
          TableIff(cfg, table);
        }
      case Entry(table, key, col, cells) =>
        ContainsIff(cfg.source, "\"" + key + "\"");
        QuotesIs(cfg.source, key);
    }
  }

  lemma QuotesIs(text: string, key: string)
    ensures Quotes(text, key) <==> exists a, b :: text == a + ("\"" + key + "\"") + b
  {
  }

  lemma TableIff(cfg: Config, table: string)
    requires table in cfg.docs
    ensures BlockErrors(cfg, table) == [] <==> Rightful(cfg, Made(table))
  {
    hide Describe, Documented, BlockErrors, Config.Defaults, Block;
    BlockIsComplete(cfg, table);
    var t, docs := cfg.Defaults(table), cfg.docs[table];
    forall i | 0 <= i < |t|
      ensures Documented(docs, t[i].0) <==> Describe(docs, t[i].0)
    {
      DocumentedIff(docs, t[i].0);
    }
  }

  // ---------------------------------------------------------------- acceptance

  /** Each hand-written key has a row, and each documented table was generated. */
  ghost predicate Covers(cfg: Config, items: seq<Item>) {
    && (forall t, i :: t in cfg.names && t !in cfg.docs && 0 <= i < |cfg.Defaults(t)| ==>
          HasRow(items, (t, cfg.Defaults(t)[i].0)))
    && (forall t :: t in cfg.docs ==> Made(t) in items)
  }

  predicate HasRow(items: seq<Item>, p: (string, string)) {
    exists x :: x in items && IsRowOf(x, p)
  }

  lemma HandRowStands(cfg: Config, items: seq<Item>, p: (string, string))
    requires SoundItems(cfg, items) && p.0 !in cfg.docs
    ensures Stands(cfg, items, p) <==> HasRow(items, p)
  {
    forall k | 0 <= k < |items|
      ensures items[k] != Made(p.0)
    {
      assert Sound(cfg, items[k]);
    }
    if HasRow(items, p) {
      var x :| x in items && IsRowOf(x, p);
      var j :| 0 <= j < |items| && items[j] == x;
      assert Takes(cfg, items[j], p) && NotMadeAfter(items, j, p.0);
    }
  }

  lemma {:induction false} GeneratedIs(cfg: Config, core: Core, n: nat, lines: seq<string>, t: string)
    requires Run(cfg, core, n, lines).Effect?
    ensures t in Run(cfg, core, n, lines).core.generated <==> t in core.generated || Made(t) in Layout(cfg, core, n, lines)
    decreases |lines|
  {
    hide Process, ItemsOf, Current, Then;
    if lines != [] {
      var one, items := Process(cfg, core, n, lines[0]), ItemsOf(cfg, Current(cfg, core, lines[0]), lines[0]);
      ThenIs(one, Run(cfg, one.core, n + 1, lines[1..]));
      LineGenerates(cfg, core, n, lines[0], t);
      GeneratedIs(cfg, one.core, n + 1, lines[1..], t);
    }
  }

  lemma LineGenerates(cfg: Config, core: Core, n: nat, line: string, t: string)
    requires Process(cfg, core, n, line).Effect?
    ensures t in Process(cfg, core, n, line).core.generated
      <==> t in core.generated || Made(t) in ItemsOf(cfg, Current(cfg, core, line), line)
  {
    hide Current, Cells, RowKey, Config.Known, Retired, Rewritten, Strip, Note, BlockErrors, Block, SeenAll;
    CurrentKeepsSeen(cfg, core, line);
  }

  lemma StartRemembers(cfg: Config)
    requires cfg.names != []
    ensures Remembers(cfg, Start(cfg), [])
  {
  }

  lemma FinallyCovered(cfg: Config, core: Core, items: seq<Item>)
    requires Registered(cfg) && SoundItems(cfg, items) && Remembers(cfg, core, items)
    requires forall t :: t in core.generated <==> Made(t) in items
    ensures FinalErrors(cfg, core) == [] <==> Covers(cfg, items)
  {
    hide AllMissingRows, MissingTables, Config.Defaults, Stands, HasRow, SoundItems, Registered;
    AllMissingRowsIff(cfg, core, cfg.names);
    MissingTablesIff(cfg, core, cfg.names);
    assert |FinalErrors(cfg, core)| == |MissingTables(cfg, core, cfg.names)| + |AllMissingRows(cfg, core, cfg.names)|;
    forall t, i | t in cfg.names && t !in cfg.docs && 0 <= i < |cfg.Defaults(t)|
      ensures (t, cfg.Defaults(t)[i].0) in core.seen <==> HasRow(items, (t, cfg.Defaults(t)[i].0))
    {
      HandRowStands(cfg, items, (t, cfg.Defaults(t)[i].0));
    }
    forall t | t in cfg.docs
      ensures t in cfg.names
    {
      RegisteredDocs(cfg, t);
    }
    if Covers(cfg, items) {
      forall j | 0 <= j < |cfg.names| && cfg.names[j] !in cfg.docs
        ensures AllSeen(core, cfg.names[j], cfg.Defaults(cfg.names[j]))
      {
      }
    }
    if FinalErrors(cfg, core) == [] {
      forall t, i | t in cfg.names && t !in cfg.docs && 0 <= i < |cfg.Defaults(t)|
        ensures HasRow(items, (t, cfg.Defaults(t)[i].0))
      {
        var j :| 0 <= j < |cfg.names| && cfg.names[j] == t;
        assert AllSeen(core, cfg.names[j], cfg.Defaults(cfg.names[j]));
      }
      forall t | t in cfg.docs
        ensures Made(t) in items
      {
        var j :| 0 <= j < |cfg.names| && cfg.names[j] == t;
      }
    }
  }

  /**
   A page without an index error is accepted exactly when every row is of a parser key or retired and
   repeats no row that stands, every key of a hand-written table has a row, and every documented
   table is generated from defaults and docs that match.
   */
  lemma AcceptedIff(cfg: Config, lines: seq<string>)
    requires cfg.Valid() && Sync(cfg, lines).Page?
    ensures var items := PageLayout(cfg, lines);
      Accepted(cfg, lines) <==>
        AllNew(cfg, [], items) && (forall x :: x in items ==> Rightful(cfg, x)) && Covers(cfg, items)
  {
    hide Run, Layout, Registered, FinalErrors, Remembers, AllNew, Covers, Rightful, GoodItem, SoundItems;
    var run, items := Run(cfg, Start(cfg), 1, lines), PageLayout(cfg, lines);
    assert Registered(cfg) && run.Effect?;
    AcceptedRun(cfg, lines);
    StartRemembers(cfg);
    RunRefusedIff(cfg, Start(cfg), 1, lines, []);
    RunIsRendered(cfg, Start(cfg), 1, lines);
    assert [] + items == items;
    forall t
      ensures t in run.core.generated <==> Made(t) in items
    {
      GeneratedIs(cfg, Start(cfg), 1, lines, t);
    }
    FinallyCovered(cfg, run.core, items);
    forall x
      ensures GoodItem(cfg, x) <==> Rightful(cfg, x)
    {
      GoodIff(cfg, x);
    }
  }
}
