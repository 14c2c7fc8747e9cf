/** What the parsers say, and the tables generated from it (`render_default`, `_cell`, `doc_rows`). */
module PageTables {
  import opened PageText
  import opened Wrappers

  // ---------------------------------------------------------------- what the parsers say

  /** A default value; the text of a number is what the program prints for it. */
  datatype Value = NoDefault | Flag(b: bool) | Text(s: string) | Number(text: string)

  function RenderDefault(v: Value): string {
    match v
    case NoDefault => "unset"
    case Flag(b) => if b then "`true`" else "`false`"
    case Text(s) => if s != [] then "`" + s + "`" else "`\"\"`"
    case Number(text) => "`" + text + "`"
  }

  /** A docs entry: (default note, meaning, refusals), or something else. */
  datatype Entry = Entry(note: string, meaning: string, refusals: seq<string>) | Malformed

  predicate WellFormed(e: Entry) {
    e.Entry? && e.meaning != [] && forall i :: 0 <= i < |e.refusals| ==> e.refusals[i] != []
  }

  /** A dictionary in its insertion order. */
  type Table = seq<(string, Value)>

  type Docs = seq<(string, Entry)>

  function Lookup(docs: Docs, key: string): Option<Entry> {
    if docs == [] then None else if docs[0].0 == key then Some(docs[0].1) else Lookup(docs[1..], key)
  }

  predicate Has(t: Table, key: string) { exists i :: 0 <= i < |t| && t[i].0 == key }

  function Get(t: Table, key: string): (v: Value)
    requires Has(t, key)
    ensures exists i :: 0 <= i < |t| && t[i] == (key, v)
  {
    if t[0].0 == key then t[0].1
    else
      assert exists i :: 0 <= i < |t[1..]| && t[1..][i].0 == key by {
        var i :| 0 <= i < |t| && t[i].0 == key;
        assert t[1..][i - 1] == t[i];
      }
      var v := Get(t[1..], key);
      assert exists i :: 0 <= i < |t| && t[i] == (key, v) by {
        var i :| 0 <= i < |t[1..]| && t[1..][i] == (key, v);
        assert t[i + 1] == (key, v);
      }
      v
  }

  /** The registry (first table first), the headings, the defaults, the docs and the retired rule's source. */
  datatype Config = Config(
    names: seq<string>,
    headings: seq<(string, string)>,
    defaults: map<string, Table>,
    docs: map<string, Docs>,
    source: string)
  {
    predicate Valid() {
      names != [] && forall i :: 0 <= i < |headings| ==> headings[i].1 in names
    }

    function Defaults(table: string): Table { if table in defaults then defaults[table] else [] }

    predicate Known(table: string, key: string) { Has(Defaults(table), key) }
  }

  datatype Refusal =
    | SecondRow(line: nat, key: string, first: nat)
    | UnknownKey(line: nat, key: string)
    | NoRow(table: string, key: string)
    | NoTable(table: string)
    | StrayDoc(table: string, key: string)
    | MissingDoc(table: string, key: string)
    | MalformedDoc(table: string, key: string)

  // ---------------------------------------------------------------- generated tables

  const OPENING := "| key |"
  const HEADER := OPENING + " default | meaning | refused by |"
  const RULER := "|---|---|---|---|"

  /** " ".join(text.split()) */
  function Collapse(text: string): string
    decreases |text|
  {
    var t := LStrip(text);
    if t == [] then ""
    else
      var w := Word(t);
      var rest := LStrip(t[|w|..]);
      LStripShrinks(text);
      LStripShrinks(t[|w|..]);
      if rest == [] then w else w + " " + Collapse(rest)
  }

  lemma {:induction false} LStripShrinks(s: string)
    ensures |LStrip(s)| <= |s| && (LStrip(s) != [] ==> !IsSpace(LStrip(s)[0]))
  {
    if s != [] && IsSpace(s[0]) {
      LStripShrinks(s[1..]);
    }
  }

  /** The characters up to the next white space. */
  function Word(s: string): (w: string)
    ensures |w| <= |s| && (s != [] && !IsSpace(s[0]) ==> w != []) && forall i :: 0 <= i < |w| ==> !IsSpace(w[i])
  {
    if s == [] || IsSpace(s[0]) then "" else [s[0]] + Word(s[1..])
  }

  /** Put a backslash before every pipe that has none. */
  function EscapePipes(s: string, escaped: bool): string {
    if s == [] then ""
    else (if s[0] == '|' && !escaped then "\\|" else [s[0]]) + EscapePipes(s[1..], s[0] == '\\')
  }

  function CellText(text: string): string { EscapePipes(Collapse(text), false) }

  function Quoted(names: seq<string>): string {
    if names == [] then ""
    else "`" + names[0] + "`" + (if |names| == 1 then "" else ", " + Quoted(names[1..]))
  }

  function DocRow(key: string, v: Value, e: Entry): string
    requires e.Entry?
  {
    var head := RenderDefault(v);
    var cell := if e.note != [] then head + " (" + e.note + ")" else head;
    "| `" + key + "` | " + CellText(cell) + " | " + CellText(e.meaning) + " | "
    + (if e.refusals != [] then Quoted(e.refusals) else "\U{2014}") + " |"
  }

  predicate Documented(docs: Docs, key: string) {
    Lookup(docs, key).Some? && WellFormed(Lookup(docs, key).value)
  }

  /** The rows of a generated table, in the parser's order. */
  function DocRows(t: Table, docs: Docs): seq<string> {
    if t == [] then []
    else
      (if Documented(docs, t[0].0) then [DocRow(t[0].0, t[0].1, Lookup(docs, t[0].0).value)] else []) + DocRows(t[1..], docs)
  }

  /** Docs entries without a default. */
  function StrayErrors(t: Table, docs: Docs, table: string): seq<Refusal> {
    if docs == [] then []
    else (if Has(t, docs[0].0) then [] else [StrayDoc(table, docs[0].0)]) + StrayErrors(t, docs[1..], table)
  }

  /** Defaults without a well-formed docs entry. */
  function DocErrors(t: Table, docs: Docs, table: string): seq<Refusal> {
    if t == [] then []
    else
      var e := Lookup(docs, t[0].0);
      (if e.None? then [MissingDoc(table, t[0].0)] else if !WellFormed(e.value) then [MalformedDoc(table, t[0].0)] else [])
      + DocErrors(t[1..], docs, table)
  }

  /** Header, separator and rows. */
  function Block(cfg: Config, table: string): (lines: seq<string>)
    requires table in cfg.docs
    ensures |lines| >= 2 && lines[0] == HEADER
  {
    [HEADER, RULER] + DocRows(cfg.Defaults(table), cfg.docs[table])
  }

  function BlockErrors(cfg: Config, table: string): seq<Refusal>
    requires table in cfg.docs
  {
    StrayErrors(cfg.Defaults(table), cfg.docs[table], table) + DocErrors(cfg.Defaults(table), cfg.docs[table], table)
  }
}
