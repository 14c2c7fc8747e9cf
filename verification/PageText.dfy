/** The strings of the reference page: lines, table cells, key rows and default cells. */
module PageText {
  import opened Wrappers

  // ---------------------------------------------------------------- white space

  /** Characters that strip() removes and \s matches. */
  predicate IsSpace(c: char) {
    var n := c as int;
    || 0x09 <= n <= 0x0D || 0x1C <= n <= 0x20 || n == 0x85 || n == 0xA0 || n == 0x1680
    || 0x2000 <= n <= 0x200A || n == 0x2028 || n == 0x2029 || n == 0x202F || n == 0x205F || n == 0x3000
  }

  function LStrip(s: string): string {
    if s != [] && IsSpace(s[0]) then LStrip(s[1..]) else s
  }

  function RStrip(s: string): string {
    if s != [] && IsSpace(s[|s| - 1]) then RStrip(s[..|s| - 1]) else s
  }

  function Strip(s: string): string { RStrip(LStrip(s)) }

  /** Neither end is white space. */
  predicate Trim(s: string) {
    s != [] ==> !IsSpace(s[0]) && !IsSpace(s[|s| - 1])
  }

  lemma {:induction false} RStripTrims(s: string)
    ensures RStrip(s) <= s
    ensures RStrip(s) != [] ==> !IsSpace(RStrip(s)[|RStrip(s)| - 1])
    ensures s != [] && !IsSpace(s[0]) ==> RStrip(s) != [] && RStrip(s)[0] == s[0]
  {
    if s != [] && IsSpace(s[|s| - 1]) {
      RStripTrims(s[..|s| - 1]);
    }
  }

  lemma {:induction false} LStripTrims(s: string)
    ensures LStrip(s) != [] ==> !IsSpace(LStrip(s)[0])
    ensures exists k :: 0 <= k <= |s| && LStrip(s) == s[k..]
  {
    if s != [] && IsSpace(s[0]) {
      LStripTrims(s[1..]);
      var k :| 0 <= k <= |s[1..]| && LStrip(s[1..]) == s[1..][k..];
      assert s[1..][k..] == s[k + 1..];
    } else {
      assert s == s[0..];
    }
  }

  lemma StripTrims(s: string)
    ensures Trim(Strip(s))
  {
    LStripTrims(s);
    RStripTrims(LStrip(s));
  }

  /** Padding a trimmed text with single spaces and stripping gives it back. */
  lemma StripPadded(t: string)
    requires t != [] && Trim(t)
    ensures Strip(" " + t + " ") == t
  {
    var p := " " + t + " ";
    assert p[1..] == t + " ";
    assert LStrip(p) == LStrip(t + " ") == t + " ";
    assert (t + " ")[..|t|] == t;
    assert RStrip(t + " ") == RStrip(t) == t;
  }

  // ---------------------------------------------------------------- cells

  /** Cut at every pipe that no backslash precedes; `escaped` tells what precedes s. */
  function Cells(s: string, escaped: bool): (cells: seq<string>)
    ensures cells != []
    decreases |s|
  {
    if s == [] then [""]
    else if s[0] == '|' && !escaped then [""] + Cells(s[1..], false)
    else
      var rest := Cells(s[1..], s[0] == '\\');
      [[s[0]] + rest[0]] + rest[1..]
  }

  function Join(cells: seq<string>): string
    requires cells != []
  {
    if |cells| == 1 then cells[0] else cells[0] + "|" + Join(cells[1..])
  }

  /** No pipe in s cuts it, read from an unescaped start. */
  predicate Whole(s: string) { Cells(s, false) == [s] }

  predicate EndsInBackslash(s: string) { s != [] && s[|s| - 1] == '\\' }

  /** Cells that survive joining and cutting again. */
  predicate Proper(cells: seq<string>) {
    && cells != []
    && (forall i :: 0 <= i < |cells| ==> Whole(cells[i]))
    && (forall i :: 0 <= i < |cells| - 1 ==> !EndsInBackslash(cells[i]))
  }

  /** Cutting "s|t" where nothing cuts s: first s, then the cells of t. */
  lemma {:induction false} CellsAppend(s: string, t: string, escaped: bool)
    requires Cells(s, escaped) == [s] && !EndsInBackslash(s) && (s == [] ==> !escaped)
    ensures Cells(s + "|" + t, escaped) == [s] + Cells(t, false)
    decreases |s|
  {
    if s == [] {
      assert ("" + "|" + t)[1..] == t;
    } else {
      WholeTail(s, escaped);
      assert (s + "|" + t)[1..] == s[1..] + "|" + t;
      CellsAppend(s[1..], t, s[0] == '\\');
      assert [s[0]] + s[1..] == s;
    }
  }

  lemma WholeTail(s: string, escaped: bool)
    requires s != [] && Cells(s, escaped) == [s]
    ensures Cells(s[1..], s[0] == '\\') == [s[1..]] && (s[0] == '|' ==> escaped)
  {
    if s[0] != '|' || escaped {
      var rest := Cells(s[1..], s[0] == '\\');
      var cut := [[s[0]] + rest[0]] + rest[1..];
      assert cut == [s] && |cut| == |rest|;
      assert cut[0][1..] == rest[0];
      assert rest == [rest[0]];
    }
  }

  lemma {:induction false} CellsOfJoin(cells: seq<string>)
    requires Proper(cells)
    ensures Cells(Join(cells), false) == cells
  {
    ProperTail(cells);
    hide Cells, EndsInBackslash;
    if |cells| > 1 {
      CellsAppend(cells[0], Join(cells[1..]), false);
      CellsOfJoin(cells[1..]);
    }
  }

  lemma ProperTail(cells: seq<string>)
    requires Proper(cells)
    ensures Whole(cells[0])
    ensures |cells| > 1 ==> !EndsInBackslash(cells[0]) && Proper(cells[1..])
  {
    hide Whole, EndsInBackslash;
  }

  lemma {:induction false} JoinOfCells(s: string, escaped: bool)
    ensures Join(Cells(s, escaped)) == s
    decreases |s|
  {
    if s == [] {
    } else if s[0] == '|' && !escaped {
      JoinOfCells(s[1..], false);
      JoinOnto("", Cells(s[1..], false));
      assert "" + "|" + s[1..] == s;
    } else {
      var rest := Cells(s[1..], s[0] == '\\');
      JoinOfCells(s[1..], s[0] == '\\');
      JoinAhead(s[0], rest);
      assert [s[0]] + s[1..] == s;
    }
  }

  lemma JoinOnto(a: string, rest: seq<string>)
    requires rest != []
    ensures Join([a] + rest) == a + "|" + Join(rest)
  {
    assert ([a] + rest)[1..] == rest;
  }

  /** A character in front of the first cell is one in front of the text. */
  lemma JoinAhead(c: char, cells: seq<string>)
    requires cells != []
    ensures Join([[c] + cells[0]] + cells[1..]) == [c] + Join(cells)
  {
    assert ([[c] + cells[0]] + cells[1..])[1..] == cells[1..];
    if |cells| > 1 {
      assert [c] + cells[0] + "|" + Join(cells[1..]) == [c] + (cells[0] + "|" + Join(cells[1..]));
    }
  }

  /** What cutting produces is proper; the first cell is whole from the state it started in. */
  lemma {:induction false} CellsAreProper(s: string, escaped: bool)
    ensures var c := Cells(s, escaped);
      && Cells(c[0], escaped) == [c[0]]
      && (|c| > 1 ==> !EndsInBackslash(c[0]) && (c[0] == [] ==> !escaped) && Proper(c[1..]))
    decreases |s|
  {
    if s == [] {
    } else if s[0] == '|' && !escaped {
      CellsAreProper(s[1..], false);
      ProperFromHead(Cells(s[1..], false));
      assert Cells(s, escaped)[1..] == Cells(s[1..], false);
    } else {
      var rest := Cells(s[1..], s[0] == '\\');
      CellsAreProper(s[1..], s[0] == '\\');
      var head := [s[0]] + rest[0];
      assert head[1..] == rest[0];
      assert Cells(s, escaped)[1..] == rest[1..];
      if |rest| > 1 && rest[0] != [] {
        assert head[|head| - 1] == rest[0][|rest[0]| - 1];
      }
    }
  }

  lemma ProperFromHead(c: seq<string>)
    requires c != [] && Whole(c[0]) && (|c| > 1 ==> !EndsInBackslash(c[0]) && Proper(c[1..]))
    ensures Proper(c)
  {
    forall i | 0 <= i < |c|
      ensures Whole(c[i]) && (i < |c| - 1 ==> !EndsInBackslash(c[i]))
    {
      if i > 0 {
        assert c[i] == c[1..][i - 1];
      }
    }
  }

  lemma LineCellsAreProper(line: string)
    ensures Proper(Cells(line, false))
  {
    CellsAreProper(line, false);
    ProperFromHead(Cells(line, false));
  }

  /** Two whole pieces make a whole one when the first does not end in a backslash. */
  lemma {:induction false} WholeConcat(a: string, b: string, escaped: bool)
    requires Cells(a, escaped) == [a] && Whole(b) && !EndsInBackslash(a) && (a == [] ==> !escaped)
    ensures Cells(a + b, escaped) == [a + b]
    decreases |a|
  {
    if a == [] {
      assert a + b == b;
    } else {
      WholeTail(a, escaped);
      assert (a + b)[1..] == a[1..] + b;
      WholeConcat(a[1..], b, a[0] == '\\');
      assert [a[0]] + (a[1..] + b) == a + b;
    }
  }

  /** A suffix that does not start with a pipe is whole if the text is. */
  lemma {:induction false} WholeSuffix(s: string, escaped: bool, k: nat)
    requires Cells(s, escaped) == [s] && k < |s| && s[k] != '|'
    ensures Whole(s[k..])
    decreases k
  {
    WholeTail(s, escaped);
    if k == 0 {
      assert s[0..] == s && [s[0]] + s[1..] == s;
    } else {
      WholeSuffix(s[1..], s[0] == '\\', k - 1);
      assert s[1..][k - 1..] == s[k..];
    }
  }

  lemma WholeSpace()
    ensures Whole(" ") && !EndsInBackslash(" ")
  {
    PlainIsWhole(" ", false);
  }

  // ---------------------------------------------------------------- key rows

  predicate IsKeyChar(c: char) {
    'A' <= c <= 'Z' || 'a' <= c <= 'z' || '0' <= c <= '9' || c == '_' || c == '.'
  }

  predicate IsKey(s: string) { s != [] && forall i :: 0 <= i < |s| ==> IsKeyChar(s[i]) }

  /** How many key characters s starts with. */
  function KeyLength(s: string): (n: nat)
    ensures n <= |s| && (forall i :: 0 <= i < n ==> IsKeyChar(s[i])) && (n < |s| ==> !IsKeyChar(s[n]))
  {
    if s == [] || !IsKeyChar(s[0]) then 0
    else
      var n := KeyLength(s[1..]);
      assert forall i :: 1 <= i < n + 1 ==> s[i] == s[1..][i - 1];
      n + 1
  }

  predicate StartsWith(s: string, p: string) { p <= s }

  /** The key of a row "| `key` | ...". */
  function RowKey(line: string): Option<string> {
    if !StartsWith(line, "| `") then None
    else
      var n := KeyLength(line[3..]);
      if n > 0 && StartsWith(line[3 + n..], "` |") then Some(line[3..3 + n]) else None
  }

  function RowStart(key: string): string { "| `" + key + "` |" }

  function KeyCell(key: string): string { " `" + key + "` " }

  /** A line is the row of a key exactly when it starts like one. */
  lemma RowKeyIsPrefix(line: string, key: string)
    requires IsKey(key)
    ensures RowKey(line) == Some(key) <==> StartsWith(line, RowStart(key))
  {
    if RowKey(line) == Some(key) {
      assert line[..3] == "| `" && line[3 + |key|..][..3] == "` |";
      assert line == line[..3] + line[3..3 + |key|] + line[3 + |key|..];
      assert line[..6 + |key|] == RowStart(key);
    }
    if StartsWith(line, RowStart(key)) {
      assert line[..3] == RowStart(key)[..3] == "| `";
      var n := KeyLength(line[3..]);
      assert forall i :: 0 <= i < |key| ==> line[3..][i] == RowStart(key)[3 + i] == key[i];
      assert line[3..][|key|] == RowStart(key)[3 + |key|] == '`';
      assert n == |key|;
      assert line[3..3 + n] == key;
      assert line[3 + n..][..3] == RowStart(key)[3 + n..] == "` |";
    }
  }

  lemma RowKeyIsKey(line: string)
    requires RowKey(line).Some?
    ensures IsKey(RowKey(line).value)
  {
    var n := KeyLength(line[3..]);
    assert forall i :: 0 <= i < n ==> line[3..3 + n][i] == line[3..][i];
  }

  lemma {:induction false} PlainIsWhole(s: string, escaped: bool)
    requires forall i :: 0 <= i < |s| ==> s[i] != '|' && s[i] != '\\'
    ensures Cells(s, escaped) == [s] && !EndsInBackslash(s)
  {
    if s != [] {
      PlainIsWhole(s[1..], false);
      assert [s[0]] + s[1..] == s;
    }
  }

  /** A cell without pipes and backslashes in front of the rest of a line. */
  lemma PlainCell(s: string, t: string)
    requires forall i :: 0 <= i < |s| ==> s[i] != '|' && s[i] != '\\'
    ensures Cells(s + "|" + t, false) == [s] + Cells(t, false)
  {
    PlainIsWhole(s, false);
    CellsAppend(s, t, false);
  }

  lemma KeyCellIsWhole(key: string)
    requires IsKey(key)
    ensures Whole(KeyCell(key)) && !EndsInBackslash(KeyCell(key))
  {
    forall i | 0 <= i < |KeyCell(key)|
      ensures KeyCell(key)[i] != '|' && KeyCell(key)[i] != '\\'
    {
      if 2 <= i < 2 + |key| {
        assert KeyCell(key)[i] == key[i - 2] && IsKeyChar(key[i - 2]);
      }
    }
    PlainIsWhole(KeyCell(key), false);
  }

  /** The first two cells of a row, and that there are more. */
  lemma RowCells(line: string, key: string)
    requires IsKey(key) && RowKey(line) == Some(key)
    ensures var c := Cells(line, false); |c| >= 3 && c[0] == "" && c[1] == KeyCell(key)
  {
    RowKeyIsPrefix(line, key);
    var rest := line[|RowStart(key)|..];
    assert line == RowStart(key) + rest;
    assert line == "" + "|" + (KeyCell(key) + "|" + rest);
    PlainIsWhole("", false);
    CellsAppend("", KeyCell(key) + "|" + rest, false);
    KeyCellIsWhole(key);
    CellsAppend(KeyCell(key), rest, false);
  }

  /** Joined cells that start like a row are that row. */
  lemma JoinedRow(cells: seq<string>, key: string)
    requires IsKey(key) && |cells| >= 3 && cells[0] == "" && cells[1] == KeyCell(key)
    ensures RowKey(Join(cells)) == Some(key)
  {
    hide RowKey, IsKey;
    var rest := Join(cells[2..]);
    assert cells[1..][1..] == cells[2..];
    assert Join(cells[1..]) == KeyCell(key) + "|" + rest;
    assert Join(cells) == "" + "|" + (KeyCell(key) + "|" + rest);
    RowStartText(key, rest);
    RowKeyIsPrefix(Join(cells), key);
  }

  lemma RowStartText(key: string, rest: string)
    ensures "" + "|" + (KeyCell(key) + "|" + rest) == RowStart(key) + rest
    ensures StartsWith(RowStart(key) + rest, RowStart(key))
  {
  }

  lemma KeyCellIsNotKey(key: string)
    requires IsKey(key)
    ensures Strip(KeyCell(key)) == "`" + key + "`" != "key"
  {
    var t := "`" + key + "`";
    assert KeyCell(key) == " " + t + " ";
    StripPadded(t);
    assert t[0] == '`' && "key"[0] == 'k';
  }

  // ---------------------------------------------------------------- default cells

  /** s starts with white space that leads up to "(" or a dash. */
  predicate OpensNote(s: string) {
    s != [] && IsSpace(s[0]) && |s| > 1 && (s[1] == '(' || s[1] == '\U{2014}' || OpensNote(s[1..]))
  }

  /** The hand-written note: from the first place where a note opens. */
  function Note(cell: string): string {
    if cell == [] then "" else if OpensNote(cell) then cell else Note(cell[1..])
  }

  /** From k on: white space up to an opening parenthesis or a dash at m. */
  predicate OpenerAt(s: string, k: int, m: int) {
    0 <= k < m < |s| && (s[m] == '(' || s[m] == '\U{2014}') && forall j :: k <= j < m ==> IsSpace(s[j])
  }

  lemma {:induction false} OpensIff(s: string)
    ensures OpensNote(s) <==> exists m :: OpenerAt(s, 0, m)
  {
    if |s| > 1 && IsSpace(s[0]) {
      OpensIff(s[1..]);
      if OpensNote(s[1..]) {
        var m :| OpenerAt(s[1..], 0, m);
        assert forall j :: 1 <= j < m + 1 ==> s[j] == s[1..][j - 1];
        assert OpenerAt(s, 0, m + 1);
      }
      if s[1] == '(' || s[1] == '\U{2014}' {
        assert OpenerAt(s, 0, 1);
      }
      if m :| OpenerAt(s, 0, m) {
        if m > 1 {
          assert forall j :: 0 <= j < m - 1 ==> s[1..][j] == s[j + 1];
          assert OpenerAt(s[1..], 0, m - 1);
        }
      }
    }
  }

  /** A note opens at k. */
  ghost predicate NoteAt(s: string, k: nat) { exists m :: OpenerAt(s, k, m) }

  lemma NoteAtTail(s: string, k: nat)
    requires s != []
    ensures NoteAt(s, k + 1) <==> NoteAt(s[1..], k)
  {
    var next := k + 1;
    if m :| OpenerAt(s, next, m) {
      assert forall j :: k <= j < m - 1 ==> s[1..][j] == s[j + 1];
      assert OpenerAt(s[1..], k, m - 1);
    }
    if m :| OpenerAt(s[1..], k, m) {
      assert forall j :: k + 1 <= j < m + 1 ==> s[j] == s[1..][j - 1];
      assert OpenerAt(s, k + 1, m + 1);
    }
  }

  /** The note is everything from the first place where one opens, and nothing if none does. */
  lemma {:induction false} NoteIsFirst(s: string)
    ensures forall k: nat :: NoteAt(s, k) ==> Note(s) != ""
    ensures Note(s) != "" ==>
      exists k: nat :: k < |s| && NoteAt(s, k) && Note(s) == s[k..] && forall j: nat :: j < k ==> !NoteAt(s, j)
  {
    hide NoteAt;
    if s != [] {
      NoteIsFirst(s[1..]);
      OpensIff(s);
      NoteAtStart(s);
      forall k: nat
        ensures NoteAt(s, k + 1) <==> NoteAt(s[1..], k)
      {
        NoteAtTail(s, k);
      }
      assert forall k: nat :: NoteAt(s, k) ==> k == 0 || NoteAt(s[1..], k - 1);
      if OpensNote(s) {
        assert s[0..] == s;
      } else if Note(s) != "" {
        var k: nat :| k < |s[1..]| && NoteAt(s[1..], k) && Note(s[1..]) == s[1..][k..]
                      && forall j: nat :: j < k ==> !NoteAt(s[1..], j);
        assert s[1..][k..] == s[k + 1..] && NoteAt(s, k + 1);
      }
    } else {
      NoneAtEnd();
    }
  }

  lemma NoteAtStart(s: string)
    ensures NoteAt(s, 0) <==> exists m :: OpenerAt(s, 0, m)
  {
  }

  lemma NoneAtEnd()
    ensures forall k: nat :: !NoteAt("", k)
  {
  }

  lemma {:induction false} NoteIsSuffix(s: string)
    ensures Note(s) == "" || OpensNote(Note(s))
    ensures exists k :: 0 <= k <= |s| && Note(s) == s[k..]
  {
    if s == [] {
      assert s[0..] == "";
    } else if OpensNote(s) {
      assert s[0..] == s;
    } else {
      NoteIsSuffix(s[1..]);
      var k :| 0 <= k <= |s[1..]| && Note(s[1..]) == s[1..][k..];
      assert s[1..][k..] == s[k + 1..];
    }
  }

  /** Text after a part that ends in no white space does not change where notes open in it. */
  lemma {:induction false} OpensInside(s: string, t: string)
    requires s != [] && !IsSpace(s[|s| - 1])
    ensures OpensNote(s + t) <==> OpensNote(s)
  {
    if |s| > 1 {
      assert (s + t)[1..] == s[1..] + t;
      OpensInside(s[1..], t);
    }
  }

  /** A head without a note opener keeps the note that follows it. */
  lemma {:induction false} NoteAfterHead(head: string, note: string)
    requires head != [] && !IsSpace(head[|head| - 1]) && Note(head) == "" && (note == "" || OpensNote(note))
    ensures Note(head + note) == note
  {
    OpensInside(head, note);
    assert (head + note)[1..] == head[1..] + note;
    if |head| == 1 {
      assert head[1..] + note == note;
      if note == [] {
        assert Note(note) == "";
      }
    } else {
      NoteAfterHead(head[1..], note);
    }
  }

  // ---------------------------------------------------------------- lines

  /** text.split("\n") */
  function SplitLines(text: string): (lines: seq<string>)
    ensures lines != []
  {
    if text == [] then [""]
    else
      var rest := SplitLines(text[1..]);
      if text[0] == '\n' then [""] + rest else [[text[0]] + rest[0]] + rest[1..]
  }

  function JoinLines(lines: seq<string>): string {
    if lines == [] then "" else if |lines| == 1 then lines[0] else lines[0] + "\n" + JoinLines(lines[1..])
  }

  predicate OneLine(s: string) { '\n' !in s }

  lemma {:induction false} SplitIsOneLine(text: string)
    ensures forall i :: 0 <= i < |SplitLines(text)| ==> OneLine(SplitLines(text)[i])
  {
    if text != [] {
      SplitIsOneLine(text[1..]);
    }
  }

  lemma {:induction false} SplitAppend(line: string, text: string)
    requires OneLine(line)
    ensures SplitLines(line + "\n" + text) == [line] + SplitLines(text)
    ensures SplitLines(line) == [line]
  {
    if line == [] {
      assert ("" + "\n" + text)[1..] == text;
    } else {
      assert (line + "\n" + text)[1..] == line[1..] + "\n" + text;
      SplitAppend(line[1..], text);
      assert [line[0]] + line[1..] == line;
    }
  }

  lemma {:induction false} SplitOfJoin(lines: seq<string>)
    requires lines != [] && forall i :: 0 <= i < |lines| ==> OneLine(lines[i])
    ensures SplitLines(JoinLines(lines)) == lines
  {
    if |lines| == 1 {
      SplitAppend(lines[0], "");
    } else {
      SplitAppend(lines[0], JoinLines(lines[1..]));
      SplitOfJoin(lines[1..]);
    }
  }

  /** Cutting a text and joining its lines gives it back. */
  lemma {:induction false} JoinOfSplit(text: string)
    ensures JoinLines(SplitLines(text)) == text
  {
    if text != [] {
      JoinOfSplit(text[1..]);
      var rest := SplitLines(text[1..]);
      if text[0] == '\n' {
        assert ([""] + rest)[1..] == rest;
        assert "" + "\n" + text[1..] == text;
      } else {
        var lines := [[text[0]] + rest[0]] + rest[1..];
        assert lines[1..] == rest[1..];
        if |rest| > 1 {
          assert [text[0]] + rest[0] + "\n" + JoinLines(rest[1..]) == [text[0]] + (rest[0] + "\n" + JoinLines(rest[1..]));
        }
        assert [text[0]] + text[1..] == text;
      }
    }
  }
}
