/** The texts of generated rows: white space becomes single blanks, and pipes are escaped (`_cell`). */
module PageCells {
  import opened PageText
  import opened PageTables
  import opened PageRows

  /** Single blanks only. */
  predicate Spaced(s: string) {
    forall i :: 0 <= i < |s| && IsSpace(s[i]) ==> s[i] == ' ' && (i + 1 < |s| ==> !IsSpace(s[i + 1]))
  }

  /** ... and none at the ends. */
  predicate Tidy(s: string) { Trim(s) && Spaced(s) }

  /** Two texts with a blank between them, unless one is empty. */
  function Glue(a: string, b: string): string {
    if a == "" then b else if b == "" then a else a + " " + b
  }

  lemma GlueAgain(a: string, b: string, c: string)
    ensures Glue(Glue(a, b), c) == Glue(a, Glue(b, c))
  {
    if a != "" && b != "" && c != "" {
      assert (a + " " + b) + " " + c == a + " " + (b + " " + c);
    }
  }

  lemma CollapseSkips(s: string)
    requires s != [] && IsSpace(s[0])
    ensures Collapse(s) == Collapse(s[1..])
  {
  }

  lemma {:induction false} CollapseStripped(s: string)
    ensures Collapse(LStrip(s)) == Collapse(s) && (LStrip(s) == "" <==> Collapse(s) == "")
  {
    if s != [] && IsSpace(s[0]) {
      CollapseStripped(s[1..]);
    }
  }

  lemma {:induction false} WordOfParts(w: string, r: string)
    requires forall i :: 0 <= i < |w| ==> !IsSpace(w[i])
    requires r == "" || IsSpace(r[0])
    ensures Word(w + r) == w
  {
    if w == [] {
      assert w + r == r;
    } else {
      assert (w + r)[1..] == w[1..] + r;
      WordOfParts(w[1..], r);
    }
  }

  /** A word in front of white space or of nothing. */
  lemma CollapseWord(w: string, r: string)
    requires w != "" && forall i :: 0 <= i < |w| ==> !IsSpace(w[i])
    requires r == "" || IsSpace(r[0])
    ensures Collapse(w + r) == Glue(w, Collapse(r))
  {
    assert LStrip(w + r) == w + r;
    WordOfParts(w, r);
    assert (w + r)[|w|..] == r;
    CollapseStripped(r);
  }

  lemma WordRest(s: string)
    requires s != "" && !IsSpace(s[0])
    ensures var w := Word(s); s == w + s[|w|..] && (s[|w|..] == "" || IsSpace(s[|w|..][0]))
  {
    if |s| > 1 {
      assert s == [s[0]] + s[1..];
      if !IsSpace(s[1]) {
        WordRest(s[1..]);
      }
    }
  }

  /** White space in the middle, whatever it is, leaves one blank. */
  lemma {:induction false} CollapseParts(a: string, c: char, b: string)
    requires IsSpace(c)
    ensures Collapse(a + [c] + b) == Glue(Collapse(a), Collapse(b))
    decreases |a|
  {
    hide Collapse;
    if a == "" {
      assert (a + [c] + b)[1..] == b;
      CollapseSkips(a + [c] + b);
      CollapseStripped("");
    } else if IsSpace(a[0]) {
      assert (a + [c] + b)[1..] == a[1..] + [c] + b;
      CollapseSkips(a + [c] + b);
      CollapseSkips(a);
      CollapseParts(a[1..], c, b);
    } else {
      var w := Word(a);
      var r := a[|w|..];
      WordRest(a);
      CollapseWord(w, r);
      assert a + [c] + b == w + (r + [c] + b);
      CollapseWord(w, r + [c] + b);
      CollapseParts(r, c, b);
      GlueAgain(w, Collapse(r), Collapse(b));
    }
  }

  lemma {:induction false} CollapseIsTidy(s: string)
    ensures Tidy(Collapse(s))
    decreases |s|
  {
    if s != "" {
      if IsSpace(s[0]) {
        CollapseSkips(s);
        CollapseIsTidy(s[1..]);
      } else {
        var w := Word(s);
        var r := s[|w|..];
        WordRest(s);
        CollapseWord(w, r);
        CollapseIsTidy(r);
        GlueIsTidy(w, Collapse(r));
      }
    }
  }

  lemma GlueIsTidy(w: string, t: string)
    requires w != "" && (forall i :: 0 <= i < |w| ==> !IsSpace(w[i])) && Tidy(t)
    ensures Tidy(Glue(w, t))
  {
    var g := Glue(w, t);
    if t != "" {
      forall i | 0 <= i < |g| && IsSpace(g[i])
        ensures g[i] == ' ' && (i + 1 < |g| ==> !IsSpace(g[i + 1]))
      {
        if i > |w| {
          assert g[i] == t[i - |w| - 1];
          assert i + 1 < |g| ==> g[i + 1] == t[i - |w|];
        } else {
          assert i == |w| && g[i + 1] == t[0];
        }
      }
      assert g[|g| - 1] == t[|t| - 1];
    }
  }

  lemma TidyTail(s: string, k: nat)
    requires Tidy(s) && k < |s| && IsSpace(s[k])
    ensures s[k] == ' ' && k + 1 < |s| && Tidy(s[k + 1..])
  {
    var t := s[k + 1..];
    assert t[|t| - 1] == s[|s| - 1] && t[0] == s[k + 1];
    assert forall i :: 0 <= i < |t| ==> t[i] == s[k + 1 + i];
  }

  lemma {:induction false} TidyStays(s: string)
    requires Tidy(s)
    ensures Collapse(s) == s
    decreases |s|
  {
    hide Collapse, Spaced;
    if s != "" {
      var w := Word(s);
      var r := s[|w|..];
      WordRest(s);
      CollapseWord(w, r);
      if r != "" {
        TidyTail(s, |w|);
        var t := r[1..];
        assert t == s[|w| + 1..];
        TidyStays(t);
        CollapseSkips(r);
        assert s == w + " " + t;
      }
    }
    CollapseStripped("");
  }

  /** The cells of a text with escaped pipes between them. */
  function JoinEscaped(cells: seq<string>): string
    requires cells != []
  {
    if |cells| == 1 then cells[0] else cells[0] + "\\|" + JoinEscaped(cells[1..])
  }

  /** Escaping puts a backslash before exactly the pipes that would cut the text. */
  lemma {:induction false} EscapedPieces(s: string, escaped: bool)
    ensures EscapePipes(s, escaped) == JoinEscaped(Cells(s, escaped))
    decreases |s|
  {
    if s == [] {
    } else if s[0] == '|' && !escaped {
      EscapedPieces(s[1..], false);
      var rest := Cells(s[1..], false);
      assert ([""] + rest)[1..] == rest;
      assert "" + "\\|" + JoinEscaped(rest) == "\\|" + JoinEscaped(rest);
    } else {
      EscapedPieces(s[1..], s[0] == '\\');
      var rest := Cells(s[1..], s[0] == '\\');
      var cells := [[s[0]] + rest[0]] + rest[1..];
      assert cells[1..] == rest[1..];
      if |rest| > 1 {
        assert [s[0]] + rest[0] + "\\|" + JoinEscaped(rest[1..]) == [s[0]] + (rest[0] + "\\|" + JoinEscaped(rest[1..]));
      }
    }
  }

  /** A text is written as it is exactly when it is tidy and no pipe would cut it. */
  lemma CellTextIsText(t: string)
    ensures CellText(t) == t <==> Tidy(t) && Whole(t)
  {
    hide Collapse, EscapePipes, Cells;
    EscapedIsWhole(Collapse(t), false);
    CollapseIsTidy(t);
    EscapedSpaces(Collapse(t), false);
    if Tidy(t) && Whole(t) {
      TidyStays(t);
      EscapedPieces(t, false);
    }
  }

  /** A text with the same white space at its ends, and none but single blanks if the first has no other. */
  predicate SameSpaces(s: string, t: string) {
    && (Spaced(s) ==> Spaced(t)) && (s == "" <==> t == "")
    && (s != "" ==> (IsSpace(t[0]) <==> IsSpace(s[0])) && (IsSpace(t[|t| - 1]) <==> IsSpace(s[|s| - 1])))
  }

  lemma SpacedAhead(c: char, s: string)
    ensures Spaced([c] + s) <==> Spaced(s) && (IsSpace(c) ==> c == ' ' && (s != "" ==> !IsSpace(s[0])))
  {
    if Spaced([c] + s) {
      assert forall i :: 0 <= i < |s| ==> s[i] == ([c] + s)[1 + i];
      assert ([c] + s)[0] == c;
    }
  }

  lemma SameAhead(c: char, s: string, t: string)
    requires SameSpaces(s, t)
    ensures SameSpaces([c] + s, [c] + t)
  {
    SpacedAhead(c, s);
    SpacedAhead(c, t);
    hide Spaced;
  }

  lemma BackslashAhead(s: string, t: string)
    requires SameSpaces(s, t) && t != "" && !IsSpace(t[0])
    ensures SameSpaces(s, ['\\'] + t)
  {
    SpacedAhead('\\', t);
    hide Spaced;
  }

  lemma NoSpaces()
    ensures SameSpaces("", "")
  {
  }

  lemma {:induction false} EscapedSpaces(s: string, escaped: bool)
    ensures SameSpaces(s, EscapePipes(s, escaped))
    decreases |s|
  {
    hide SameSpaces;
    if s == "" {
      NoSpaces();
    } else {
      var t := EscapePipes(s[1..], s[0] == '\\');
      EscapedSpaces(s[1..], s[0] == '\\');
      SameAhead(s[0], s[1..], t);
      assert [s[0]] + s[1..] == s;
      if s[0] == '|' && !escaped {
        BackslashAhead(s, [s[0]] + t);
        assert ['\\'] + ([s[0]] + t) == "\\|" + t;
      }
    }
  }

  lemma {:induction false} EscapeTwoParts(a: string, b: string, escaped: bool)
    requires a == "" ==> !escaped
    requires !EndsInBackslash(a)
    ensures EscapePipes(a + b, escaped) == EscapePipes(a, escaped) + EscapePipes(b, false)
    decreases |a|
  {
    if a == "" {
      assert a + b == b;
    } else {
      assert (a + b)[1..] == a[1..] + b;
      EscapeTwoParts(a[1..], b, a[0] == '\\');
    }
  }

  lemma {:induction false} EscapeThenBlank(a: string, escaped: bool)
    ensures EscapePipes(a + " ", escaped) == EscapePipes(a, escaped) + " "
    decreases |a|
  {
    if a == "" {
      assert (a + " ")[1..] == "";
    } else {
      assert (a + " ")[1..] == a[1..] + " ";
      EscapeThenBlank(a[1..], a[0] == '\\');
    }
  }

  /** Texts on both sides of a blank are written one after the other. */
  lemma CellTextOfParts(a: string, b: string)
    ensures CellText(a + " " + b) == Glue(CellText(a), CellText(b))
  {
    hide Collapse, EscapePipes;
    var x, y := Collapse(a), Collapse(b);
    CollapseParts(a, ' ', b);
    EscapedSpaces(x, false);
    EscapedSpaces(y, false);
    if x != "" && y != "" {
      EscapeTwoParts(x + " ", y, false);
      EscapeThenBlank(x, false);
    }
  }
}
