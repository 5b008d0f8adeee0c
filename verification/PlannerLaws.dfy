/** The text side of the planner
    (aret-memory/migration/import_references_70_80_81.py:25, 76-103): which lines are
    headings, and which sections have a body. */
module PlannerLaws {
  import opened Basics
  import opened PythonText
  import opened Planner

  // ---- headings --------------------------------------------------------------------------------

  predicate Title(t: string) { t != "" && !IsSpace(t[|t| - 1]) }

  lemma {:induction false} DropTail(s: string, ws: string) returns (rest: string)
    requires AllSpace(ws) && s != "" && s[|s| - 1] != '\n'
    ensures DropBreaks(s + ws) == s + rest && AllSpace(rest)
    decreases |ws|
  {
    var x := s + ws;
    if ws != "" && ws[|ws| - 1] == '\n' {
      assert x[..|x| - 1] == s + ws[..|ws| - 1];
      rest := DropTail(s, ws[..|ws| - 1]);
    } else {
      rest := ws;
    }
  }

  lemma {:induction false} TitleText(t: string, ws: string)
    requires Title(t) && AllSpace(ws)
    ensures RStrip(t + ws) == t
  {
    RStripSpace(t, ws);
  }

  /** Two or three marks, a space and a title, with any white space after it, make a
      heading of that level and title. */
  lemma {:induction false} MakesHeading(level: int, t: string, ws: string)
    requires (level == 2 || level == 3) && Title(t) && AllSpace(ws)
    ensures HeadingTitle((if level == 2 then "## " else "### ") + t + ws) == Some((level, t))
  {
    var m := if level == 2 then "## " else "### ";
    assert t[|t| - 1] != '\n' by { assert IsSpace('\n'); }
    var rest := DropTail(m + t, ws);
    var s := m + t + rest;
    assert s[..2] == "##" && s[level] == ' ';
    assert |s| >= 3 && s[..3] == (if level == 3 then "###" else "## ");
    assert s[level + 1..] == t + rest;
    TitleText(t, rest);
  }

  /** Nothing else does: a heading line starts with exactly two or three marks and a
      space. */
  lemma {:induction false} OnlyHeadings(line: string)
    requires HeadingTitle(line).Some?
    ensures var (level, t) := HeadingTitle(line).value;
            (level == 2 && "## " <= line) || (level == 3 && "### " <= line)
  {
    DropPrefix(line);
  }

  lemma {:induction false} DropPrefix(s: string)
    ensures DropBreaks(s) <= s
    decreases |s|
  {
    if s != "" && s[|s| - 1] == '\n' { DropPrefix(s[..|s| - 1]); }
  }

  // ---- bodies -----------------------------------------------------------------------------------------

  /** A heading line alone is no section. */
  lemma {:induction false} BareHeadingDropped(lines: seq<string>, s: Section, ws: string)
    requires 1 <= s.start == s.end <= |lines| && (s.level == 2 || s.level == 3) && Title(s.title) && AllSpace(ws)
    requires lines[s.start - 1] == (if s.level == 2 then "## " else "### ") + s.title + ws
    ensures !KeepSection(lines, s)
  {
    var m := (if s.level == 2 then "## " else "### ") + s.title;
    OneLine(lines, s.start);
    assert m[|m| - 1] == s.title[|s.title| - 1] && s.title[|s.title| - 1] != '\n' by { assert IsSpace('\n'); }
    var rest := DropTail(m, ws);
    assert "" + m + rest == m + rest;
    StripMeaning("", m, rest);
    assert m == Marks(s.level) + " " + s.title;
  }

  lemma {:induction false} OneLine(lines: seq<string>, l: int)
    requires 1 <= l <= |lines|
    ensures Join(lines[l - 1..l]) == lines[l - 1]
  {
    var x := lines[l - 1..l];
    assert x == [lines[l - 1]] && x[1..] == [];
    assert Join([]) == "";
    assert lines[l - 1] + "" == lines[l - 1];
  }

  /** A section with a further line that is not blank is kept. */
  lemma {:induction false} BodyKept(lines: seq<string>, s: Section)
    requires 1 <= s.start < s.end <= |lines| && !BlankAt(lines, s.start) && !BlankAt(lines, s.end)
    requires '\n' !in s.title && lines[s.start - 1] != "" && lines[s.start - 1][|lines[s.start - 1]| - 1] == '\n'
    ensures KeepSection(lines, s)
  {
    var first, last := lines[s.start - 1], lines[s.end - 1];
    var mid := Join(lines[s.start..s.end - 1]);
    JoinEnds(lines, s.start, s.end);
    NotBlank(first);
    NotBlank(last);
    DropNonBlank(first + mid, last);
    var end := DropBreaks(last);
    assert first + mid + end == first + (mid + end);
    LStripNonBlank(first, mid + end);
    var head := LStrip(first);
    assert head + (mid + end) == (head + mid) + end;
    RStripNonBlank(head + mid, end);
    var content := Strip(DropBreaks(first + mid + last));
    assert content[|head| - 1] == '\n';
    assert '\n' !in Marks(s.level) + " " + s.title;
  }

  lemma {:induction false} NotBlank(s: string)
    requires !Blank(s)
    ensures !AllSpace(s)
  {
    hide Strip;
    if AllSpace(s) { AllSpaceStrips(s); }
  }

  lemma {:induction false} JoinEnds(lines: seq<string>, a: int, b: int)
    requires 1 <= a < b <= |lines|
    ensures Join(lines[a - 1..b]) == lines[a - 1] + Join(lines[a..b - 1]) + lines[b - 1]
  {
    var x := lines[a - 1..b];
    assert x[0] == lines[a - 1] && x[1..] == lines[a..b - 1] + [lines[b - 1]];
    JoinLast(lines[a..b - 1], lines[b - 1]);
  }

  lemma {:induction false} JoinLast(ls: seq<string>, l: string)
    ensures Join(ls + [l]) == Join(ls) + l
    decreases |ls|
  {
    if ls == [] {
      assert ls + [l] == [l] && [l][1..] == [];
      assert Join([]) == "";
    } else {
      assert (ls + [l])[0] == ls[0] && (ls + [l])[1..] == ls[1..] + [l];
      JoinLast(ls[1..], l);
    }
  }

  /** Trailing breaks end inside a last part that is not blank. */
  lemma {:induction false} DropNonBlank(a: string, b: string)
    requires !AllSpace(b)
    ensures DropBreaks(a + b) == a + DropBreaks(b) && !AllSpace(DropBreaks(b))
    decreases |b|
  {
    if b[|b| - 1] == '\n' {
      var c := b[..|b| - 1];
      assert (a + b)[..|a + b| - 1] == a + c;
      assert IsSpace('\n');
      DropNonBlank(a, c);
    }
  }

  /** So does stripping from the right, */
  lemma {:induction false} RStripNonBlank(a: string, b: string)
    requires !AllSpace(b)
    ensures RStrip(a + b) == a + RStrip(b)
    decreases |b|
  {
    if IsSpace(b[|b| - 1]) {
      assert (a + b)[..|a + b| - 1] == a + b[..|b| - 1];
      RStripNonBlank(a, b[..|b| - 1]);
    }
  }

  /** and from the left inside a first part that is not blank. */
  lemma {:induction false} LStripNonBlank(a: string, b: string)
    requires !AllSpace(a)
    ensures LStrip(a + b) == LStrip(a) + b
    ensures LStrip(a) != "" && LStrip(a)[|LStrip(a)| - 1] == a[|a| - 1]
    decreases |a|
  {
    assert (a + b)[0] == a[0];
    if IsSpace(a[0]) {
      assert (a + b)[1..] == a[1..] + b;
      LStripNonBlank(a[1..], b);
    }
  }
}
