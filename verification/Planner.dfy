/** The migration planner of
    aret-memory/migration/import_references_70_80_81.py: `raw_sections`,
    `fragment` and `parse_for_store`. Line numbers are 1-based, as in the source. */
module Planner {
  import opened Basics
  import opened PythonText

  datatype Heading = Heading(line: int, level: int, title: string)

  /** A section, or a fragment of one (`part` of `parts`, counted before empty
      fragments are dropped). */
  datatype Section = Section(start: int, end: int, level: int, title: string, part: nat, parts: nat)

  type Range = (int, int)

  // ---- lines ---------------------------------------------------------------------------

  predicate Blank(line: string) { Strip(line) == "" }

  /** Neither blank nor a horizontal rule (`is_substantive`). */
  predicate Substantive(line: string) { Strip(line) !in {"", "---", "***", "___"} }

  /** Line `l` of the document is blank / substantive. */
  predicate BlankAt(lines: seq<string>, l: int)
    requires 1 <= l <= |lines|
  {
    Blank(lines[l - 1])
  }

  predicate SubstantiveAt(lines: seq<string>, l: int)
    requires 1 <= l <= |lines|
  {
    Substantive(lines[l - 1])
  }

  function DropBreaks(s: string): string {
    if s != "" && s[|s| - 1] == '\n' then DropBreaks(s[..|s| - 1]) else s
  }

  /** The heading pattern: two or three marks, a space, a non-empty title without
      its trailing white space (one character of it when there is nothing else). */
  function HeadingTitle(line: string): Option<(int, string)> {
    var s := DropBreaks(line);
    var level := if |s| >= 3 && s[..3] == "###" then 3 else 2;
    if |s| <= level + 1 || s[..2] != "##" || s[level] != ' ' then None
    else
      var rest := s[level + 1..];
      Some((level, if RStrip(rest) == "" then rest[..1] else RStrip(rest)))
  }

  function Join(lines: seq<string>): string { if lines == [] then "" else lines[0] + Join(lines[1..]) }

  function Marks(level: int): string { if level == 3 then "###" else "##" }

  /** Sections with nothing but their heading are not kept. */
  predicate HasBody(lines: seq<string>, start: int, end: int, level: int, title: string)
    requires 1 <= start && end <= |lines|
  {
    var content := Strip(DropBreaks(if start <= end then Join(lines[start - 1..end]) else ""));
    content != "" && content != Marks(level) + " " + title
  }

  // ---- sections -------------------------------------------------------------------------

  /** Headings in order, levels 2 and 3 only, all inside the document. */
  ghost predicate Ordered(hs: seq<Heading>, n: int) {
    && (forall i :: 0 <= i < |hs| ==> 1 <= hs[i].line <= n && (hs[i].level == 2 || hs[i].level == 3))
    && (forall i, j :: 0 <= i < j < |hs| ==> hs[i].line < hs[j].line)
  }

  ghost predicate IsHeading(lines: seq<string>, h: Heading) {
    1 <= h.line <= |lines| && HeadingTitle(lines[h.line - 1]) == Some((h.level, h.title))
  }

  /** Exactly the headings of the document. */
  ghost predicate HeadingsOf(lines: seq<string>, hs: seq<Heading>) {
    && Ordered(hs, |lines|)
    && (forall h :: h in hs <==> IsHeading(lines, h))
  }

  method FindHeadings(lines: seq<string>) returns (hs: seq<Heading>)
    ensures HeadingsOf(lines, hs)
  {
    hs := [];
    for k := 0 to |lines|
      invariant Ordered(hs, k)
      invariant forall h :: h in hs <==> IsHeading(lines, h) && h.line <= k
    {
      hide HeadingTitle;
      HeadingLevels(lines[k]);
      var m := HeadingTitle(lines[k]);
      if m.Some? {
        var h := Heading(k + 1, m.value.0, m.value.1);
        assert IsHeading(lines, h);
        hs := hs + [h];
      }
    }
  }

  lemma {:induction false} HeadingLevels(line: string)
    ensures HeadingTitle(line).Some? ==> HeadingTitle(line).value.0 == 2 || HeadingTitle(line).value.0 == 3
  {}

  /** Up to the line before the next heading, whatever the levels. */
  function RawEnd(hs: seq<Heading>, i: nat, n: int): int
    requires i < |hs|
  {
    if i + 1 < |hs| then hs[i + 1].line - 1 else n
  }

  /** The end of a section as the source computes it, by level: the next level-2
      heading, the first level-3 child before it, or the next heading. */
  method SectionEnd(hs: seq<Heading>, i: nat, n: int) returns (end: int)
    requires i < |hs| && Ordered(hs, n)
    ensures end == RawEnd(hs, i, n)
  {
    if hs[i].level == 2 {
      var j := i + 1;
      while j < |hs| && hs[j].level != 2
        invariant i < j <= |hs| && forall x :: i < x < j ==> hs[x].level == 3
      {
        j := j + 1;
      }
      var nextTwo := if j < |hs| then hs[j].line else n + 1;
      var c := i + 1;
      while c < |hs| && !(hs[c].level == 3 && hs[c].line < nextTwo)
        invariant i < c <= |hs| && forall x :: i < x < c ==> !(hs[x].level == 3 && hs[x].line < nextTwo)
      {
        c := c + 1;
      }
      end := if c < |hs| then hs[c].line - 1 else nextTwo - 1;
    } else {
      var j := NextAtMost(hs, i, hs[i].level);
      end := if j < |hs| then hs[j].line - 1 else n;
    }
  }

  /** The next heading of at most the given level, or the end of the list. */
  method NextAtMost(hs: seq<Heading>, i: nat, level: int) returns (j: nat)
    requires i < |hs|
    ensures i < j <= |hs| && (j < |hs| ==> hs[j].level <= level)
    ensures forall x :: i < x < j ==> hs[x].level > level
  {
    j := i + 1;
    while j < |hs| && hs[j].level > level
      invariant i < j <= |hs| && forall x :: i < x < j ==> hs[x].level > level
    {
      j := j + 1;
    }
  }

  /** Last non-blank line of `[start, end]`, or `start - 1`. */
  function TrimmedEnd(lines: seq<string>, start: int, end: int): (e: int)
    requires 1 <= start && end <= |lines|
    ensures e <= end && (e >= start ==> !BlankAt(lines, e))
    ensures forall l :: e < l <= end && l >= start ==> BlankAt(lines, l)
    decreases end - start
  {
    if end >= start && BlankAt(lines, end) then TrimmedEnd(lines, start, end - 1) else end
  }

  function WholeSection(lines: seq<string>, hs: seq<Heading>, i: nat): (s: Section)
    requires i < |hs| && Ordered(hs, |lines|)
    ensures 1 <= s.start == hs[i].line && s.end <= RawEnd(hs, i, |lines|) <= |lines|
  {
    var h := hs[i];
    Section(h.line, TrimmedEnd(lines, h.line, RawEnd(hs, i, |lines|)), h.level, h.title, 1, 1)
  }

  predicate KeepSection(lines: seq<string>, s: Section)
    requires 1 <= s.start && s.end <= |lines|
  {
    HasBody(lines, s.start, s.end, s.level, s.title)
  }

  /** The kept sections among the first `k` headings, in order. */
  function KeptSections(lines: seq<string>, hs: seq<Heading>, k: nat): seq<Section>
    requires k <= |hs| && Ordered(hs, |lines|)
  {
    if k == 0 then []
    else
      var s := WholeSection(lines, hs, k - 1);
      KeptSections(lines, hs, k - 1) + if KeepSection(lines, s) then [s] else []
  }

  /** Consecutive, pairwise disjoint line ranges inside the document. */
  ghost predicate Consecutive(ss: seq<Section>, n: int) {
    && (forall i :: 0 <= i < |ss| ==> 1 <= ss[i].start && ss[i].end <= n)
    && (forall i, j :: 0 <= i < j < |ss| ==> ss[i].end < ss[j].start)
  }

  lemma {:induction false} SectionsConsecutive(lines: seq<string>, hs: seq<Heading>, k: nat)
    requires k <= |hs| && Ordered(hs, |lines|)
    ensures Consecutive(KeptSections(lines, hs, k), |lines|)
    ensures forall s :: s in KeptSections(lines, hs, k) ==> k > 0 && s.end <= RawEnd(hs, k - 1, |lines|)
  {
    hide KeepSection, TrimmedEnd, WholeSection, Consecutive;
    if k > 0 {
      SectionsConsecutive(lines, hs, k - 1);
      var ss := KeptSections(lines, hs, k - 1);
      var s := WholeSection(lines, hs, k - 1);
      assert k > 1 ==> RawEnd(hs, k - 2, |lines|) < hs[k - 1].line <= RawEnd(hs, k - 1, |lines|) + 1;
      ConsecutiveAppend(ss, s, |lines|);
      assert ss + [] == ss;
    } else {
      NothingConsecutive(|lines|);
    }
  }

  lemma {:induction false} NothingConsecutive(n: int)
    ensures Consecutive([], n)
  {}

  lemma {:induction false} ConsecutiveAppend(ss: seq<Section>, s: Section, n: int)
    requires Consecutive(ss, n) && 1 <= s.start && s.end <= n && forall x :: x in ss ==> x.end < s.start
    ensures Consecutive(ss + [s], n)
  {
    forall i, j | 0 <= i < j < |ss + [s]| ensures (ss + [s])[i].end < (ss + [s])[j].start {
      if j == |ss| { assert ss[i] in ss; }
    }
  }

  /** `raw_sections`; None stands for the error on a document without headings. */
  method RawSections(lines: seq<string>) returns (r: Option<seq<Section>>, ghost hs: seq<Heading>)
    ensures HeadingsOf(lines, hs)
    ensures r == if hs == [] then None else Some(KeptSections(lines, hs, |hs|))
    ensures r.Some? ==> Consecutive(r.value, |lines|)
  {
    hide TrimmedEnd, KeepSection;
    var found := FindHeadings(lines);
    hs := found;
    if found == [] {
      return None, hs;
    }
    var ss: seq<Section> := [];
    for i := 0 to |found|
      invariant ss == KeptSections(lines, found, i)
    {
      var h := found[i];
      var end := SectionEnd(found, i, |lines|);
      end := TrimDown(lines, h.line, end);
      var s := Section(h.line, end, h.level, h.title, 1, 1);
      if KeepSection(lines, s) {
        ss := ss + [s];
      }
    }
    SectionsConsecutive(lines, found, |found|);
    return Some(ss), hs;
  }

  method TrimDown(lines: seq<string>, start: int, end: int) returns (e: int)
    requires 1 <= start && end <= |lines|
    ensures e == TrimmedEnd(lines, start, end)
  {
    e := end;
    while e >= start && BlankAt(lines, e)
      invariant e <= end && TrimmedEnd(lines, start, end) == TrimmedEnd(lines, start, e)
      decreases e
    {
      e := e - 1;
    }
  }

  // ---- fragments ---------------------------------------------------------------------------

  predicate InRange(l: int, r: Range) { r.0 <= l <= r.1 }

  ghost predicate Covered(l: int, rs: seq<Range>) { exists r :: r in rs && InRange(l, r) }

  predicate Before(a: Range, b: Range) { a.0 < b.0 || (a.0 == b.0 && a.1 <= b.1) }

  ghost predicate Sorted(rs: seq<Range>) { forall i, j :: 0 <= i < j < |rs| ==> rs[i].0 <= rs[j].0 }

  function Insert(r: Range, rs: seq<Range>): (out: seq<Range>)
    requires Sorted(rs)
    ensures Sorted(out) && forall x :: x in out <==> x == r || x in rs
  {
    if rs == [] || Before(r, rs[0]) then [r] + rs
    else
      var rest := Insert(r, rs[1..]);
      FrontIsLeast(rs, r, rest);
      [rs[0]] + rest
  }

  lemma {:induction false} FrontIsLeast(rs: seq<Range>, r: Range, rest: seq<Range>)
    requires rs != [] && Sorted(rs) && !Before(r, rs[0]) && Sorted(rest)
    requires forall x :: x in rest <==> x == r || x in rs[1..]
    ensures Sorted([rs[0]] + rest) && forall x :: x in [rs[0]] + rest <==> x == r || x in rs
  {
    forall i | 0 <= i < |rest| ensures rs[0].0 <= rest[i].0 {
      assert rest[i] in rest;
      if rest[i] != r { var k :| 0 <= k < |rs[1..]| && rs[1..][k] == rest[i]; assert rs[k + 1] == rest[i]; }
    }
    assert rs == [rs[0]] + rs[1..];
  }

  /** Python's `sorted` on pairs. */
  function Sort(rs: seq<Range>): (out: seq<Range>)
    ensures Sorted(out) && forall x :: x in out <==> x in rs
  {
    if rs == [] then [] else Insert(rs[0], Sort(rs[1..]))
  }

  /** The occupied ranges that meet the section, clipped to it and sorted. */
  method Clip(sec: Section, occupied: seq<Range>) returns (rs: seq<Range>)
    requires sec.start <= sec.end && forall r :: r in occupied ==> r.0 <= r.1
    ensures Sorted(rs) && forall r :: r in rs ==> sec.start <= r.0 <= r.1 <= sec.end
    ensures forall l :: sec.start <= l <= sec.end ==> (Covered(l, rs) <==> Covered(l, occupied))
  {
    var out: seq<Range> := [];
    for i := 0 to |occupied|
      invariant forall r :: r in out ==> sec.start <= r.0 <= r.1 <= sec.end
      invariant forall l :: sec.start <= l <= sec.end ==> (Covered(l, out) <==> Covered(l, occupied[..i]))
    {
      var r := occupied[i];
      ghost var out0 := out;
      assert occupied[..i + 1] == occupied[..i] + [r];
      if r.1 >= sec.start && r.0 <= sec.end {
        out := out + [(if r.0 < sec.start then sec.start else r.0, if r.1 > sec.end then sec.end else r.1)];
      }
      forall l | sec.start <= l <= sec.end
        ensures Covered(l, out) <==> Covered(l, occupied[..i + 1])
      {
        CoveredAppend(l, occupied[..i], r);
        if out != out0 { CoveredAppend(l, out0, out[|out0|]); }
      }
    }
    assert occupied[..|occupied|] == occupied;
    rs := Sort(out);
  }

  lemma {:induction false} CoveredAppend(l: int, rs: seq<Range>, r: Range)
    ensures Covered(l, rs + [r]) <==> Covered(l, rs) || InRange(l, r)
  {
    if Covered(l, rs) {
      var x :| x in rs && InRange(l, x);
      assert x in rs + [r];
    }
    if InRange(l, r) { assert r in rs + [r]; }
  }

  /** A maximal run of lines of `[lo, hi]` that no range covers. */
  ghost predicate Gap(g: Range, rs: seq<Range>, lo: int, hi: int) {
    && lo <= g.0 <= g.1 <= hi
    && (forall l :: g.0 <= l <= g.1 ==> !Covered(l, rs))
    && (g.0 == lo || Covered(g.0 - 1, rs))
    && (g.1 == hi || Covered(g.1 + 1, rs))
  }

  /** In order, with at least one line between any two. */
  ghost predicate Spread(gs: seq<Range>) { forall i, j :: 0 <= i < j < |gs| ==> gs[i].1 + 1 < gs[j].0 }

  /** The cursor sweep of `fragment`: the uncovered runs of the section. */
  method Gaps(sec: Section, rs: seq<Range>) returns (gs: seq<Range>)
    requires Sorted(rs) && forall r :: r in rs ==> sec.start <= r.0 <= r.1 <= sec.end
    ensures Spread(gs) && forall g :: g in gs ==> Gap(g, rs, sec.start, sec.end)
    ensures forall l :: sec.start <= l <= sec.end && !Covered(l, rs) ==> Covered(l, gs)
  {
    hide Covered, Gap, Spread, Swept;
    gs := [];
    var cursor := sec.start;
    SweepStart(sec.start, sec.end, rs);
    for k := 0 to |rs|
      invariant Swept(sec.start, sec.end, rs[..k], rs[k..], cursor, gs)
    {
      var r := rs[k];
      SweepStep(sec.start, sec.end, rs, k, cursor, gs);
      if r.0 > cursor {
        gs := gs + [(cursor, r.0 - 1)];
      }
      cursor := if cursor > r.1 + 1 then cursor else r.1 + 1;
    }
    SweepEnd(sec.start, sec.end, rs, cursor, gs);
    if cursor <= sec.end {
      gs := gs + [(cursor, sec.end)];
    }
  }

  /** Progress after the ranges `done`, with `ahead` still to come. */
  ghost predicate Swept(lo: int, hi: int, done: seq<Range>, ahead: seq<Range>, cursor: int, gs: seq<Range>) {
    AtEdge(lo, done, cursor) && Found(lo, hi, done, cursor, gs) && Clear(gs, ahead) && Complete(lo, done, cursor, gs)
  }

  /** The cursor is just past the ranges. */
  ghost predicate AtEdge(lo: int, done: seq<Range>, cursor: int) {
    && lo <= cursor
    && (cursor > lo ==> Covered(cursor - 1, done))
    && (forall l :: l >= cursor ==> !Covered(l, done))
  }

  ghost predicate Found(lo: int, hi: int, done: seq<Range>, cursor: int, gs: seq<Range>) {
    Spread(gs) && forall g :: g in gs ==> g.1 + 1 < cursor && Gap(g, done, lo, hi)
  }

  ghost predicate Clear(gs: seq<Range>, ahead: seq<Range>) { forall g, r :: g in gs && r in ahead ==> g.1 < r.0 }

  ghost predicate Complete(lo: int, done: seq<Range>, cursor: int, gs: seq<Range>) {
    forall l :: lo <= l < cursor && !Covered(l, done) ==> Covered(l, gs)
  }

  lemma {:induction false} SpreadAppend(gs: seq<Range>, g: Range)
    requires Spread(gs) && forall x :: x in gs ==> x.1 + 1 < g.0
    ensures Spread(gs + [g])
  {
    forall i, j | 0 <= i < j < |gs + [g]| ensures (gs + [g])[i].1 + 1 < (gs + [g])[j].0 {
      if j == |gs| { assert gs[i] in gs; }
    }
  }

  lemma {:induction false} SweepStart(lo: int, hi: int, rs: seq<Range>)
    ensures Swept(lo, hi, rs[..0], rs[0..], lo, [])
  {}

  function Advance(cursor: int, r: Range): int { if cursor > r.1 + 1 then cursor else r.1 + 1 }

  function Extend(gs: seq<Range>, cursor: int, r: Range): seq<Range> {
    if r.0 > cursor then gs + [(cursor, r.0 - 1)] else gs
  }

  lemma {:induction false} SweepStep(lo: int, hi: int, rs: seq<Range>, k: nat, cursor: int, gs: seq<Range>)
    requires k < |rs| && Sorted(rs) && (forall r :: r in rs ==> lo <= r.0 <= r.1 <= hi)
    requires Swept(lo, hi, rs[..k], rs[k..], cursor, gs)
    ensures Swept(lo, hi, rs[..k + 1], rs[k + 1..], Advance(cursor, rs[k]), Extend(gs, cursor, rs[k]))
  {
    var r := rs[k];
    assert r in rs && r in rs[k..];
    assert rs[..k + 1] == rs[..k] + [r];
    LaterStart(rs, k);
    EdgeStep(lo, rs[..k], r, cursor);
    FoundStep(lo, hi, rs[..k], r, cursor, gs);
    CompleteStep(lo, rs[..k], r, cursor, gs);
    hide AtEdge, Found, Complete;
  }

  lemma {:induction false} EdgeStep(lo: int, done: seq<Range>, r: Range, cursor: int)
    requires AtEdge(lo, done, cursor) && lo <= r.0 <= r.1
    ensures AtEdge(lo, done + [r], Advance(cursor, r))
  {
    forall l ensures Covered(l, done + [r]) <==> Covered(l, done) || InRange(l, r) { CoveredAppend(l, done, r); }
    hide Covered;
  }

  lemma {:induction false} FoundStep(lo: int, hi: int, done: seq<Range>, r: Range, cursor: int, gs: seq<Range>)
    requires AtEdge(lo, done, cursor) && Found(lo, hi, done, cursor, gs) && lo <= r.0 <= r.1 <= hi
    requires forall g :: g in gs ==> g.1 < r.0
    ensures Found(lo, hi, done + [r], Advance(cursor, r), Extend(gs, cursor, r))
  {
    hide Covered, Gap, Spread;
    forall g | g in gs ensures Gap(g, done + [r], lo, hi) { GapGrows(g, done, r, lo, hi); }
    if r.0 > cursor {
      NewGap((cursor, r.0 - 1), done, r, lo, hi);
      SpreadAppend(gs, (cursor, r.0 - 1));
    }
  }

  lemma {:induction false} CompleteStep(lo: int, done: seq<Range>, r: Range, cursor: int, gs: seq<Range>)
    requires Complete(lo, done, cursor, gs)
    ensures Complete(lo, done + [r], Advance(cursor, r), Extend(gs, cursor, r))
  {
    hide Covered;
    forall l | lo <= l < Advance(cursor, r) && !Covered(l, done + [r]) ensures Covered(l, Extend(gs, cursor, r)) {
      CoveredAppend(l, done, r);
      if r.0 > cursor { CoveredAppend(l, gs, (cursor, r.0 - 1)); }
    }
  }

  lemma {:induction false} LaterStart(rs: seq<Range>, k: nat)
    requires k < |rs| && Sorted(rs)
    ensures forall x :: x in rs[k + 1..] ==> x in rs[k..] && rs[k].0 <= x.0
  {
    forall x | x in rs[k + 1..] ensures x in rs[k..] && rs[k].0 <= x.0 {
      var i :| 0 <= i < |rs[k + 1..]| && rs[k + 1..][i] == x;
      assert rs[k + 1 + i] == x && rs[k..][i + 1] == x;
    }
  }

  /** A gap stays one when a range is added beyond it. */
  lemma {:induction false} GapGrows(g: Range, rs: seq<Range>, r: Range, lo: int, hi: int)
    requires Gap(g, rs, lo, hi) && g.1 < r.0
    ensures Gap(g, rs + [r], lo, hi)
  {
    forall l ensures Covered(l, rs + [r]) <==> Covered(l, rs) || InRange(l, r) { CoveredAppend(l, rs, r); }
    hide Covered;
  }

  /** The lines from the cursor up to the next range. */
  lemma {:induction false} NewGap(g: Range, rs: seq<Range>, r: Range, lo: int, hi: int)
    requires lo <= g.0 <= g.1 == r.0 - 1 && r.0 <= r.1 && r.0 <= hi
    requires g.0 > lo ==> Covered(g.0 - 1, rs)
    requires forall l :: l >= g.0 ==> !Covered(l, rs)
    ensures Gap(g, rs + [r], lo, hi)
  {
    forall l ensures Covered(l, rs + [r]) <==> Covered(l, rs) || InRange(l, r) { CoveredAppend(l, rs, r); }
    hide Covered;
  }

  lemma {:induction false} SweepEnd(lo: int, hi: int, rs: seq<Range>, cursor: int, gs: seq<Range>)
    requires Swept(lo, hi, rs[..|rs|], rs[|rs|..], cursor, gs)
    ensures var out := if cursor <= hi then gs + [(cursor, hi)] else gs;
            && Spread(out) && (forall g :: g in out ==> Gap(g, rs, lo, hi))
            && (forall l :: lo <= l <= hi && !Covered(l, rs) ==> Covered(l, out))
  {
    assert rs[..|rs|] == rs;
    hide Covered, Spread;
    if cursor <= hi {
      SpreadAppend(gs, (cursor, hi));
      forall l | lo <= l <= hi && !Covered(l, rs) ensures Covered(l, gs + [(cursor, hi)]) {
        CoveredAppend(l, gs, (cursor, hi));
      }
    }
  }

  /** First non-blank line of `[start, end]`, or `end + 1`. */
  method TrimUp(lines: seq<string>, start: int, end: int) returns (s: int)
    requires 1 <= start && end <= |lines|
    ensures s >= start && (s <= end ==> !BlankAt(lines, s))
    ensures forall l :: start <= l < s && l <= end ==> BlankAt(lines, l)
    ensures start <= end + 1 ==> s <= end + 1
  {
    s := start;
    while s <= end && BlankAt(lines, s)
      invariant start <= s && (start <= end + 1 ==> s <= end + 1)
      invariant forall l :: start <= l < s && l <= end ==> BlankAt(lines, l)
    {
      s := s + 1;
    }
  }

  /** A gap shrunk to its first and last non-blank lines, worth keeping. */
  ghost predicate Trims(f: Section, g: Range, lines: seq<string>) {
    && 1 <= g.0 <= f.start <= f.end <= g.1 <= |lines|
    && (forall l :: g.0 <= l < f.start || f.end < l <= g.1 ==> BlankAt(lines, l))
    && !BlankAt(lines, f.start) && !BlankAt(lines, f.end)
    && (exists l :: f.start <= l <= f.end && SubstantiveAt(lines, l))
  }

  /** Level and title of the section, part numbers rising up to `last` of `parts`. */
  ghost predicate Labelled(sec: Section, last: nat, parts: nat, out: seq<Section>) {
    && (forall f :: f in out ==> f.level == sec.level && f.title == sec.title && 1 <= f.part <= last && f.parts == parts)
    && (forall i, j :: 0 <= i < j < |out| ==> out[i].part < out[j].part)
  }

  lemma {:induction false} NoLabels(sec: Section, parts: nat)
    ensures Labelled(sec, 0, parts, [])
  {}

  lemma {:induction false} LabelNext(sec: Section, last: nat, parts: nat, out: seq<Section>, f: Section)
    requires Labelled(sec, last, parts, out)
    requires f.level == sec.level && f.title == sec.title && f.part == last + 1 && f.parts == parts
    ensures Labelled(sec, last + 1, parts, out) && Labelled(sec, last + 1, parts, out + [f])
  {
    forall i, j | 0 <= i < j < |out + [f]| ensures (out + [f])[i].part < (out + [f])[j].part {
      if j == |out| { assert out[i] in out; }
    }
  }

  /** What `fragment` owes its caller: the fragments are trimmed maximal gaps of the
      section, in order, with its level and title and rising part numbers, and every
      uncovered substantive line is in one of them. */
  ghost predicate Fragments(sec: Section, occupied: seq<Range>, lines: seq<string>, out: seq<Section>)
    requires 1 <= sec.start && sec.end <= |lines|
  {
    && (forall i, j :: 0 <= i < j < |out| ==> out[i].end < out[j].start)
    && (forall f :: f in out ==> exists g :: Gap(g, occupied, sec.start, sec.end) && Trims(f, g, lines))
    && (exists parts :: Labelled(sec, parts, parts, out))
    && (forall l :: sec.start <= l <= sec.end && SubstantiveAt(lines, l) && !Covered(l, occupied) ==>
          InSome(l, out))
  }

  /** One gap: trimmed, and kept when something substantive is left. */
  method TrimGap(sec: Section, g: Range, part: nat, parts: nat, lines: seq<string>) returns (f: Option<Section>)
    requires 1 <= g.0 <= g.1 <= |lines|
    ensures f.Some? ==> Trims(f.value, g, lines) && g.0 <= f.value.start <= f.value.end <= g.1
    ensures f.Some? ==> f.value == Section(f.value.start, f.value.end, sec.level, sec.title, part, parts)
    ensures forall l :: 1 <= l <= |lines| && InRange(l, g) && SubstantiveAt(lines, l) ==> f.Some? && f.value.start <= l <= f.value.end
  {
    forall l | InRange(l, g) && SubstantiveAt(lines, l) ensures !BlankAt(lines, l) { SubstantiveNotBlank(lines, l); }
    hide BlankAt, SubstantiveAt;
    var start := TrimUp(lines, g.0, g.1);
    var end := TrimDown(lines, start, g.1);
    var keep := AnySubstantive(lines, start, end);
    return if keep then Some(Section(start, end, sec.level, sec.title, part, parts)) else None;
  }

  method Fragment(sec: Section, occupied: seq<Range>, lines: seq<string>) returns (out: seq<Section>)
    requires 1 <= sec.start <= sec.end <= |lines| && forall r :: r in occupied ==> r.0 <= r.1
    ensures Fragments(sec, occupied, lines, out)
  {
    hide BlankAt, SubstantiveAt, Covered;
    var rs := Clip(sec, occupied);
    var gs := Gaps(sec, rs);
    forall g | g in gs ensures Gap(g, occupied, sec.start, sec.end) {}
    NoLabels(sec, |gs|);
    GapsInside(gs, occupied, sec.start, sec.end);
    NothingCollected(sec, occupied, lines, gs);
    hide Collected, Fragments, Gap, Spread, Trims, BlankAt, SubstantiveAt;
    out := [];
    for i := 0 to |gs|
      invariant Collected(sec, occupied, lines, gs, i, out)
    {
      var g := gs[i];
      assert g in gs;
      var f := TrimGap(sec, g, i + 1, |gs|, lines);
      CollectNext(sec, occupied, lines, gs, i, out, f);
      if f.Some? { out := out + [f.value]; }
    }
    AllCollected(sec, occupied, lines, gs, out);
  }

  /** The fragments of the first `i` gaps. */
  ghost predicate Collected(sec: Section, occupied: seq<Range>, lines: seq<string>, gs: seq<Range>, i: nat, out: seq<Section>)
    requires i <= |gs|
  {
    && (forall x, y :: 0 <= x < y < |out| ==> out[x].end < out[y].start)
    && (forall f :: f in out ==> i > 0 && f.end <= gs[i - 1].1)
    && Labelled(sec, i, |gs|, out)
    && (forall f :: f in out ==> exists g :: Gap(g, occupied, sec.start, sec.end) && Trims(f, g, lines))
    && (forall l :: 1 <= l <= |lines| && Covered(l, gs[..i]) && SubstantiveAt(lines, l) ==> InSome(l, out))
  }

  lemma {:induction false} NothingCollected(sec: Section, occupied: seq<Range>, lines: seq<string>, gs: seq<Range>)
    ensures Collected(sec, occupied, lines, gs, 0, [])
  {}

  lemma {:induction false} CollectNext(sec: Section, occupied: seq<Range>, lines: seq<string>, gs: seq<Range>, i: nat,
                                       out: seq<Section>, f: Option<Section>)
    requires i < |gs| && Collected(sec, occupied, lines, gs, i, out)
    requires Gap(gs[i], occupied, sec.start, sec.end) && (i > 0 ==> gs[i - 1].1 < gs[i].0) && gs[i].0 <= gs[i].1
    requires f.Some? ==>
               && Trims(f.value, gs[i], lines) && gs[i].0 <= f.value.start <= f.value.end <= gs[i].1
               && f.value == Section(f.value.start, f.value.end, sec.level, sec.title, i + 1, |gs|)
    requires forall l :: 1 <= l <= |lines| && InRange(l, gs[i]) && SubstantiveAt(lines, l) ==>
               f.Some? && f.value.start <= l <= f.value.end
    ensures Collected(sec, occupied, lines, gs, i + 1, if f.Some? then out + [f.value] else out)
  {
    hide BlankAt, SubstantiveAt, Covered, Gap, InSome, Labelled, Trims;
    var g := gs[i];
    LabelNext(sec, i, |gs|, out, if f.Some? then f.value else Section(0, 0, sec.level, sec.title, i + 1, |gs|));
    assert gs[..i + 1] == gs[..i] + [g];
    forall l ensures Covered(l, gs[..i + 1]) <==> Covered(l, gs[..i]) || InRange(l, g) { CoveredAppend(l, gs[..i], g); }
    if f.Some? {
      forall l ensures InSome(l, out + [f.value]) <==> InSome(l, out) || f.value.start <= l <= f.value.end {
        InSomeAppend(l, out, f.value);
      }
    }
  }

  lemma {:induction false} AllCollected(sec: Section, occupied: seq<Range>, lines: seq<string>, gs: seq<Range>, out: seq<Section>)
    requires 1 <= sec.start && sec.end <= |lines| && Collected(sec, occupied, lines, gs, |gs|, out)
    requires forall l :: sec.start <= l <= sec.end && !Covered(l, occupied) ==> Covered(l, gs)
    ensures Fragments(sec, occupied, lines, out)
  {
    hide BlankAt, SubstantiveAt, Covered, Gap, InSome, Labelled, Trims;
    assert gs[..|gs|] == gs;
  }

  ghost predicate InSome(l: int, out: seq<Section>) { exists f :: f in out && f.start <= l <= f.end }

  lemma {:induction false} InSomeAppend(l: int, out: seq<Section>, f: Section)
    ensures InSome(l, out + [f]) <==> InSome(l, out) || f.start <= l <= f.end
  {
    if InSome(l, out) {
      var x :| x in out && x.start <= l <= x.end;
      assert x in out + [f];
    }
    assert f in out + [f];
  }

  lemma {:induction false} GapsInside(gs: seq<Range>, rs: seq<Range>, lo: int, hi: int)
    requires Spread(gs) && forall g :: g in gs ==> Gap(g, rs, lo, hi)
    ensures forall g :: g in gs ==> lo <= g.0 <= g.1 <= hi
    ensures forall i :: 0 < i < |gs| ==> gs[i - 1].1 < gs[i].0
  {}

  lemma {:induction false} SubstantiveNotBlank(lines: seq<string>, l: int)
    requires 1 <= l <= |lines| && SubstantiveAt(lines, l)
    ensures !BlankAt(lines, l)
  {}

  method AnySubstantive(lines: seq<string>, start: int, end: int) returns (any: bool)
    requires 1 <= start && end <= |lines|
    ensures any <==> exists l :: start <= l <= end && SubstantiveAt(lines, l)
  {
    var l := start;
    while l <= end
      invariant start <= l && forall x :: start <= x < l && x <= end ==> !SubstantiveAt(lines, x)
    {
      if SubstantiveAt(lines, l) { return true; }
      l := l + 1;
    }
    return false;
  }

  // ---- the plan of a document ---------------------------------------------------------------

  function Ranges(plan: seq<Section>): (rs: seq<Range>)
    ensures |rs| == |plan| && forall i :: 0 <= i < |plan| ==> rs[i] == (plan[i].start, plan[i].end)
  {
    seq(|plan|, i requires 0 <= i < |plan| => (plan[i].start, plan[i].end))
  }

  /** Sound fragment: inside a kept section, no line of it already sourced, starting
      and ending on non-blank lines, with something substantive in it. */
  ghost predicate Proper(f: Section, secs: seq<Section>, occupied: seq<Range>, lines: seq<string>) {
    && 1 <= f.start <= f.end <= |lines|
    && (exists s :: s in secs && s.start <= f.start && f.end <= s.end)
    && (forall l :: f.start <= l <= f.end ==> !Covered(l, occupied))
    && !BlankAt(lines, f.start) && !BlankAt(lines, f.end)
    && (exists l :: f.start <= l <= f.end && SubstantiveAt(lines, l))
  }

  /** An exact plan: ordered and disjoint sound fragments that, with the ranges
      already sourced, hold every substantive line of every kept section. */
  ghost predicate IsPlan(lines: seq<string>, secs: seq<Section>, occupied: seq<Range>, plan: seq<Section>)
    requires Consecutive(secs, |lines|)
  {
    && (forall i, j :: 0 <= i < j < |plan| ==> plan[i].end < plan[j].start)
    && (forall f :: f in plan ==> Proper(f, secs, occupied, lines))
    && (forall s, l :: s in secs && s.start <= l <= s.end && SubstantiveAt(lines, l) ==>
          Covered(l, occupied) || InSome(l, plan))
  }

  lemma {:induction false} KeptHasLines(lines: seq<string>, hs: seq<Heading>, k: nat, s: Section)
    requires k <= |hs| && Ordered(hs, |lines|) && s in KeptSections(lines, hs, k)
    ensures s.start <= s.end
    decreases k
  {
    hide Ordered, WholeSection, KeepSection;
    if k > 0 {
      var w := WholeSection(lines, hs, k - 1);
      if s in KeptSections(lines, hs, k - 1) {
        KeptHasLines(lines, hs, k - 1, s);
      } else {
        KeptNotEmpty(lines, w);
      }
    }
  }

  lemma {:induction false} KeptNotEmpty(lines: seq<string>, s: Section)
    requires 1 <= s.start && s.end <= |lines| && KeepSection(lines, s)
    ensures s.start <= s.end
  {
    assert Strip(DropBreaks("")) == "";
  }

  /** The planning loop over the sections of one document. */
  method PlanDocument(lines: seq<string>, occupied: seq<Range>)
    returns (plan: Option<seq<Section>>, ghost hs: seq<Heading>)
    requires forall r :: r in occupied ==> r.0 <= r.1
    ensures HeadingsOf(lines, hs) && (plan.None? <==> hs == [])
    ensures plan.Some? ==> Consecutive(KeptSections(lines, hs, |hs|), |lines|)
                           && IsPlan(lines, KeptSections(lines, hs, |hs|), occupied, plan.value)
  {
    hide Fragments, Proper, KeptSections;
    var found;
    found, hs := RawSections(lines);
    if found.None? {
      return None, hs;
    }
    var secs, out: seq<Section> := found.value, [];
    for k := 0 to |secs|
      invariant forall i, j :: 0 <= i < j < |out| ==> out[i].end < out[j].start
      invariant forall f :: f in out ==> k > 0 && f.end <= secs[k - 1].end && Proper(f, secs, occupied, lines)
      invariant forall x, l :: 0 <= x < k && secs[x].start <= l <= secs[x].end && SubstantiveAt(lines, l) ==>
                  Covered(l, occupied) || InSome(l, out)
    {
      hide Covered, InSome, SubstantiveAt;
      var s := secs[k];
      assert s in secs;
      KeptHasLines(lines, hs, |hs|, s);
      var fs := Fragment(s, occupied, lines);
      FragmentsProper(s, secs, occupied, lines, fs);
      forall x, l | 0 <= x <= k && secs[x].start <= l <= secs[x].end && SubstantiveAt(lines, l)
        ensures Covered(l, occupied) || InSome(l, out + fs)
      {
        InSomeJoin(l, out, fs);
      }
      assert k > 0 ==> secs[k - 1].end < s.start;
      OrderedJoin(out, fs, s.start);
      out := out + fs;
    }
    return Some(out), hs;
  }

  lemma {:induction false} OrderedJoin(a: seq<Section>, b: seq<Section>, at: int)
    requires forall i, j :: 0 <= i < j < |a| ==> a[i].end < a[j].start
    requires forall i, j :: 0 <= i < j < |b| ==> b[i].end < b[j].start
    requires (forall f :: f in a ==> f.end < at) && (forall f :: f in b ==> at <= f.start)
    ensures forall i, j :: 0 <= i < j < |a + b| ==> (a + b)[i].end < (a + b)[j].start
  {
    forall i, j | 0 <= i < j < |a + b| ensures (a + b)[i].end < (a + b)[j].start {
      if i < |a| <= j { assert a[i] in a && b[j - |a|] in b; }
    }
  }

  lemma {:induction false} InSomeJoin(l: int, a: seq<Section>, b: seq<Section>)
    ensures InSome(l, a + b) <==> InSome(l, a) || InSome(l, b)
  {
    if InSome(l, a) { var x :| x in a && x.start <= l <= x.end; assert x in a + b; }
    if InSome(l, b) { var x :| x in b && x.start <= l <= x.end; assert x in a + b; }
  }

  lemma {:induction false} FragmentsProper(s: Section, secs: seq<Section>, occupied: seq<Range>, lines: seq<string>, fs: seq<Section>)
    requires s in secs && 1 <= s.start && s.end <= |lines| && Fragments(s, occupied, lines, fs)
    ensures forall f :: f in fs ==> s.start <= f.start && f.end <= s.end && Proper(f, secs, occupied, lines)
    ensures forall i, j :: 0 <= i < j < |fs| ==> fs[i].end < fs[j].start
    ensures forall l :: s.start <= l <= s.end && SubstantiveAt(lines, l) ==> Covered(l, occupied) || InSome(l, fs)
  {
    hide Covered, InSome, SubstantiveAt, BlankAt;
    forall f | f in fs
      ensures s.start <= f.start && f.end <= s.end && Proper(f, secs, occupied, lines)
    {
      var g :| Gap(g, occupied, s.start, s.end) && Trims(f, g, lines);
    }
  }

  /** Idempotence: planning again, once the planned fragments are sourced, plans
      nothing. */
  lemma {:induction false} ReplanIsEmpty(lines: seq<string>, secs: seq<Section>, occupied: seq<Range>, plan: seq<Section>, again: seq<Section>)
    requires Consecutive(secs, |lines|)
    requires IsPlan(lines, secs, occupied, plan)
    requires IsPlan(lines, secs, occupied + Ranges(plan), again)
    ensures again == []
  {
    hide SubstantiveAt, BlankAt;
    if again != [] {
      var f := again[0];
      assert f in again;
      var l :| f.start <= l <= f.end && SubstantiveAt(lines, l);
      var s :| s in secs && s.start <= f.start && f.end <= s.end;
      assert Covered(l, occupied) || InSome(l, plan);
      CoveredJoin(l, occupied, plan);
      assert false;
    }
  }

  lemma {:induction false} CoveredJoin(l: int, occupied: seq<Range>, plan: seq<Section>)
    ensures Covered(l, occupied + Ranges(plan)) <==> Covered(l, occupied) || InSome(l, plan)
  {
    var all := occupied + Ranges(plan);
    if Covered(l, occupied) { var r :| r in occupied && InRange(l, r); assert r in all; }
    if InSome(l, plan) {
      var f :| f in plan && f.start <= l <= f.end;
      var i :| 0 <= i < |plan| && plan[i] == f;
      assert all[|occupied| + i] == (f.start, f.end);
      assert (f.start, f.end) in all && InRange(l, (f.start, f.end));
    }
    if Covered(l, all) {
      var r :| r in all && InRange(l, r);
      var i :| 0 <= i < |all| && all[i] == r;
      if i >= |occupied| { assert plan[i - |occupied|] in plan; }
    }
  }

  /** The import run twice over one document: the second plan is empty, and the
      coverage check of verify_references_70_80_81.py passes after the first. */
  method PlanTwice(lines: seq<string>, occupied: seq<Range>)
    returns (first: Option<seq<Section>>, second: Option<seq<Section>>, ghost hs: seq<Heading>)
    requires forall r :: r in occupied ==> r.0 <= r.1
    ensures HeadingsOf(lines, hs) && (first.None? <==> hs == []) && (second.None? <==> hs == [])
    ensures first.Some? ==> second == Some([])
    ensures first.Some? ==>
              forall s, l | s in KeptSections(lines, hs, |hs|) && 1 <= l <= |lines| && s.start <= l <= s.end ::
                SubstantiveAt(lines, l) ==> Covered(l, occupied + Ranges(first.value))
  {
    hide KeptSections;
    first, hs := PlanDocument(lines, occupied);
    ghost var hs2;
    if first.None? { return first, None, hs; }
    var plan := first.value;
    assert forall r :: r in occupied + Ranges(plan) ==> r.0 <= r.1 by {
      forall r | r in Ranges(plan) ensures r.0 <= r.1 {
        var i :| 0 <= i < |plan| && Ranges(plan)[i] == r;
        assert plan[i] in plan;
      }
    }
    second, hs2 := PlanDocument(lines, occupied + Ranges(plan));
    HeadingsUnique(lines, hs, hs2);
    ReplanIsEmpty(lines, KeptSections(lines, hs, |hs|), occupied, plan, second.value);
    forall l { CoveredJoin(l, occupied, plan); }
  }

  /** The headings of a document are determined by it. */
  lemma {:induction false} HeadingsUnique(lines: seq<string>, a: seq<Heading>, b: seq<Heading>)
    requires HeadingsOf(lines, a) && HeadingsOf(lines, b)
    ensures a == b
  {
    OrderedSame(a, b, |lines|);
  }

  lemma {:induction false} HasMember(b: seq<Heading>)
    requires b != []
    ensures exists h :: h in b
  {
    assert b[0] in b;
  }

  /** The first heading occurs once. */
  lemma {:induction false} TailMembers(a: seq<Heading>, n: int)
    requires a != [] && Ordered(a, n)
    ensures Ordered(a[1..], n) && forall h :: h in a[1..] <==> h in a && h != a[0]
  {
    forall h ensures h in a[1..] <==> h in a && h != a[0] {
      if h in a[1..] { var k :| 0 <= k < |a[1..]| && a[1..][k] == h; assert a[k + 1] == h; }
      if h in a && h != a[0] { var k :| 0 <= k < |a| && a[k] == h; assert a[1..][k - 1] == h; }
    }
  }

  lemma {:induction false} OrderedSame(a: seq<Heading>, b: seq<Heading>, n: int)
    requires Ordered(a, n) && Ordered(b, n) && forall h :: h in a <==> h in b
    ensures a == b
    decreases |a|
  {
    if a == [] {
      if b != [] {
        HasMember(b);
        assert false;
      }
    } else {
      assert a[0] in a && a[0] in b;
      assert b[0] in b && b[0] in a;
      assert a[0] == b[0] by {
        var i :| 0 <= i < |b| && b[i] == a[0];
        var j :| 0 <= j < |a| && a[j] == b[0];
        assert i == 0;
      }
      TailMembers(a, n);
      TailMembers(b, n);
      hide Ordered;
      OrderedSame(a[1..], b[1..], n);
    }
  }

  /** A document: its lines and the ranges already sourced from it. */
  datatype Document = Document(lines: seq<string>, occupied: seq<Range>)

  ghost predicate Planned(d: Document, plan: seq<Section>) {
    exists hs ::
      && HeadingsOf(d.lines, hs) && hs != []
      && Consecutive(KeptSections(d.lines, hs, |hs|), |d.lines|)
      && IsPlan(d.lines, KeptSections(d.lines, hs, |hs|), d.occupied, plan)
  }

  /** `parse_for_store`: the plans of all documents, or the error of the first one
      without headings. */
  method ParseForStore(docs: seq<Document>) returns (plans: Option<seq<seq<Section>>>)
    requires forall d, r :: d in docs && r in d.occupied ==> r.0 <= r.1
    ensures plans.None? <==> exists d :: d in docs && HeadingsOf(d.lines, [])
    ensures plans.Some? ==> |plans.value| == |docs| && forall i :: 0 <= i < |docs| ==> Planned(docs[i], plans.value[i])
  {
    hide HeadingsOf, Planned;
    var out: seq<seq<Section>> := [];
    for i := 0 to |docs|
      invariant |out| == i && forall j :: 0 <= j < i ==> Planned(docs[j], out[j])
      invariant forall j :: 0 <= j < i ==> !HeadingsOf(docs[j].lines, [])
    {
      assert docs[i] in docs;
      var plan := PlanOne(docs[i]);
      if plan.None? {
        return None;
      }
      out := out + [plan.value];
    }
    return Some(out);
  }

  method PlanOne(d: Document) returns (plan: Option<seq<Section>>)
    requires forall r :: r in d.occupied ==> r.0 <= r.1
    ensures plan.None? <==> HeadingsOf(d.lines, [])
    ensures plan.Some? ==> Planned(d, plan.value)
  {
    hide HeadingsOf, IsPlan, KeptSections, Consecutive;
    ghost var hs;
    plan, hs := PlanDocument(d.lines, d.occupied);
    if HeadingsOf(d.lines, []) {
      HeadingsUnique(d.lines, [], hs);
    }
  }
}
