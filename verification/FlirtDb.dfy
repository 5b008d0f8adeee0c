/** The signature database of src/flirt.rs: `FlirtDb::parse` and
    `FlirtDb::match_at`. */
module FlirtDb {
  import opened Basics
  import opened Flirt

  // ---- parsing ------------------------------------------------------------------------

  function TrimStart(s: string): (r: string)
    ensures r != "" ==> !IsSpace(r[0])
  {
    if s != "" && IsSpace(s[0]) then TrimStart(s[1..]) else s
  }

  function TrimEnd(s: string): (r: string)
    ensures r <= s
    ensures r != "" ==> !IsSpace(r[|r| - 1])
  {
    if s != "" && IsSpace(s[|s| - 1]) then TrimEnd(s[..|s| - 1]) else s
  }

  function Trim(s: string): string { TrimEnd(TrimStart(s)) }

  /** Split at the first white-space character, which belongs to neither part. */
  function SplitOnce(s: string): (r: Option<(string, string)>)
    ensures r.Some? ==> |r.value.0| < |s| && r.value.0 == s[..|r.value.0|]
    ensures r.Some? ==> forall i :: 0 <= i < |r.value.0| ==> !IsSpace(r.value.0[i])
    ensures r.Some? ==> IsSpace(s[|r.value.0|]) && r.value.1 == s[|r.value.0| + 1..]
    ensures r.None? ==> forall i :: 0 <= i < |s| ==> !IsSpace(s[i])
  {
    if s == "" then None
    else if IsSpace(s[0]) then Some(("", s[1..]))
    else
      match SplitOnce(s[1..])
      case None => None
      case Some((a, b)) => Some(([s[0]] + a, b))
  }

  /** `u8::from_str_radix(pair, 16)`, which also takes a leading plus sign. */
  function ParsePair(x: char, y: char): Option<Byte> {
    match (HexValue(x), HexValue(y))
    case (Some(a), Some(b)) => if 16 * a + b < 256 then Some(16 * a + b) else None
    case (None, Some(b)) => if x == '+' && b < 256 then Some(b) else None
    case _ => None
  }

  datatype Pattern = Pattern(bytes: seq<Byte>, mask: seq<bool>)

  function Cons(b: Byte, keep: bool, rest: Option<Pattern>): Option<Pattern> {
    match rest case None => None case Some(p) => Some(Pattern([b] + p.bytes, [keep] + p.mask))
  }

  function ParseHex(h: string): (r: Option<Pattern>)
    requires |h| % 2 == 0
    ensures r.Some? ==> |r.value.bytes| == |r.value.mask| == |h| / 2
  {
    if h == "" then Some(Pattern([], []))
    else if h[..2] == ".." then Cons(0, false, ParseHex(h[2..]))
    else
      match ParsePair(h[0], h[1])
      case None => None
      case Some(b) => Cons(b, true, ParseHex(h[2..]))
  }

  /** One database line; None for blank, comment and malformed lines. */
  function ParseLine(raw: string): Option<Sig> {
    var line := Trim(raw);
    if line == "" || line[0] == '#' then None
    else
      match SplitOnce(line)
      case None => None
      case Some((name, rest)) =>
        var hex := Trim(rest);
        if |hex| % 2 != 0 then None
        else
          match ParseHex(hex)
          case None => None
          case Some(p) => if p.bytes == [] then None else Some(Sig(name, p.bytes, p.mask))
  }

  /** Lines of a text. The carriage return that `lines` may drop is white space,
      so trimming makes keeping it harmless. */
  function Lines(text: string): (ls: seq<string>)
    ensures |ls| > 0
  {
    if text == "" then [""]
    else
      var rest := Lines(text[1..]);
      if text[0] == '\n' then [""] + rest else [[text[0]] + rest[0]] + rest[1..]
  }

  function ParseLines(ls: seq<string>): seq<Sig> {
    if ls == [] then []
    else
      match ParseLine(ls[0])
      case None => ParseLines(ls[1..])
      case Some(s) => [s] + ParseLines(ls[1..])
  }

  /** `FlirtDb::parse`. */
  method Parse(text: string) returns (sigs: seq<Sig>)
    ensures sigs == ParseLines(Lines(text))
  {
    var ls := Lines(text);
    sigs := [];
    assert ls[0..] == ls;
    for i := 0 to |ls|
      invariant ParseLines(ls) == sigs + ParseLines(ls[i..])
    {
      assert ls[i..][0] == ls[i] && ls[i..][1..] == ls[i + 1..];
      var s := ReadLine(ls[i]);
      if s.Some? {
        Regroup(sigs, [s.value], ParseLines(ls[i + 1..]));
        sigs := sigs + [s.value];
      }
    }
    assert sigs + ParseLines(ls[|ls|..]) == sigs;
  }

  /** The body of the line loop, with its scan over character pairs. */
  method ReadLine(raw: string) returns (s: Option<Sig>)
    ensures s == ParseLine(raw)
  {
    hide ParseHex, TrimStart, TrimEnd;
    var line := Trim(raw);
    if line == "" || line[0] == '#' { return None; }
    var cut := SplitOnce(line);
    if cut.None? { return None; }
    var hex := Trim(cut.value.1);
    if |hex| % 2 != 0 { return None; }
    var p := ReadPairs(hex);
    if p.None? || p.value.bytes == [] { return None; }
    return Some(Sig(cut.value.0, p.value.bytes, p.value.mask));
  }

  method ReadPairs(hex: string) returns (p: Option<Pattern>)
    requires |hex| % 2 == 0
    ensures p == ParseHex(hex)
  {
    var bytes: seq<Byte>, mask: seq<bool>, i := [], [], 0;
    assert hex[0..] == hex;
    AfterNil(ParseHex(hex));
    while i + 1 < |hex|
      invariant i <= |hex| && i % 2 == 0
      invariant ParseHex(hex) == After(bytes, mask, ParseHex(hex[i..]))
      decreases |hex| - i
    {
      hide ParsePair, After, Cons;
      assert hex[i..][..2] == hex[i..i + 2] && hex[i..][2..] == hex[i + 2..];
      if hex[i..i + 2] == ".." {
        AfterCons(bytes, mask, 0, false, ParseHex(hex[i + 2..]));
        bytes, mask := bytes + [0], mask + [false];
      } else {
        var b := ParsePair(hex[i], hex[i + 1]);
        AfterNone(bytes, mask);
        if b.None? { return None; }
        AfterCons(bytes, mask, b.value, true, ParseHex(hex[i + 2..]));
        bytes, mask := bytes + [b.value], mask + [true];
      }
      i := i + 2;
    }
    assert hex[i..] == "";
    assert bytes + [] == bytes && mask + [] == mask;
    return Some(Pattern(bytes, mask));
  }

  lemma {:induction false} AfterNone(bytes: seq<Byte>, mask: seq<bool>)
    ensures After(bytes, mask, None) == None
  {}

  function After(bytes: seq<Byte>, mask: seq<bool>, rest: Option<Pattern>): Option<Pattern> {
    match rest case None => None case Some(p) => Some(Pattern(bytes + p.bytes, mask + p.mask))
  }

  lemma {:induction false} AfterNil(rest: Option<Pattern>)
    ensures After([], [], rest) == rest
  {
    if rest.Some? { assert [] + rest.value.bytes == rest.value.bytes && [] + rest.value.mask == rest.value.mask; }
  }

  lemma {:induction false} AfterCons(bytes: seq<Byte>, mask: seq<bool>, b: Byte, keep: bool, rest: Option<Pattern>)
    ensures After(bytes, mask, Cons(b, keep, rest)) == After(bytes + [b], mask + [keep], rest)
  {
    if rest.Some? {
      Regroup(bytes, [b], rest.value.bytes);
      Regroup(mask, [keep], rest.value.mask);
    }
  }

  // ---- print, then parse ----------------------------------------------------------------

  ghost predicate NoSpace(s: string) { forall i :: 0 <= i < |s| ==> !IsSpace(s[i]) }

  /** Names that a line can carry. */
  ghost predicate Nameable(name: string) { name != "" && NoSpace(name) && name[0] != '#' }

  function Zeroed(code: seq<Byte>, mask: seq<bool>): (r: seq<Byte>)
    requires |mask| == |code|
    ensures |r| == |code| && forall i :: 0 <= i < |code| ==> r[i] == if mask[i] then code[i] else 0
  {
    seq(|code|, i requires 0 <= i < |code| => if mask[i] then code[i] else 0)
  }

  lemma {:induction false} PairRoundTrip(b: Byte)
    ensures ParsePair(HexDigit(b / 16), HexDigit(b % 16)) == Some(b)
  {}

  lemma {:induction false} HexRoundTrip(code: seq<Byte>, mask: seq<bool>)
    requires |mask| == |code|
    ensures ParseHex(PrintBytes(code, mask)) == Some(Pattern(Zeroed(code, mask), mask))
    ensures NoSpace(PrintBytes(code, mask))
    decreases |code|
  {
    hide ParseHex, PrintByte, NoSpace;
    if code == [] {
      assert mask == [] && Zeroed(code, mask) == [];
      assert PrintBytes(code, mask) == "" && NoSpace("") && ParseHex("") == Some(Pattern([], [])) by { EmptyHex(); }
    } else {
      HexRoundTrip(code[1..], mask[1..]);
      HexStep(code[0], mask[0], PrintBytes(code[1..], mask[1..]));
      assert Zeroed(code, mask) == [if mask[0] then code[0] else 0] + Zeroed(code[1..], mask[1..]);
      assert mask == [mask[0]] + mask[1..];
    }
  }

  lemma {:induction false} EmptyHex()
    ensures NoSpace("") && ParseHex("") == Some(Pattern([], []))
  {}

  lemma {:induction false} HexStep(b: Byte, keep: bool, rest: string)
    requires |rest| % 2 == 0 && NoSpace(rest)
    ensures ParseHex(PrintByte(b, keep) + rest) == Cons(if keep then b else 0, keep, ParseHex(rest))
    ensures NoSpace(PrintByte(b, keep) + rest)
  {
    PairRoundTrip(b);
    var head := PrintByte(b, keep);
    var s := head + rest;
    assert s[..2] == head && s[2..] == rest;
    assert s[0] == head[0] && s[1] == head[1];
  }

  lemma {:induction false} TrimNothing(s: string)
    requires s != "" ==> !IsSpace(s[0]) && !IsSpace(s[|s| - 1])
    ensures Trim(s) == s
  {}

  lemma {:induction false} SplitAt(name: string, rest: string)
    requires NoSpace(name)
    ensures SplitOnce(name + " " + rest) == Some((name, rest))
  {
    var s := name + " " + rest;
    var cut := SplitOnce(s);
    assert IsSpace(s[|name|]);
    assert cut.Some?;
    var k := |cut.value.0|;
    assert forall i :: 0 <= i < |name| ==> s[i] == name[i];
    assert !(k < |name|);
    assert !(k > |name|) by { assert forall i :: 0 <= i < k ==> cut.value.0[i] == s[i]; }
    assert s[..|name|] == name && s[|name| + 1..] == rest;
  }

  lemma {:induction false} LinesNoBreak(s: string)
    requires NoSpace(s) || forall i :: 0 <= i < |s| ==> s[i] != '\n'
    ensures Lines(s) == [s]
    decreases |s|
  {
    if s != "" {
      assert forall i :: 0 <= i < |s| ==> s[i] != '\n' by {
        if NoSpace(s) { assert IsSpace('\n'); }
      }
      LinesNoBreak(s[1..]);
      assert [s[0]] + s[1..] == s;
    }
  }

  /** Print, parse: a generated line for a nameable function reads back as exactly
      one signature with the kept bytes and the mask; any other name is lost. */
  lemma {:induction false} PrintParse(name: string, code: seq<Byte>, reloc: seq<bool>)
    requires Line(name, code, reloc).Some?
    ensures var h := Head(code);
            var mask := KeptMask(h, reloc);
            var sig := Sig(name, Zeroed(h, mask), mask);
            && (ParseLines(Lines(Line(name, code, reloc).value)) == [sig] <==> Nameable(name))
            && (sig in ParseLines(Lines(Line(name, code, reloc).value)) ==> Nameable(name))
  {
    hide MaskFrom, PrintBytes, Lines, ParseLine, KeptMask, Zeroed;
    var h := Head(code);
    var mask := KeptMask(h, reloc);
    var hex := PrintBytes(h, mask);
    var line := name + " " + hex;
    var sig := Sig(name, Zeroed(h, mask), mask);
    assert line == Line(name, code, reloc).value;
    if Nameable(name) {
      LineRoundTrip(name, h, mask);
      HexRoundTrip(h, mask);
      assert forall i :: 0 <= i < |line| ==> line[i] != '\n' by {
        forall i | 0 <= i < |line| ensures line[i] != '\n' {
          if i < |name| { assert line[i] == name[i]; assert !IsSpace(name[i]); }
          else if i > |name| { assert line[i] == hex[i - |name| - 1]; assert !IsSpace(hex[i - |name| - 1]); }
        }
      }
      LinesNoBreak(line);
      assert ParseLines([line]) == [sig] by { assert [line][1..] == []; }
    } else if sig in ParseLines(Lines(line)) {
      NamesAreNameable(Lines(line), sig);
    }
  }

  lemma {:induction false} LineRoundTrip(name: string, h: seq<Byte>, mask: seq<bool>)
    requires Nameable(name) && |mask| == |h| > 0
    ensures ParseLine(name + " " + PrintBytes(h, mask)) == Some(Sig(name, Zeroed(h, mask), mask))
  {
    hide PrintBytes, TrimStart, TrimEnd, ParseHex, Zeroed, Trim, SplitOnce;
    HexRoundTrip(h, mask);
    var hex := PrintBytes(h, mask);
    var line := name + " " + hex;
    assert line[0] == name[0] && line[|line| - 1] == hex[|hex| - 1];
    TrimNothing(line);
    SplitAt(name, hex);
    TrimNothing(hex);
    assert Zeroed(h, mask) != [];
  }

  lemma {:induction false} NamesAreNameable(ls: seq<string>, sig: Sig)
    requires sig in ParseLines(ls)
    ensures Nameable(sig.name)
    decreases |ls|
  {
    hide ParseHex;
    var s := ParseLine(ls[0]);
    if s.Some? && s.value == sig {
      var line := Trim(ls[0]);
      TrimmedStart(ls[0]);
      var cut := SplitOnce(line).value;
      assert cut.0 != "";
      assert cut.0[0] == line[0];
    } else {
      NamesAreNameable(ls[1..], sig);
    }
  }

  lemma {:induction false} TrimmedStart(s: string)
    ensures Trim(s) != "" ==> !IsSpace(Trim(s)[0])
  {
    var t := TrimStart(s);
    assert Trim(s) <= t;
  }

  // ---- matching ---------------------------------------------------------------------------

  predicate Hit(s: Sig, code: seq<Byte>) {
    && |s.bytes| <= |code|
    && forall i :: 0 <= i < |s.bytes| && i < |s.mask| && s.mask[i] ==> code[i] == s.bytes[i]
  }

  function Kept(mask: seq<bool>): nat {
    if mask == [] then 0 else (if mask[0] then 1 else 0) + Kept(mask[1..])
  }

  /** A matching signature with the greatest number of kept bytes. */
  ghost predicate Best(sigs: set<Sig>, code: seq<Byte>, s: Sig) {
    s in sigs && Hit(s, code) && forall t :: t in sigs && Hit(t, code) ==> Kept(t.mask) <= Kept(s.mask)
  }

  /** `r` is the right answer: a name exactly when there is a best match and all
      best matches carry that name. */
  ghost predicate Answer(sigs: set<Sig>, code: seq<Byte>, r: Option<string>) {
    forall n :: r == Some(n) <==>
                  (exists s :: Best(sigs, code, s) && s.name == n)
                  && (forall s :: Best(sigs, code, s) ==> s.name == n)
  }

  ghost function AsSet(db: seq<Sig>): set<Sig> { set s | s in db }

  /** `FlirtDb::match_at`: the running best and the ambiguity flag. */
  method MatchAt(db: seq<Sig>, code: seq<Byte>) returns (r: Option<string>)
    ensures Answer(AsSet(db), code, r)
  {
    var best: Option<(string, nat)> := None;
    var ambiguous := false;
    ghost var leader: Option<Sig> := None;
    for i := 0 to |db|
      invariant Leading(AsSet(db[..i]), code, leader, best, ambiguous)
    {
      var s := db[i];
      assert AsSet(db[..i + 1]) == AsSet(db[..i]) + {s} by { assert db[..i + 1] == db[..i] + [s]; }
      if !Hit(s, code) {
        MissKeeps(AsSet(db[..i]), code, leader, best, ambiguous, s);
        continue;
      }
      var len := CountKept(s.mask);
      HitUpdates(AsSet(db[..i]), code, leader, best, ambiguous, s);
      match best
      case None => best := Some((s.name, len)); leader := Some(s);
      case Some((bn, bl)) =>
        if len > bl {
          best, ambiguous := Some((s.name, len)), false;
          leader := Some(s);
        } else if len == bl && s.name != bn {
          ambiguous := true;
        }
    }
    assert db[..|db|] == db;
    Concluded(AsSet(db), code, leader, best, ambiguous);
    if ambiguous || best.None? {
      return None;
    }
    return Some(best.value.0);
  }

  method CountKept(mask: seq<bool>) returns (n: nat)
    ensures n == Kept(mask)
  {
    n := 0;
    assert mask[0..] == mask;
    for i := 0 to |mask|
      invariant Kept(mask) == n + Kept(mask[i..])
    {
      assert mask[i..][1..] == mask[i + 1..];
      if mask[i] { n := n + 1; }
    }
  }

  /** What the loop knows of the signatures seen so far. */
  ghost predicate Leading(seen: set<Sig>, code: seq<Byte>, leader: Option<Sig>, best: Option<(string, nat)>, ambiguous: bool) {
    match leader
    case None => best == None && !ambiguous && forall s :: s in seen ==> !Hit(s, code)
    case Some(l) =>
      && Best(seen, code, l) && best == Some((l.name, Kept(l.mask)))
      && (ambiguous <==> exists s :: Best(seen, code, s) && s.name != l.name)
  }

  lemma {:induction false} MissKeeps(seen: set<Sig>, code: seq<Byte>, leader: Option<Sig>, best: Option<(string, nat)>, ambiguous: bool, s: Sig)
    requires Leading(seen, code, leader, best, ambiguous) && !Hit(s, code)
    ensures Leading(seen + {s}, code, leader, best, ambiguous)
  {
    hide Hit, Kept;
    forall t ensures Best(seen + {s}, code, t) <==> Best(seen, code, t) {}
  }

  lemma {:induction false} HitUpdates(seen: set<Sig>, code: seq<Byte>, leader: Option<Sig>, best: Option<(string, nat)>, ambiguous: bool, s: Sig)
    requires Leading(seen, code, leader, best, ambiguous) && Hit(s, code)
    ensures leader.None? ==> Leading(seen + {s}, code, Some(s), Some((s.name, Kept(s.mask))), false)
    ensures leader.Some? ==>
              var l, n := leader.value, Kept(s.mask);
              && (n > Kept(l.mask) ==> Leading(seen + {s}, code, Some(s), Some((s.name, n)), false))
              && (n == Kept(l.mask) && s.name != l.name ==> Leading(seen + {s}, code, leader, best, true))
              && (n == Kept(l.mask) && s.name == l.name ==> Leading(seen + {s}, code, leader, best, ambiguous))
              && (n < Kept(l.mask) ==> Leading(seen + {s}, code, leader, best, ambiguous))
  {
    hide Hit, Kept;
    if leader.Some? {
      var l, n := leader.value, Kept(s.mask);
      if n <= Kept(l.mask) {
        forall t | t != s ensures Best(seen + {s}, code, t) <==> Best(seen, code, t) {
          if Best(seen, code, t) { assert Kept(l.mask) <= Kept(t.mask); }
        }
        assert n == Kept(l.mask) ==> Best(seen + {s}, code, s);
      } else {
        forall t ensures Best(seen + {s}, code, t) <==> t == s {}
      }
    } else {
      forall t ensures Best(seen + {s}, code, t) <==> t == s {}
    }
  }

  lemma {:induction false} Concluded(sigs: set<Sig>, code: seq<Byte>, leader: Option<Sig>, best: Option<(string, nat)>, ambiguous: bool)
    requires Leading(sigs, code, leader, best, ambiguous)
    ensures Answer(sigs, code, if ambiguous || best.None? then None else Some(best.value.0))
  {
    hide Hit, Kept;
    if leader.Some? { assert Best(sigs, code, leader.value); }
  }

  /** The right answer is unique, so it depends on the set of signatures alone, not
      on their order in the database. */
  lemma {:induction false} AnswerUnique(sigs: set<Sig>, code: seq<Byte>, r: Option<string>, r': Option<string>)
    requires Answer(sigs, code, r) && Answer(sigs, code, r')
    ensures r == r'
  {
    hide Best;
    if r.Some? { assert r' == Some(r.value); }
    else if r'.Some? { assert r == Some(r'.value); }
  }

  /** A strictly less specific signature never changes an answer already given. */
  lemma {:induction false} LessSpecificAddition(sigs: set<Sig>, code: seq<Byte>, n: string, best: Sig, extra: Sig)
    requires Answer(sigs, code, Some(n)) && Best(sigs, code, best) && Kept(extra.mask) < Kept(best.mask)
    ensures Answer(sigs + {extra}, code, Some(n))
  {
    hide Hit, Kept;
    forall t ensures Best(sigs + {extra}, code, t) <==> Best(sigs, code, t) {
      if Best(sigs, code, t) { assert Kept(best.mask) <= Kept(t.mask); }
    }
    assert Some(n) == Some(n);
  }

  /** Print, parse, match: the database of one generated line recognises exactly
      the codes that are long enough and agree on every kept byte. */
  method GeneratedLineMatches(name: string, code: seq<Byte>, reloc: seq<bool>, other: seq<Byte>)
    returns (line: Option<string>, r: Option<string>)
    requires Nameable(name)
    ensures line == Line(name, code, reloc)
    ensures line.None? ==> r == None
    ensures line.Some? ==>
              var h := Head(code);
              r == if |h| <= |other| && (forall i :: 0 <= i < |h| && KeptMask(h, reloc)[i] ==> other[i] == h[i])
                   then Some(name) else None
  {
    line := GenSignature(name, code, reloc);
    if line.None? { return line, None; }
    PrintParse(name, code, reloc);
    var db := Parse(line.value);
    ghost var h := Head(code);
    ghost var sig := Sig(name, Zeroed(h, KeptMask(h, reloc)), KeptMask(h, reloc));
    assert AsSet(db) == {sig};
    r := MatchAt(db, other);
    OneSignature(sig, other, r);
  }

  lemma {:induction false} OneSignature(sig: Sig, code: seq<Byte>, r: Option<string>)
    requires Answer({sig}, code, r)
    ensures r == if Hit(sig, code) then Some(sig.name) else None
  {
    hide Hit, Kept;
    assert Hit(sig, code) <==> Best({sig}, code, sig);
    if r.Some? {
      assert r == Some(r.value);
      assert exists s :: Best({sig}, code, s) && s.name == r.value;
    }
  }
}
