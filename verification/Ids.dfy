/** Identifiers of the memory store: `prefix-NNNN` from per-prefix counters
    (`_new_id`, aret-memory/core/repository.py:334-342). */
module Ids {

  function Digit(d: nat): char
    requires d < 10
  {
    '0' + (d as char)
  }

  function DigitValue(c: char): nat { if '0' <= c <= '9' then (c as int) - ('0' as int) else 0 }

  function Decimal(n: nat): (s: string)
    ensures |s| > 0 && forall i :: 0 <= i < |s| ==> '0' <= s[i] <= '9'
  {
    if n < 10 then [Digit(n)] else Decimal(n / 10) + [Digit(n % 10)]
  }

  /** Zero padding to at least four digits. */
  function Pad(s: string): (r: string)
    requires forall i :: 0 <= i < |s| ==> '0' <= s[i] <= '9'
    ensures forall i :: 0 <= i < |r| ==> '0' <= r[i] <= '9'
    decreases 4 - |s|
  {
    if |s| >= 4 then s else Pad("0" + s)
  }

  /** f"{prefix}-{number:04d}". */
  function Format(prefix: string, n: nat): string { prefix + "-" + Pad(Decimal(n)) }

  function Value(s: string): nat {
    if s == "" then 0 else 10 * Value(s[..|s| - 1]) + DigitValue(s[|s| - 1])
  }

  lemma {:induction false} DecimalValue(n: nat)
    ensures Value(Decimal(n)) == n
  {
    if n >= 10 {
      DecimalValue(n / 10);
      var s := Decimal(n);
      assert s[..|s| - 1] == Decimal(n / 10);
      assert DigitValue(Digit(n % 10)) == n % 10;
    } else {
      assert [Digit(n)][..0] == "";
    }
  }

  lemma {:induction false} ZeroValue(s: string)
    ensures Value("0" + s) == Value(s)
    decreases |s|
  {
    if s == "" {
      assert ("0" + s)[..0] == "";
    } else {
      ZeroValue(s[..|s| - 1]);
      assert ("0" + s)[..|s|] == "0" + s[..|s| - 1];
    }
  }

  lemma {:induction false} PadValue(s: string)
    requires forall i :: 0 <= i < |s| ==> '0' <= s[i] <= '9'
    ensures Value(Pad(s)) == Value(s)
    decreases 4 - |s|
  {
    if |s| < 4 {
      PadValue("0" + s);
      ZeroValue(s);
    }
  }

  /** Number of characters after the last hyphen. */
  function Tail(s: string): nat {
    if s == "" || s[|s| - 1] == '-' then 0 else 1 + Tail(s[..|s| - 1])
  }

  lemma {:induction false} TailOfFormat(p: string, d: string)
    requires forall i :: 0 <= i < |d| ==> d[i] != '-'
    ensures Tail(p + "-" + d) == |d|
    decreases |d|
  {
    var s := p + "-" + d;
    if d == "" {
      assert s == p + "-";
    } else {
      assert s[..|s| - 1] == p + "-" + d[..|d| - 1];
      TailOfFormat(p, d[..|d| - 1]);
    }
  }

  /** An identifier determines its prefix and its number: prefixes may contain
      hyphens and digits, and numbers may need more than four digits. */
  lemma {:induction false} FormatInjective(p: string, n: nat, p': string, n': nat)
    requires Format(p, n) == Format(p', n')
    ensures p == p' && n == n'
  {
    var s, d, d' := Format(p, n), Pad(Decimal(n)), Pad(Decimal(n'));
    TailOfFormat(p, d);
    TailOfFormat(p', d');
    assert d == s[|s| - |d|..] == d';
    assert p == s[..|s| - |d| - 1] == p';
    PadValue(Decimal(n));
    PadValue(Decimal(n'));
    DecimalValue(n);
    DecimalValue(n');
  }

  /** The text of an id: the prefix, a hyphen and the number in at least four digits, with
      leading zeros only up to four. */
  lemma {:induction false} FormatText(prefix: string, n: nat)
    ensures var id := Format(prefix, n);
            && |id| >= |prefix| + 5 && id[..|prefix|] == prefix && id[|prefix|] == '-'
            && Value(id[|prefix| + 1..]) == n
            && (|id| > |prefix| + 5 ==> id[|prefix| + 1] != '0')
  {
    DecimalValue(n);
    PadValue(Decimal(n));
    NoLeadingZero(n);
    PadText(Decimal(n));
    hide Pad, Decimal, Value;
    var d := Pad(Decimal(n));
    assert (prefix + "-" + d)[|prefix| + 1..] == d;
  }

  lemma {:induction false} PadText(s: string)
    requires forall i :: 0 <= i < |s| ==> '0' <= s[i] <= '9'
    ensures |Pad(s)| >= 4 && (|Pad(s)| > 4 ==> Pad(s) == s)
    decreases 4 - |s|
  {
    if |s| < 4 { PadText("0" + s); }
  }

  lemma {:induction false} NoLeadingZero(n: nat)
    ensures |Decimal(n)| > 1 ==> Decimal(n)[0] != '0'
    decreases n
  {
    if n >= 10 { NoLeadingZero(n / 10); }
  }

  /** Different prefixes or numbers, different ids. */
  lemma {:induction false} DistinctIds(p: string, n: nat, p': string, n': nat)
    requires p != p' || n != n'
    ensures Format(p, n) != Format(p', n')
  {
    hide Format;
    if Format(p, n) == Format(p', n') { FormatInjective(p, n, p', n'); }
  }
}
