/** `str.strip` and its halves, as the Python components use them. */
module PythonText {

  /** White space as `str.strip` sees it. */
  predicate IsSpace(c: char) {
    var x := c as int;
    || 9 <= x <= 13 || 0x1C <= x <= 0x20 || x == 0x85 || x == 0xA0 || x == 0x1680
    || 0x2000 <= x <= 0x200A || x == 0x2028 || x == 0x2029 || x == 0x202F || x == 0x205F || x == 0x3000
  }

  function LStrip(s: string): string { if s != "" && IsSpace(s[0]) then LStrip(s[1..]) else s }

  function RStrip(s: string): string { if s != "" && IsSpace(s[|s| - 1]) then RStrip(s[..|s| - 1]) else s }

  function Strip(s: string): string { RStrip(LStrip(s)) }

  predicate AllSpace(s: string) { forall i :: 0 <= i < |s| ==> IsSpace(s[i]) }

  /** Neither end is white space. */
  predicate Trimmed(s: string) { s != "" ==> !IsSpace(s[0]) && !IsSpace(s[|s| - 1]) }

  lemma {:induction false} LStripSpace(pre: string, s: string)
    requires AllSpace(pre)
    ensures LStrip(pre + s) == LStrip(s)
    decreases |pre|
  {
    if pre == "" {
      assert pre + s == s;
    } else {
      assert (pre + s)[0] == pre[0] && (pre + s)[1..] == pre[1..] + s;
      LStripSpace(pre[1..], s);
    }
  }

  lemma {:induction false} RStripSpace(s: string, post: string)
    requires AllSpace(post)
    ensures RStrip(s + post) == RStrip(s)
    decreases |post|
  {
    if post == "" {
      assert s + post == s;
    } else {
      var p := post[..|post| - 1];
      assert (s + post)[|s + post| - 1] == post[|post| - 1] && (s + post)[..|s + post| - 1] == s + p;
      RStripSpace(s, p);
    }
  }

  lemma {:induction false} AllSpaceStrips(s: string)
    requires AllSpace(s)
    ensures LStrip(s) == "" && RStrip(s) == "" && Strip(s) == ""
  {
    LStripSpace(s, "");
    RStripSpace("", s);
    assert s + "" == s && "" + s == s;
  }

  /** Stripping removes the white space around a text and nothing of the text. */
  lemma {:induction false} StripMeaning(pre: string, s: string, post: string)
    requires AllSpace(pre) && AllSpace(post) && Trimmed(s)
    ensures Strip(pre + s + post) == s
  {
    assert pre + s + post == pre + (s + post);
    LStripSpace(pre, s + post);
    if s == "" {
      assert s + post == post;
      AllSpaceStrips(post);
    } else {
      assert (s + post)[0] == s[0];
      RStripSpace(s, post);
    }
  }
}
