/** FLIRT-lite signatures (src/flirt.rs): wildcarding link-variant bytes, printing
    and parsing signature lines, and the best-match search. */
module Flirt {
  import opened Basics

  const SIG_LEN: nat := 32

  datatype Sig = Sig(name: string, bytes: seq<Byte>, mask: seq<bool>)

  // ---- branch masking ---------------------------------------------------------------

  predicate IsRel32(b: Byte) { b == 0xE8 || b == 0xE9 }

  predicate IsJcc(code: seq<Byte>, i: nat)
    requires i < |code|
  {
    code[i] == 0x0F && i + 1 < |code| && 0x80 <= code[i + 1] <= 0x8F
  }

  /** Opcode bytes at `i` that are followed by a 4-byte displacement; 0 if none. */
  function OpcodeLen(code: seq<Byte>, i: nat): (k: nat)
    requires i < |code|
    ensures k <= 2 && i + k <= |code|
  {
    if IsRel32(code[i]) then 1 else if IsJcc(code, i) then 2 else 0
  }

  function Min(a: nat, b: nat): nat { if a < b then a else b }

  function Const(b: bool, n: nat): (s: seq<bool>)
    ensures |s| == n && forall i :: 0 <= i < n ==> s[i] == b
  {
    seq(n, i => b)
  }

  /** The mask of `code[i..]`, scanning from an instruction start at `i`. */
  function MaskFrom(code: seq<Byte>, i: nat): (m: seq<bool>)
    requires i <= |code|
    ensures |m| == |code| - i
    decreases |code| - i
  {
    if i == |code| then []
    else
      var k := OpcodeLen(code, i);
      if k == 0 then [true] + MaskFrom(code, i + 1)
      else
        var j := Min(i + k + 4, |code|);
        Const(true, k) + Const(false, j - i - k) + MaskFrom(code, j)
  }

  /** `branch_mask`: the scan that clears displacement bytes in a vector of `true`. */
  method BranchMask(code: seq<Byte>) returns (mask: seq<bool>)
    ensures mask == MaskFrom(code, 0)
  {
    hide MaskFrom, OpcodeLen, Const;
    mask := Const(true, |code|);
    var i := 0;
    assert mask[..0] + MaskFrom(code, 0) == MaskFrom(code, 0);
    while i < |code|
      invariant |mask| == |code|
      invariant forall j :: i <= j < |code| ==> mask[j]
      invariant var k := Min(i, |code|); MaskFrom(code, 0) == mask[..k] + MaskFrom(code, k)
      decreases |code| - i
    {
      ghost var done := mask[..i];
      var k := OpcodeLen(code, i);
      MaskUnfold(code, i);
      if k > 0 {
        var end := Min(i + k + 4, |code|);
        mask := ClearRange(mask, i + k, end);
        assert mask[..end] == done + (Const(true, k) + Const(false, end - i - k));
        Regroup(done, Const(true, k) + Const(false, end - i - k), MaskFrom(code, end));
        i := i + k + 4;
      } else {
        assert mask[..i + 1] == done + [true];
        Regroup(done, [true], MaskFrom(code, i + 1));
        i := i + 1;
      }
    }
    assert mask[..|code|] + MaskFrom(code, |code|) == mask;
  }

  lemma {:induction false} Regroup<T>(a: seq<T>, b: seq<T>, c: seq<T>)
    ensures a + (b + c) == (a + b) + c
  {}

  lemma {:induction false} MaskUnfold(code: seq<Byte>, i: nat)
    requires i < |code|
    ensures var k := OpcodeLen(code, i);
            var j := Min(i + k + 4, |code|);
            MaskFrom(code, i) ==
            if k == 0 then [true] + MaskFrom(code, i + 1)
            else (Const(true, k) + Const(false, j - i - k)) + MaskFrom(code, j)
  {}

  method ClearRange(mask: seq<bool>, lo: nat, hi: nat) returns (out: seq<bool>)
    requires lo <= hi <= |mask|
    ensures |out| == |mask|
    ensures forall j :: 0 <= j < |mask| ==> out[j] == (mask[j] && !(lo <= j < hi))
  {
    out := mask;
    for j := lo to hi
      invariant |out| == |mask|
      invariant forall x :: 0 <= x < |mask| ==> out[x] == (mask[x] && !(lo <= x < j))
    {
      out := out[j := false];
    }
  }

  /** `a` and `b` agree on every byte kept by `mask`, from `i` on. */
  ghost predicate AgreeWhere(a: seq<Byte>, b: seq<Byte>, mask: seq<bool>, i: nat)
    requires |a| == |b| && i <= |a| && |mask| == |a| - i
  {
    forall j :: i <= j < |a| && mask[j - i] ==> a[j] == b[j]
  }

  /** Link invariance: codes that agree wherever the first one's mask keeps a byte
      have the same mask. */
  lemma {:induction false} LinkInvariance(a: seq<Byte>, b: seq<Byte>, i: nat)
    requires |a| == |b| && i <= |a| && AgreeWhere(a, b, MaskFrom(a, i), i)
    ensures MaskFrom(b, i) == MaskFrom(a, i)
    decreases |a| - i
  {
    hide MaskFrom, OpcodeLen, AgreeWhere;
    if i < |a| {
      FirstByteKept(a, i);
      AgreeAt(a, b, MaskFrom(a, i), i, i);
      SameOpcode(a, b, i);
      MaskUnfold(a, i);
      MaskUnfold(b, i);
      var k := OpcodeLen(a, i);
      var j := if k == 0 then i + 1 else Min(i + k + 4, |a|);
      var head := if k == 0 then [true] else Const(true, k) + Const(false, j - i - k);
      assert MaskFrom(a, i) == head + MaskFrom(a, j);
      AgreeSuffix(a, b, i, j, head, MaskFrom(a, j));
      LinkInvariance(a, b, j);
    } else {
      assert MaskFrom(a, i) == [] == MaskFrom(b, i);
    }
  }

  /** A scanned position is always kept. */
  lemma {:induction false} FirstByteKept(code: seq<Byte>, i: nat)
    requires i < |code|
    ensures MaskFrom(code, i)[0]
  {
    hide MaskFrom;
    MaskUnfold(code, i);
    var k := OpcodeLen(code, i);
    if k > 0 { assert Const(true, k)[0]; }
  }

  lemma {:induction false} AgreeAt(a: seq<Byte>, b: seq<Byte>, mask: seq<bool>, i: nat, j: nat)
    requires |a| == |b| && i <= j < |a| && |mask| == |a| - i && AgreeWhere(a, b, mask, i) && mask[j - i]
    ensures a[j] == b[j]
  {}

  lemma {:induction false} AgreeSuffix(a: seq<Byte>, b: seq<Byte>, i: nat, j: nat, head: seq<bool>, tail: seq<bool>)
    requires |a| == |b| && i <= j <= |a| && |head| == j - i && |tail| == |a| - j && AgreeWhere(a, b, head + tail, i)
    ensures AgreeWhere(a, b, tail, j)
  {
    forall x | j <= x < |a| && tail[x - j] ensures a[x] == b[x] { assert (head + tail)[x - i] == tail[x - j]; }
  }

  /** Deciding what is at `i` looks at kept bytes only. */
  lemma {:induction false} SameOpcode(a: seq<Byte>, b: seq<Byte>, i: nat)
    requires |a| == |b| && i < |a| && a[i] == b[i] && AgreeWhere(a, b, MaskFrom(a, i), i)
    ensures OpcodeLen(b, i) == OpcodeLen(a, i)
  {
    hide MaskFrom, AgreeWhere;
    if a[i] == 0x0F && i + 1 < |a| {
      MaskUnfold(a, i);
      if IsJcc(a, i) {
        assert Const(true, 2)[1];
      } else {
        FirstByteKept(a, i + 1);
      }
      AgreeAt(a, b, MaskFrom(a, i), i, i + 1);
    }
  }

  // ---- printing ------------------------------------------------------------------------

  function HexDigit(n: nat): (c: char)
    requires n < 16
    ensures HexValue(c) == Some(n) && c != '.' && !IsSpace(c) && c != '+'
  {
    if n < 10 then '0' + (n as char) else 'a' + ((n - 10) as char)
  }

  function HexValue(c: char): Option<nat> {
    if '0' <= c <= '9' then Some((c as int) - ('0' as int))
    else if 'a' <= c <= 'f' then Some((c as int) - ('a' as int) + 10)
    else if 'A' <= c <= 'F' then Some((c as int) - ('A' as int) + 10)
    else None
  }

  /** Unicode white space, as `char::is_whitespace`. */
  predicate IsSpace(c: char) {
    var x := c as int;
    || 9 <= x <= 13 || x == 0x20 || x == 0x85 || x == 0xA0 || x == 0x1680
    || 0x2000 <= x <= 0x200A || x == 0x2028 || x == 0x2029 || x == 0x202F || x == 0x205F || x == 0x3000
  }

  function PrintByte(b: Byte, keep: bool): (s: string)
    ensures |s| == 2
  {
    if keep then [HexDigit(b / 16), HexDigit(b % 16)] else ".."
  }

  function PrintBytes(code: seq<Byte>, mask: seq<bool>): (s: string)
    requires |mask| == |code|
    ensures |s| == 2 * |code|
  {
    if code == [] then "" else PrintByte(code[0], mask[0]) + PrintBytes(code[1..], mask[1..])
  }

  function Relocated(reloc: seq<bool>, i: nat): bool { i < |reloc| && reloc[i] }

  /** The bytes a signature keeps: not a branch displacement, not relocated. */
  function KeptMask(code: seq<Byte>, reloc: seq<bool>): (m: seq<bool>)
    ensures |m| == |code|
    ensures forall i :: 0 <= i < |code| ==> m[i] == (MaskFrom(code, 0)[i] && !Relocated(reloc, i))
  {
    seq(|code|, i requires 0 <= i < |code| => MaskFrom(code, 0)[i] && !Relocated(reloc, i))
  }

  function Head(code: seq<Byte>): (h: seq<Byte>)
    ensures |h| == Min(|code|, SIG_LEN)
  {
    code[..Min(|code|, SIG_LEN)]
  }

  /** Import thunks and tail stubs carry no identity. */
  predicate IsThunk(code: seq<Byte>)
    requires |code| >= 2
  {
    code[0] == 0xE9 || code[0] == 0xEB || (code[0] == 0xFF && (code[1] == 0x25 || code[1] == 0x15))
  }

  function Line(name: string, code: seq<Byte>, reloc: seq<bool>): Option<string> {
    var h := Head(code);
    if |h| < 8 || IsThunk(h) then None
    else Some(name + " " + PrintBytes(h, KeptMask(h, reloc)))
  }

  /** `gen_signature`. */
  method GenSignature(name: string, code: seq<Byte>, reloc: seq<bool>) returns (line: Option<string>)
    ensures line == Line(name, code, reloc)
  {
    var h := Head(code);
    if |h| < 8 || IsThunk(h) {
      return None;
    }
    var mask := BranchMask(h);
    for i := 0 to |h|
      invariant |mask| == |h|
      invariant forall j :: 0 <= j < i ==> mask[j] == KeptMask(h, reloc)[j]
      invariant forall j :: i <= j < |h| ==> mask[j] == MaskFrom(h, 0)[j]
    {
      if Relocated(reloc, i) {
        mask := mask[i := false];
      }
    }
    assert mask == KeptMask(h, reloc);
    var hex := "";
    assert h[0..] == h && mask[0..] == mask;
    for i := 0 to |h|
      invariant PrintBytes(h, mask) == hex + PrintBytes(h[i..], mask[i..])
    {
      assert h[i..][1..] == h[i + 1..] && mask[i..][1..] == mask[i + 1..];
      Regroup(hex, PrintByte(h[i], mask[i]), PrintBytes(h[i + 1..], mask[i + 1..]));
      hex := hex + PrintByte(h[i], mask[i]);
    }
    assert hex + PrintBytes(h[|h|..], mask[|h|..]) == hex;
    return Some(name + " " + hex);
  }

  /** Two links of the same function get the same signature line, or both none. */
  lemma {:induction false} SignatureLinkInvariance(name: string, a: seq<Byte>, b: seq<Byte>, reloc: seq<bool>)
    requires |a| == |b|
    requires AgreeWhere(Head(a), Head(b), MaskFrom(Head(a), 0), 0)
    ensures Line(name, a, reloc) == Line(name, b, reloc)
  {
    var h, g := Head(a), Head(b);
    LinkInvariance(h, g, 0);
    if |h| >= 8 {
      ThunkKept(h, g);
      assert KeptMask(h, reloc) == KeptMask(g, reloc);
      PrintKept(h, g, KeptMask(h, reloc));
    }
  }

  lemma {:induction false} ThunkKept(a: seq<Byte>, b: seq<Byte>)
    requires |a| == |b| >= 2 && AgreeWhere(a, b, MaskFrom(a, 0), 0)
    ensures IsThunk(a) == IsThunk(b)
  {
    hide MaskFrom;
    var m := MaskFrom(a, 0);
    FirstByteKept(a, 0);
    assert a[0] == b[0];
    if a[0] == 0xFF {
      MaskUnfold(a, 0);
      FirstByteKept(a, 1);
      assert m[1];
    }
  }

  lemma {:induction false} PrintKept(a: seq<Byte>, b: seq<Byte>, mask: seq<bool>)
    requires |a| == |b| == |mask|
    requires forall i :: 0 <= i < |a| && mask[i] ==> a[i] == b[i]
    ensures PrintBytes(a, mask) == PrintBytes(b, mask)
    decreases |a|
  {
    if a != [] {
      assert forall i :: 0 <= i < |a| - 1 && mask[1..][i] ==> a[1..][i] == b[1..][i] by {
        forall i | 0 <= i < |a| - 1 && mask[1..][i] ensures a[1..][i] == b[1..][i] {
          assert mask[i + 1] && a[i + 1] == b[i + 1];
        }
      }
      PrintKept(a[1..], b[1..], mask[1..]);
    }
  }
}
