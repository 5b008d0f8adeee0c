/** What a signature keeps and drops (src/flirt.rs:35-99), by literal opcodes: the scan
    of the code, the displacements it clears, relinking, the refusals and the text. */
module FlirtScan {
  import opened Basics
  import opened Flirt
  import opened FlirtDb

  /** A call or jump with a 4-byte displacement, by its opcode bytes. */
  predicate CallOrJump(code: seq<Byte>, i: nat)
    requires i < |code|
  {
    code[i] == 0xE8 || code[i] == 0xE9
  }

  predicate LongJcc(code: seq<Byte>, i: nat)
    requires i < |code|
  {
    code[i] == 0x0F && i + 1 < |code| && 0x80 <= code[i + 1] <= 0x8F
  }

  /** Where the scan goes from `i`. */
  function After(code: seq<Byte>, i: nat): nat
    requires i < |code|
  {
    if CallOrJump(code, i) then i + 5 else if LongJcc(code, i) then i + 6 else i + 1
  }

  /** The scan that starts at `i` stops at `k`. */
  predicate Visits(code: seq<Byte>, i: nat, k: nat)
    decreases |code| - i
  {
    i == k || (i < k && i < |code| && Visits(code, After(code, i), k))
  }

  /** Byte `j` is in the displacement of the instruction at `k`. */
  predicate Displaced(code: seq<Byte>, k: nat, j: nat)
    requires k < |code|
  {
    || (CallOrJump(code, k) && k + 1 <= j <= k + 4)
    || (!CallOrJump(code, k) && LongJcc(code, k) && k + 2 <= j <= k + 5)
  }

  ghost predicate Cleared(code: seq<Byte>, i: nat, j: nat) {
    exists k :: i <= k < |code| && Visits(code, i, k) && Displaced(code, k, j)
  }

  /** A byte is dropped exactly when it belongs to the displacement of a call, a jump or a
      long conditional jump that the scan stops at. */
  lemma {:induction false} MaskDropsDisplacements(code: seq<Byte>, i: nat, j: nat)
    requires i <= j < |code|
    ensures MaskFrom(code, i)[j - i] <==> !Cleared(code, i, j)
    decreases |code| - i
  {
    hide MaskFrom;
    var k := OpcodeLen(code, i);
    var n := After(code, i);
    MaskUnfold(code, i);
    SplitClear(code, i, j);
    if j >= n {
      assert n <= |code|;
      MaskDropsDisplacements(code, n, j);
      assert MaskFrom(code, i)[j - i] == MaskFrom(code, n)[j - n];
    } else {
      NothingLater(code, n, j);
    }
  }

  /** The first instruction of the scan, or a later one. */
  lemma {:induction false} SplitClear(code: seq<Byte>, i: nat, j: nat)
    requires i <= j < |code|
    ensures Cleared(code, i, j) <==> Displaced(code, i, j) || Cleared(code, After(code, i), j)
  {
    hide Displaced;
    assert Visits(code, i, i);
    if Cleared(code, After(code, i), j) {
      var k :| After(code, i) <= k < |code| && Visits(code, After(code, i), k) && Displaced(code, k, j);
      assert Visits(code, i, k);
    }
    if Cleared(code, i, j) && !Displaced(code, i, j) {
      var k :| i <= k < |code| && Visits(code, i, k) && Displaced(code, k, j);
      VisitsOnward(code, After(code, i), k);
    }
  }

  lemma {:induction false} VisitsOnward(code: seq<Byte>, i: nat, k: nat)
    requires Visits(code, i, k)
    ensures i <= k
  {}

  /** Displacements lie after their instruction. */
  lemma {:induction false} NothingLater(code: seq<Byte>, n: nat, j: nat)
    requires j < n
    ensures !Cleared(code, n, j)
  {}

  /** At a stop of the scan: a call or jump keeps its opcode and drops exactly the four
      bytes after it, a long conditional jump keeps two and drops the next four, any
      other byte is kept and the scan moves on by one. */
  lemma {:induction false} StopLaw(code: seq<Byte>, i: nat, j: nat)
    requires Visits(code, 0, i) && i < |code| && i <= j < |code| && j < After(code, i)
    ensures MaskFrom(code, 0)[j] <==> !(CallOrJump(code, i) && j > i) && !(!CallOrJump(code, i) && LongJcc(code, i) && j > i + 1)
  {
    hide MaskFrom;
    MaskFromStop(code, 0, i, j);
    MaskDropsDisplacements(code, i, j);
    SplitClear(code, i, j);
    NothingLater(code, After(code, i), j);
  }

  /** From a stop on, the mask is the mask of the scan starting there. */
  lemma {:induction false} MaskFromStop(code: seq<Byte>, i: nat, k: nat, j: nat)
    requires Visits(code, i, k) && k <= j < |code|
    ensures MaskFrom(code, i)[j - i] == MaskFrom(code, k)[j - k]
    decreases |code| - i
  {
    hide MaskFrom;
    if i != k {
      var n := After(code, i);
      MaskUnfold(code, i);
      VisitsOnward(code, n, k);
      MaskFromStop(code, n, k, j);
      assert MaskFrom(code, i)[j - i] == MaskFrom(code, n)[j - n];
    }
  }

  /** Relinking: codes of one length that differ only in displacements of the first one's
      head print the same line, or are both refused. */
  lemma {:induction false} RelinkSameLine(name: string, a: seq<Byte>, b: seq<Byte>, reloc: seq<bool>)
    requires |a| == |b|
    requires forall j :: 0 <= j < |Head(a)| && a[j] != b[j] ==> Cleared(Head(a), 0, j)
    ensures Line(name, a, reloc) == Line(name, b, reloc)
  {
    hide MaskFrom, Cleared, Line;
    var h, g := Head(a), Head(b);
    forall j | 0 <= j < |h| && MaskFrom(h, 0)[j - 0] ensures h[j] == g[j] { MaskDropsDisplacements(h, 0, j); }
    assert AgreeWhere(h, g, MaskFrom(h, 0), 0);
    SignatureLinkInvariance(name, a, b, reloc);
  }

  /** And what is not a displacement and not relocated shows: such a byte is printed. */
  lemma {:induction false} KeptByteShows(code: seq<Byte>, reloc: seq<bool>, j: nat)
    requires j < |Head(code)|
    ensures KeptMask(Head(code), reloc)[j] <==> !Cleared(Head(code), 0, j) && !(j < |reloc| && reloc[j])
  {
    hide MaskFrom, Cleared;
    MaskDropsDisplacements(Head(code), 0, j);
  }

  // ---- refusals and text ---------------------------------------------------------------------

  /** The two refusals: fewer than 8 bytes, or a thunk by its first bytes. Only the first 32
      bytes are looked at. */
  lemma {:induction false} RefusedExactly(name: string, code: seq<Byte>, reloc: seq<bool>)
    ensures Line(name, code, reloc).None? <==>
            || |code| < 8 || code[0] == 0xE9 || code[0] == 0xEB
            || (code[0] == 0xFF && (code[1] == 0x25 || code[1] == 0x15))
    ensures Line(name, code, reloc) == Line(name, if |code| > 32 then code[..32] else code, reloc)
  {
    if |code| > 32 { assert Head(code[..32]) == Head(code); }
  }

  /** A kept byte is printed as two lower-case hexadecimal digits, high one first, a
      dropped one as two dots; the line is the name, a space and the bytes in order. */
  lemma {:induction false} PrintedText(name: string, code: seq<Byte>, reloc: seq<bool>, j: nat)
    requires Line(name, code, reloc).Some? && j < |Head(code)|
    ensures var line, h := Line(name, code, reloc).value, Head(code);
            && |h| == (if |code| > 32 then 32 else |code|)
            && |line| == |name| + 1 + 2 * |h| && line[..|name|] == name && line[|name|] == ' '
            && line[|name| + 1 + 2 * j..|name| + 3 + 2 * j] ==
               if KeptMask(h, reloc)[j] then ["0123456789abcdef"[code[j] / 16], "0123456789abcdef"[code[j] % 16]] else ".."
  {
    var h := Head(code);
    var hex := PrintBytes(h, KeptMask(h, reloc));
    PrintedAt(h, KeptMask(h, reloc), j);
    Digits(code[j] / 16);
    Digits(code[j] % 16);
    hide PrintBytes, KeptMask, HexDigit;
    Slice(name + " ", hex, 2 * j, 2 * j + 2);
  }

  lemma {:induction false} Slice(a: string, b: string, i: nat, j: nat)
    requires i <= j <= |b|
    ensures (a + b)[|a| + i..|a| + j] == b[i..j]
  {}

  lemma {:induction false} Digits(n: nat)
    requires n < 16
    ensures HexDigit(n) == "0123456789abcdef"[n]
  {}

  /** Reading takes both cases. */
  lemma {:induction false} DigitsRead(n: nat)
    requires n < 16
    ensures HexValue("0123456789abcdef"[n]) == Some(n) && HexValue("0123456789ABCDEF"[n]) == Some(n)
  {}

  /** Blank lines, comments and lines without a pattern give no signature, whatever white
      space surrounds them. */
  lemma {:induction false} IgnoredLines(raw: string)
    requires Trim(raw) == "" || Trim(raw)[0] == '#' || NoSpace(Trim(raw))
    ensures ParseLine(raw) == None
  {
    hide Trim;
    assert NoSpace(Trim(raw)) ==> SplitOnce(Trim(raw)).None?;
  }

  lemma {:induction false} PrintedAt(code: seq<Byte>, mask: seq<bool>, j: nat)
    requires |mask| == |code| && j < |code|
    ensures PrintBytes(code, mask)[2 * j..2 * j + 2] == PrintByte(code[j], mask[j])
    decreases |code|
  {
    hide PrintByte;
    var head, rest := PrintByte(code[0], mask[0]), PrintBytes(code[1..], mask[1..]);
    assert PrintBytes(code, mask) == head + rest;
    if j > 0 {
      PrintedAt(code[1..], mask[1..], j - 1);
      assert (head + rest)[2 * j..2 * j + 2] == rest[2 * (j - 1)..2 * (j - 1) + 2];
    } else {
      assert (head + rest)[0..2] == head;
    }
  }

  // ---- specificity -----------------------------------------------------------------------------

  /** The number of kept bytes: none of nothing, and one more for each byte kept. */
  lemma {:induction false} KeptCounts(mask: seq<bool>, i: nat)
    requires i < |mask| && !mask[i]
    ensures Kept([]) == 0 && Kept(mask[i := true]) == Kept(mask) + 1
    decreases |mask|
  {
    if i > 0 {
      KeptCounts(mask[1..], i - 1);
      assert mask[i := true][1..] == mask[1..][i - 1 := true];
    } else {
      assert mask[i := true][1..] == mask[1..];
    }
  }

  /** Two matching signatures, one a refinement of the other: the more specific one's name
      is the answer. */
  lemma {:induction false} SpecificWins(a: Sig, b: Sig, code: seq<Byte>, r: Option<string>)
    requires Answer({a, b}, code, r) && Hit(a, code) && Hit(b, code) && Kept(a.mask) > Kept(b.mask)
    ensures r == Some(a.name)
  {
    hide Hit, Kept;
    assert Best({a, b}, code, a);
    assert forall s :: Best({a, b}, code, s) ==> s == a;
  }
}
