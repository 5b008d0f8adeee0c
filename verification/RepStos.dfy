/** `__rep_stosW` and `memcpy`/`memmove` (src/cpudiff.rs:219-295) said as the
    instructions they stand for: whole elements stored, bytes moved, refusals. */
module RepStos {
  import opened Basics
  import opened Ir
  import opened Memory
  import opened Machine
  import opened StringOps
  import opened RepMovs
  import Word

  /** All bytes of the element lie one after another in one region. */
  predicate InOneRegion(m: Mem, a: U64, w: nat) {
    && Locate(m, a, w).Some?
    && forall j :: 0 <= j < w ==> Locate(m, Off(a, j), 1) == Some(Shift(Locate(m, a, w).value, j))
  }

  /** Regions that do not meet and lie below the address wrap. */
  ghost predicate Apart(m: Mem) {
    && (forall i :: 0 <= i < |m.regions| ==> m.regions[i].base + |m.regions[i].data| <= Modulus(m))
    && (forall i, k :: 0 <= i < |m.regions| && 0 <= k < |m.regions| && i != k ==>
          || m.regions[i].base + |m.regions[i].data| <= m.regions[k].base
          || m.regions[k].base + |m.regions[k].data| <= m.regions[i].base)
  }

  /** There, every mapped element lies in one region. */
  lemma {:induction false} ApartIsOneRegion(m: Mem, a: U64, w: nat)
    requires Apart(m) && 0 < w && Locate(m, a, w).Some?
    ensures InOneRegion(m, a, w)
  {
    var p := Locate(m, a, w).value;
    forall j | 0 <= j < w ensures Locate(m, Off(a, j), 1) == Some(Shift(p, j)) {
      KeyNext(m, a, j);
      ByteOf(m, a, w, j);
    }
  }

  lemma {:induction false} KeyNext(m: Mem, a: U64, j: nat)
    requires Key(m, a) + j < Modulus(m)
    ensures Key(m, Off(a, j)) == Key(m, a) + j
  {
    KeyWrap(m, a + j);
    if m.whole { KeySum(a, j, 0x1_0000_0000); } else { KeySum(a, j, 0x1_0000_0000_0000_0000); }
  }

  lemma {:induction false} KeySum(a: nat, j: nat, k: nat)
    requires k > 0 && a % k + j < k
    ensures (a + j) % k == a % k + j
  {
    var q := a / k;
    assert a == q * k + a % k;
    Word.DivisionUnique(a + j, k, q, a % k + j);
  }

  /** A byte lies in one of the regions only. */
  lemma {:induction false} OneHolder(m: Mem, k: int, i: nat, j: nat)
    requires Apart(m) && i < |m.regions| && j < |m.regions| && Fits(m.regions[i], k, 1) && Fits(m.regions[j], k, 1)
    ensures i == j
  {}

  lemma {:induction false} ByteOf(m: Mem, a: U64, w: nat, j: nat)
    requires Apart(m) && j < w && Locate(m, a, w).Some? && Key(m, Off(a, j)) == Key(m, a) + j
    ensures Locate(m, Off(a, j), 1) == Some(Shift(Locate(m, a, w).value, j))
  {
    hide Key, Off, Modulus;
    var p, k := Locate(m, a, w).value, Key(m, a) + j;
    var r := RegionOf(m.regions, k, 1);
    assert Fits(m.regions[p.buf], k, 1);
    assert r.Some? && Fits(m.regions[r.value], k, 1);
    OneHolder(m, k, r.value, p.buf);
  }

  // ---- stores -----------------------------------------------------------------------------

  lemma {:induction false} LeBytesAt(v: int, n: nat, i: nat)
    requires v >= 0 && i < n
    ensures LeBytes(v, n)[i] == (v / Pow256(i)) % 256
    decreases n
  {
    if i > 0 {
      LeBytesAt(v / 256, n - 1, i - 1);
      QuotientAgain(v, Pow256(i - 1));
    }
  }

  lemma {:induction false} QuotientAgain(v: int, p: int)
    requires v >= 0 && p > 0
    ensures v / (256 * p) == (v / 256) / p
  {
    var y, r := v / 256, v % 256;
    var z, s := y / p, y % p;
    assert v == 256 * y + r && y == p * z + s;
    assert 256 * (p * z) == z * (256 * p);
    Word.DivisionUnique(v, 256 * p, z, 256 * s + r);
  }

  /** Byte j of element k of a fill is byte j of the value. */
  lemma {:induction false} FillElement(n: nat, val: U64, k: nat, j: nat)
    requires j < n
    ensures FillByte(val, n, Total(n, k) + j) == LeBytes(val, n)[j]
  {
    TotalIsProduct(n, k);
    Word.DivisionUnique(Total(n, k) + j, n, k, j);
    LeBytesAt(val, n, j);
  }

  lemma {:induction false} FillSegment(n: nat, val: U64, k: nat, total: nat)
    requires n > 0 && Total(n, k) + n <= total
    ensures FillBytes(val, n, total)[Total(n, k)..Total(n, k) + n] == LeBytes(val, n)
  {
    hide FillByte, LeBytes, Total;
    var bs, at := FillBytes(val, n, total), Total(n, k);
    forall j | 0 <= j < n ensures bs[at..at + n][j] == LeBytes(val, n)[j] { FillElement(n, val, k, j); }
  }

  lemma {:induction false} TotalMono(n: nat, k: nat, count: nat)
    requires k < count
    ensures Total(n, k) + n <= Total(n, count)
    decreases count
  {
    if k + 1 < count { TotalMono(n, k, count - 1); }
  }

  /** `rep stos` as the instruction: under the cap it succeeds exactly on a writable
      range, and then each of its elements reads as the value truncated to its width,
      least significant byte first. */
  lemma {:induction false} StosStoresElements(w: Width, dst: U64, val: U64, count: U64, r: Ram, k: nat)
    requires count < TWO32 && Total(w.Bytes(), count) <= CAP && k < count
    ensures var res := MemcallRam(RepStos(w), [dst, val, count, 0], r, false);
            && (res.Ok? <==> AllWritable(r.mem, dst, 0, Total(w.Bytes(), count)))
            && (res.Ok? && InOneRegion(res.v.mem, Off(dst, Total(w.Bytes(), k)), w.Bytes()) ==>
                  MemRead(res.v.mem, Off(dst, Total(w.Bytes(), k)), w.Bytes()) == Some(val % Pow256(w.Bytes())))
  {
    var n := w.Bytes();
    TotalMono(n, k, count);
    StosIsFill(w, dst, val, count, r);
    FillSegment(n, val, k, Total(n, count));
    hide FillLoop, MemcallRam, Total, Pow256, MemRead, InOneRegion, AllWritable, Off, FillBytes, LeBytes;
    FillReads(n, dst, val, Total(n, count), Total(n, k), r);
  }

  lemma {:induction false} FillReads(n: nat, dst: U64, val: U64, total: nat, at: nat, r: Ram)
    requires 0 < n <= 8 && at + n <= total <= CAP && FillBytes(val, n, total)[at..at + n] == LeBytes(val, n)
    ensures var res := FillLoop(r, dst, val, n, 0, total);
            && (res.Ok? <==> AllWritable(r.mem, dst, 0, total))
            && (res.Ok? && InOneRegion(res.v.mem, Off(dst, at), n) ==> MemRead(res.v.mem, Off(dst, at), n) == Some(val % Pow256(n)))
  {
    hide FillLoop, Pow256, MemRead, InOneRegion, AllWritable, Patched, Off, Modulus, FillBytes, LeBytes;
    CapBelowModulus(r.mem);
    FillClosedForm(r, dst, val, n, total);
    var res := FillLoop(r, dst, val, n, 0, total);
    if res.Ok? && InOneRegion(res.v.mem, Off(dst, at), n) {
      ReadElement(n, dst, val, at, r, res.v, FillBytes(val, n, total));
    }
  }

  lemma {:induction false} StosIsFill(w: Width, dst: U64, val: U64, count: U64, r: Ram)
    requires count < TWO32 && Total(w.Bytes(), count) <= CAP
    ensures MemcallRam(RepStos(w), [dst, val, count, 0], r, false)
            == FillLoop(r, dst, val, w.Bytes(), 0, Total(w.Bytes(), count))
  {
    hide CopyLoop, FillLoop;
    TotalIsProduct(w.Bytes(), count);
  }

  lemma {:induction false} ReadElement(n: nat, dst: U64, val: U64, at: nat, r0: Ram, r: Ram, bs: seq<Byte>)
    requires n <= 8 && Patched(r0, r, dst, bs) && at + n <= |bs| && bs[at..at + n] == LeBytes(val, n)
    requires InOneRegion(r.mem, Off(dst, at), n)
    ensures MemRead(r.mem, Off(dst, at), n) == Some(val % Pow256(n))
  {
    hide Patched, FillByte, Peek, Readable, InOneRegion, MemRead, Off, Pow256, LeBytes;
    forall j | 0 <= j < n ensures Readable(r.mem, Off(Off(dst, at), j)) && Peek(r.mem, Off(Off(dst, at), j)) == LeBytes(val, n)[j] {
      OffAdd(dst, at, j);
      PatchedAt(r0, r, dst, bs, at + j);
      assert bs[at..at + n][j] == bs[at + j];
    }
    ReadBytes(r.mem, Off(dst, at), n, LeBytes(val, n));
    LeRoundTrip(val, n);
  }

  /** Reading an element gives the value of its bytes. */
  lemma {:induction false} ReadBytes(m: Mem, a: U64, n: nat, bs: seq<Byte>)
    requires n <= 8 && |bs| == n && InOneRegion(m, a, n)
    requires forall j :: 0 <= j < n ==> Readable(m, Off(a, j)) && Peek(m, Off(a, j)) == bs[j]
    ensures MemRead(m, a, n) == Some(LeValue(bs))
  {
    hide Locate, Off, LeValue, Peek, Readable;
    var p := Locate(m, a, n).value;
    var data := m.regions[p.buf].data;
    forall j | 0 <= j < n ensures data[p.off + j] == bs[j] { ByteHere(m, a, n, j); }
    assert data[p.off..p.off + n] == bs;
  }

  lemma {:induction false} ByteHere(m: Mem, a: U64, n: nat, j: nat)
    requires InOneRegion(m, a, n) && j < n
    ensures Readable(m, Off(a, j))
    ensures Peek(m, Off(a, j)) == m.regions[Locate(m, a, n).value.buf].data[Locate(m, a, n).value.off + j]
  {
    hide Locate, Off;
  }

  // ---- moves and refusals --------------------------------------------------------------------

  /** `memcpy` and `memmove` move from their second argument to their first: under the
      cap they succeed exactly on accessible ranges, and then destination byte j is old
      source byte j modulo the period and nothing else changes. */
  lemma {:induction false} MemcpyMoves(n: Name, dst: U64, src: U64, count: U64, r: Ram)
    requires (n.Memcpy? || n.Memmove?) && 0 < count <= CAP
    ensures var res := MemcallRam(n, [dst, src, count], r, false);
            && (res.Ok? <==> AllReadable(r.mem, src, 0, count) && AllWritable(r.mem, dst, 0, count))
            && (res.Ok? ==> Patched(r, res.v, dst, Image(r.mem, src, Period(r.mem, dst, src, count), count)))
  {
    hide CopyLoop, FillLoop, AllReadable, AllWritable, Patched, Image, Modulus, Period;
    CapBelowModulus(r.mem);
    CopyClosedForm(r, dst, src, count);
    assert count % 0x1_0000_0000 == count;
  }

  /** Only the low 32 bits of the length count; more than a mebibyte of bytes, or a set
      direction argument, is refused; no bytes at all is no change. */
  lemma {:induction false} MemcallRefusals(n: Name, vs: seq<U64>, r: Ram)
    requires IsMemcall(n, |vs|)
    ensures var bytes := (vs[2] % TWO32) * (if |vs| == 4 then n.elem.Bytes() else 1);
            var res := MemcallRam(n, vs, r, false);
            && (bytes > 0x10_0000 ==> res == Fail(Unmodelled))
            && (|vs| == 4 && vs[3] != 0 ==> res == Fail(Unmodelled))
            && (bytes == 0 && (|vs| == 4 ==> vs[3] == 0) ==> res == Ok(r))
  {}

  /** The intrinsic's overlap test is the real one: for ranges below 2^64, memcpy is refused
      exactly when source and destination share a byte; memmove never is. */
  lemma {:induction false} OverlapRefused(dst: U64, src: U64, n: U64)
    requires dst + n < TWO64 && src + n < TWO64
    ensures Overlapping(dst, src, n) <==> exists x :: Within(x, dst, n) && Within(x, src, n)
  {
    if Overlapping(dst, src, n) {
      var x := if dst <= src then src else dst;
      assert Within(x, dst, n) && Within(x, src, n);
    }
  }

  predicate Within(x: int, base: U64, n: nat) { base <= x < base + n }

  lemma {:induction false} IntrinsicRefusals(s: State, cx: Ctx, dst: U64, src: U64, n: U64)
    requires !cx.monitor
    requires RamLoad(s.ram, s.regs[4], 4, false) == Ok(dst)
    requires RamLoad(s.ram, Off(s.regs[4], 4), 4, false) == Ok(src)
    requires RamLoad(s.ram, Off(s.regs[4], 8), 4, false) == Ok(n)
    ensures n > 0x10_0000 ==> CallMemIntrinsic(IntrinMemcpy, s, cx).Fail? && CallMemIntrinsic(IntrinMemmove, s, cx).Fail?
    ensures Overlapping(dst, src, n) ==> CallMemIntrinsic(IntrinMemcpy, s, cx).Fail?
    ensures !Overlapping(dst, src, n) ==> CallMemIntrinsic(IntrinMemcpy, s, cx) == CallMemIntrinsic(IntrinMemmove, s, cx)
  {
    hide RamLoad, BufferedCopy, PushReturn, Overlapping, Off;
  }

  /** The modelled calls are exactly these, by name and number of arguments. */
  lemma {:induction false} ModelledCalls(n: Name, argc: nat)
    ensures IsMemcall(n, argc) <==> (n in {Memcpy, Memmove} && argc == 3) || ((n.RepMovs? || n.RepStos?) && argc == 4)
  {}
}
