/** The byte loops standing for string instructions: `do_memcall`
    (src/cpudiff.rs:219-295) and `call_mem_intrinsic` (src/cpudiff.rs:630-662). */
module StringOps {
  import opened Basics
  import opened Ir
  import opened Memory
  import opened Machine
  import Word

  const CAP: int := 0x10_0000

  /** `base.wrapping_add(i)`. */
  function Off(base: U64, i: nat): U64 { Word.Wrap(base + i) }

  function CopyLoop(r: Ram, dst: U64, src: U64, i: nat, n: nat, monitor: bool): (res: Res<Ram>)
    requires i <= n
    ensures res.Ok? ==> res.v.mem.whole == r.mem.whole
    decreases n - i
  {
    if i == n then Ok(r)
    else
      var b :- RamLoad(r, Off(src, i), 1, monitor);
      var r' :- RamWrite(r, Off(dst, i), 1, b);
      CopyLoop(r', dst, src, i + 1, n, monitor)
  }

  function FillByte(val: U64, elem: nat, i: nat): Byte
    requires elem > 0
  {
    (val / Pow256(i % elem)) % 256
  }

  function FillLoop(r: Ram, dst: U64, val: U64, elem: nat, i: nat, n: nat): Res<Ram>
    requires i <= n && elem > 0
    decreases n - i
  {
    if i == n then Ok(r)
    else
      var r' :- RamWrite(r, Off(dst, i), 1, FillByte(val, elem, i));
      FillLoop(r', dst, val, elem, i + 1, n)
  }

  function Gather(r: Ram, src: U64, i: nat, n: nat, monitor: bool): (res: Res<seq<Byte>>)
    requires i <= n
    ensures res.Ok? ==> |res.v| == n - i
    decreases n - i
  {
    if i == n then Ok([])
    else
      var b :- RamLoad(r, Off(src, i), 1, monitor);
      var rest :- Gather(r, src, i + 1, n, monitor);
      Ok([b % 256] + rest)
  }

  function Scatter(r: Ram, dst: U64, buf: seq<Byte>, i: nat): Res<Ram>
    requires i <= |buf|
    decreases |buf| - i
  {
    if i == |buf| then Ok(r)
    else
      var r' :- RamWrite(r, Off(dst, i), 1, buf[i]);
      Scatter(r', dst, buf, i + 1)
  }

  /** Read all `n` bytes, then write them: the memmove of the host intrinsic. */
  function BufferedCopy(r: Ram, dst: U64, src: U64, n: nat, monitor: bool): Res<Ram> {
    var buf :- Gather(r, src, 0, n, monitor);
    Scatter(r, dst, buf, 0)
  }

  predicate IsMemcall(n: Name, argc: nat) {
    (argc == 3 && (n.Memcpy? || n.Memmove?)) || (argc == 4 && (n.RepMovs? || n.RepStos?))
  }

  function MemcallRam(n: Name, vs: seq<U64>, r: Ram, monitor: bool): Res<Ram>
    requires IsMemcall(n, |vs|)
  {
    var count := vs[2] % 0x1_0000_0000;
    if |vs| == 3 then
      if count > CAP then Fail(Unmodelled) else CopyLoop(r, vs[0], vs[1], 0, count, monitor)
    else
      var total := count * n.elem.Bytes();
      if vs[3] != 0 || total > CAP then Fail(Unmodelled)
      else if n.RepMovs? then CopyLoop(r, vs[0], vs[1], 0, total, monitor)
      else FillLoop(r, vs[0], vs[1], n.elem.Bytes(), 0, total)
  }

  function DoMemcall(n: Name, args: seq<Expr>, s: State, cx: Ctx): Res<State>
    requires IsMemcall(n, |args|)
  {
    var vs :- EvalArgs(args, s, cx);
    var r :- MemcallRam(n, vs, s.ram, cx.monitor);
    Ok(s.(ram := r))
  }

  /** `memmove`/`memcpy` at the call boundary: arguments at [esp], [esp+4],
      [esp+8]; the result pointer in eax; then the return-address slot. */
  function CallMemIntrinsic(kind: MemIntrin, s: State, cx: Ctx): Res<(State, U64)> {
    var esp := s.regs[4];
    var dst :- RamLoad(s.ram, esp, 4, cx.monitor);
    var src :- RamLoad(s.ram, Off(esp, 4), 4, cx.monitor);
    var n :- RamLoad(s.ram, Off(esp, 8), 4, cx.monitor);
    if n > CAP || (kind.IntrinMemcpy? && Overlapping(dst, src, n)) then Fail(Unmodelled)
    else
      var copied :- BufferedCopy(s.ram, dst, src, n, cx.monitor);
      var pushed :- PushReturn(s.(ram := copied), cx);
      Ok((pushed.(regs := pushed.regs[0 := dst]), dst))
  }

  /** The source's overlap test for `memcpy`. */
  predicate Overlapping(dst: U64, src: U64, n: U64) {
    dst < Off(src, n) && src < Off(dst, n) && n != 0
  }

  /** Write the return address below esp and record its slot; esp is untouched. */
  function PushReturn(s: State, cx: Ctx): Res<State> {
    var esp: int := s.regs[4];
    var slot := Word.Wrap(esp - 4);
    var pushed :- RamPush(s.ram, slot, cx.ra(|s.retSlots|));
    Ok(s.(ram := pushed, retSlots := s.retSlots + [slot]))
  }

  // ---- addresses -----------------------------------------------------------

  lemma {:induction false} KeyWrap(m: Mem, x: int)
    ensures Key(m, Word.Wrap(x)) == Key(m, x)
  {}

  lemma {:induction false} ModMeets32(x: int, y: int, k: int)
    requires 0 <= k < 0x1_0000_0000
    ensures x % 0x1_0000_0000 == (y + k) % 0x1_0000_0000 <==> (x - y) % 0x1_0000_0000 == k
  {}

  lemma {:induction false} ModMeets64(x: int, y: int, k: int)
    requires 0 <= k < 0x1_0000_0000_0000_0000
    ensures x % 0x1_0000_0000_0000_0000 == (y + k) % 0x1_0000_0000_0000_0000 <==> (x - y) % 0x1_0000_0000_0000_0000 == k
  {}

  /** Byte `j` from `dst` and byte `i` from `src` are the same byte exactly when
      the distance from `src` to `dst` is `i - j`. */
  lemma {:induction false} KeyMeets(m: Mem, dst: U64, src: U64, j: nat, i: nat)
    requires j <= i < Modulus(m)
    ensures Key(m, Off(dst, j)) == Key(m, Off(src, i)) <==> Key(m, dst - src) == i - j
  {
    KeyWrap(m, dst + j);
    KeyWrap(m, src + i);
    hide Word.Wrap;
    assert src + i == (src + j) + (i - j);
    assert dst - src == (dst + j) - (src + j);
    if m.whole { ModMeets32(dst + j, src + j, i - j); } else { ModMeets64(dst + j, src + j, i - j); }
  }

  lemma {:induction false} KeyDistinct(m: Mem, dst: U64, j: nat, i: nat)
    requires j <= i < Modulus(m)
    ensures Key(m, Off(dst, j)) == Key(m, Off(dst, i)) <==> i == j
  {
    KeyMeets(m, dst, dst, j, i);
  }

  // ---- what a store of consecutive bytes leaves ----------------------------

  /** `r` is `r0` with the bytes `bs` stored from `dst` on, nothing else. */
  ghost predicate Patched(r0: Ram, r: Ram, dst: U64, bs: seq<Byte>) {
    && SameShape(r0.mem, r.mem)
    && (forall j :: 0 <= j < |bs| ==> Writable(r0.mem, Off(dst, j)) && Readable(r.mem, Off(dst, j))
                                      && Peek(r.mem, Off(dst, j)) == bs[j])
    && (forall q :: Mapped(r0.mem, q) && Outside(r0.mem, dst, |bs|, q) ==> At(r.mem, q) == At(r0.mem, q))
    && (forall q :: q in r.taint <==> q in r0.taint && Outside(r0.mem, dst, |bs|, q))
  }

  ghost predicate Outside(m: Mem, dst: U64, n: nat, q: Place) {
    forall j :: 0 <= j < n ==> Locate(m, Off(dst, j), 1) != Some(q)
  }

  lemma {:induction false} PatchedUnique(r0: Ram, r1: Ram, r2: Ram, dst: U64, bs: seq<Byte>)
    requires Patched(r0, r1, dst, bs) && Patched(r0, r2, dst, bs)
    ensures r1 == r2
  {
    forall q | Mapped(r1.mem, q)
      ensures At(r1.mem, q) == At(r2.mem, q)
    {
      assert Mapped(r0.mem, q);
      if !Outside(r0.mem, dst, |bs|, q) {
        var j :| 0 <= j < |bs| && Locate(r0.mem, Off(dst, j), 1) == Some(q);
        LocateSameShape(r0.mem, r1.mem, Off(dst, j), 1);
        LocateSameShape(r0.mem, r2.mem, Off(dst, j), 1);
        assert Peek(r1.mem, Off(dst, j)) == bs[j];
        assert Peek(r2.mem, Off(dst, j)) == bs[j];
      }
    }
    MemExtensional(r1.mem, r2.mem);
    assert r1.taint == r2.taint;
  }

  /** One more byte at the end of a patch. */
  lemma {:induction false} PatchStep(r0: Ram, r: Ram, dst: U64, bs: seq<Byte>, b: Byte)
    requires Patched(r0, r, dst, bs) && |bs| < Modulus(r0.mem)
    ensures var a := Off(dst, |bs|);
            var r' := RamWrite(r, a, 1, b);
            && (r'.Ok? <==> Writable(r0.mem, a))
            && (r'.Ok? ==> Patched(r0, r'.v, dst, bs + [b]))
            && (r'.Fail? ==> r'.why == Unmodelled)
  {
    hide Key, Off, Modulus, RamWrite, MemWrite, Locate, Outside;
    var n := |bs|;
    var a := Off(dst, n);
    LocateSameShape(r0.mem, r.mem, a, 1);
    RamWriteByte(r, a, b);
    if Writable(r0.mem, a) {
      var r' := RamWrite(r, a, 1, b).v;
      forall j | 0 <= j <= n
        ensures Writable(r0.mem, Off(dst, j)) && Readable(r'.mem, Off(dst, j))
                && Peek(r'.mem, Off(dst, j)) == (bs + [b])[j]
      {
        LocateSameShape(r0.mem, r'.mem, Off(dst, j), 1);
        LocateSameShape(r0.mem, r.mem, Off(dst, j), 1);
        if j < n {
          KeyDistinct(r0.mem, dst, j, n);
          LocateInjective(r0.mem, Off(dst, j), a);
        }
      }
      forall q
        ensures Outside(r0.mem, dst, n + 1, q) <==> Outside(r0.mem, dst, n, q) && Some(q) != Locate(r0.mem, a, 1)
      {
        OutsideStep(r0.mem, dst, n, q);
      }
    }
  }

  /** A one-byte store on the monitored memory. */
  lemma {:induction false} RamWriteByte(r: Ram, a: U64, b: Byte)
    ensures var res := RamWrite(r, a, 1, b);
            && (res.Ok? <==> Writable(r.mem, a))
            && (res.Fail? ==> res.why == Unmodelled)
            && (res.Ok? ==>
                  && SameShape(r.mem, res.v.mem)
                  && (forall q :: Mapped(r.mem, q) ==>
                                    At(res.v.mem, q) == if Some(q) == Locate(r.mem, a, 1) then b else At(r.mem, q))
                  && (forall q :: q in res.v.taint <==> q in r.taint && Some(q) != Locate(r.mem, a, 1)))
  {
    MemWriteByte(r.mem, a, b);
    hide MemWrite, Locate;
  }

  lemma {:induction false} OutsideStep(m: Mem, dst: U64, n: nat, q: Place)
    ensures Outside(m, dst, n + 1, q) <==> Outside(m, dst, n, q) && Locate(m, Off(dst, n), 1) != Some(q)
  {}

  // ---- closed forms ---------------------------------------------------------

  ghost predicate AllReadable(m: Mem, src: U64, i: nat, n: nat) {
    forall j :: i <= j < n ==> Readable(m, Off(src, j))
  }

  ghost predicate AllWritable(m: Mem, dst: U64, i: nat, n: nat) {
    forall j :: i <= j < n ==> Writable(m, Off(dst, j))
  }

  /** `j mod d`, by repeated subtraction. */
  function Phase(j: nat, d: nat): (r: nat)
    requires d > 0
    ensures r <= j && r < d
  {
    if j < d then j else Phase(j - d, d)
  }

  lemma {:induction false} PhaseIsMod(j: nat, d: nat)
    requires d > 0
    ensures Phase(j, d) == j % d
    decreases j
  {
    if j < d { Word.DivisionUnique(j, d, 0, j); }
    else {
      PhaseIsMod(j - d, d);
      var k := j - d;
      assert j == (k / d + 1) * d + k % d by { assert k == k / d * d + k % d; }
      Word.DivisionUnique(j, d, k / d + 1, k % d);
    }
  }

  ghost function Image(m: Mem, src: U64, period: nat, n: nat): (bs: seq<Byte>)
    requires 0 < period && AllReadable(m, src, 0, n)
    ensures |bs| == n
    ensures forall j :: 0 <= j < n ==> bs[j] == Peek(m, Off(src, Phase(j, period)))
  {
    seq(n, j requires 0 <= j < n => Peek(m, Off(src, Phase(j, period))))
  }

  /** The period with which a forward byte copy repeats its source: the distance
      from source to destination when the copy runs into its own output. */
  function Period(m: Mem, dst: U64, src: U64, n: nat): (p: nat)
    requires n > 0
    ensures p > 0
  {
    var d := Key(m, dst - src);
    if 0 < d < n then d else n
  }

  /** Closed form of the forward byte copy, for every overlap: it succeeds exactly
      when all bytes are accessible, and then destination byte j is the old source
      byte j modulo the period; nothing else changes. */
  lemma {:induction false} CopyClosedForm(r: Ram, dst: U64, src: U64, n: nat)
    requires 0 < n < Modulus(r.mem)
    ensures var res := CopyLoop(r, dst, src, 0, n, false);
            && (res.Ok? <==> AllReadable(r.mem, src, 0, n) && AllWritable(r.mem, dst, 0, n))
            && (res.Fail? ==> res.why == Unmodelled)
            && (res.Ok? ==> Patched(r, res.v, dst, Image(r.mem, src, Period(r.mem, dst, src, n), n)))
  {
    CopyFrom(r, r, dst, src, 0, n);
  }

  lemma {:induction false} CopyFrom(r0: Ram, r: Ram, dst: U64, src: U64, i: nat, n: nat)
    requires i <= n && 0 < n < Modulus(r0.mem)
    requires AllReadable(r0.mem, src, 0, i)
    requires Patched(r0, r, dst, Image(r0.mem, src, Period(r0.mem, dst, src, n), i))
    ensures var res := CopyLoop(r, dst, src, i, n, false);
            && (res.Ok? <==> AllReadable(r0.mem, src, i, n) && AllWritable(r0.mem, dst, i, n))
            && (res.Fail? ==> res.why == Unmodelled)
            && (res.Ok? ==> AllReadable(r0.mem, src, 0, n)
                            && Patched(r0, res.v, dst, Image(r0.mem, src, Period(r0.mem, dst, src, n), n)))
    decreases n - i
  {
    hide RamLoad, RamWrite, Patched, Image, Period, Readable, Writable, Modulus, Off;
    if i < n {
      CopyStep(r0, r, dst, src, i, n);
      var b := RamLoad(r, Off(src, i), 1, false);
      if b.Ok? {
        var r' := RamWrite(r, Off(dst, i), 1, b.v);
        if r'.Ok? { CopyFrom(r0, r'.v, dst, src, i + 1, n); }
      }
    }
  }

  lemma {:induction false} CopyStep(r0: Ram, r: Ram, dst: U64, src: U64, i: nat, n: nat)
    requires i < n < Modulus(r0.mem) && AllReadable(r0.mem, src, 0, i)
    requires Patched(r0, r, dst, Image(r0.mem, src, Period(r0.mem, dst, src, n), i))
    ensures var b := RamLoad(r, Off(src, i), 1, false);
            && (b.Ok? <==> Readable(r0.mem, Off(src, i)))
            && (b.Fail? ==> b.why == Unmodelled)
            && (b.Ok? ==>
                  var r' := RamWrite(r, Off(dst, i), 1, b.v);
                  && (r'.Ok? <==> Writable(r0.mem, Off(dst, i)))
                  && (r'.Fail? ==> r'.why == Unmodelled)
                  && AllReadable(r0.mem, src, 0, i + 1)
                  && (r'.Ok? ==> Patched(r0, r'.v, dst, Image(r0.mem, src, Period(r0.mem, dst, src, n), i + 1))))
  {
    hide Modulus, RamWrite, MemRead, Locate, Off, Period, Image;
    var p := Period(r0.mem, dst, src, n);
    var a := Off(src, i);
    SameReadable(r0, r, dst, Image(r0.mem, src, p, i), a);
    hide Patched;
    MemReadByte(r.mem, a);
    if Readable(r0.mem, a) {
      NextByte(r0, r, dst, src, i, n);
      PatchStep(r0, r, dst, Image(r0.mem, src, p, i), Peek(r.mem, a));
    }
  }

  lemma {:induction false} SameReadable(r0: Ram, r: Ram, dst: U64, bs: seq<Byte>, a: U64)
    requires Patched(r0, r, dst, bs)
    ensures Readable(r.mem, a) <==> Readable(r0.mem, a)
  {
    hide Outside;
    LocateSameShape(r0.mem, r.mem, a, 1);
  }

  /** The image grows by the byte about to be read. */
  lemma {:induction false} NextByte(r0: Ram, r: Ram, dst: U64, src: U64, i: nat, n: nat)
    requires i < n < Modulus(r0.mem) && AllReadable(r0.mem, src, 0, i) && Readable(r0.mem, Off(src, i))
    requires Readable(r.mem, Off(src, i))
    requires Patched(r0, r, dst, Image(r0.mem, src, Period(r0.mem, dst, src, n), i))
    ensures AllReadable(r0.mem, src, 0, i + 1)
    ensures var p := Period(r0.mem, dst, src, n);
            Image(r0.mem, src, p, i + 1) == Image(r0.mem, src, p, i) + [Peek(r.mem, Off(src, i))]
  {
    hide Key, Word.Wrap, Modulus, Patched, Peek, Readable, Off;
    SourceByte(r0, r, dst, src, i, n);
  }

  /** The byte about to be read: untouched so far, or the copy's own output one
      period earlier. */
  lemma {:induction false} SourceByte(r0: Ram, r: Ram, dst: U64, src: U64, i: nat, n: nat)
    requires i < n < Modulus(r0.mem)
    requires AllReadable(r0.mem, src, 0, i + 1)
    requires Patched(r0, r, dst, Image(r0.mem, src, Period(r0.mem, dst, src, n), i))
    ensures Readable(r.mem, Off(src, i))
    ensures var p := Period(r0.mem, dst, src, n);
            Peek(r.mem, Off(src, i)) == Peek(r0.mem, Off(src, Phase(i, p)))
  {
    hide Key, Modulus, Off, Patched, Image;
    var p := Period(r0.mem, dst, src, n);
    var d := Key(r0.mem, dst - src);
    assert Readable(r0.mem, Off(src, i));
    if 0 < d <= i {
      KeyMeets(r0.mem, dst, src, i - d, i);
      PatchedAt(r0, r, dst, Image(r0.mem, src, p, i), i - d);
      SamePlace(r, Off(dst, i - d), Off(src, i), r0.mem);
    } else {
      forall j: nat | j < i ensures Key(r0.mem, Off(dst, j)) != Key(r0.mem, Off(src, i)) { KeyMeets(r0.mem, dst, src, j, i); }
      PatchedAside(r0, r, dst, Image(r0.mem, src, p, i), Off(src, i));
    }
  }

  /** Equal keys, same byte. */
  lemma {:induction false} SamePlace(r: Ram, a: U64, b: U64, m: Mem)
    requires SameShape(m, r.mem) && Key(m, a) == Key(m, b) && Readable(r.mem, a)
    ensures Readable(r.mem, b) && Peek(r.mem, a) == Peek(r.mem, b)
  {}

  /** A stored byte reads back. */
  lemma {:induction false} PatchedAt(r0: Ram, r: Ram, dst: U64, bs: seq<Byte>, j: nat)
    requires Patched(r0, r, dst, bs) && j < |bs|
    ensures SameShape(r0.mem, r.mem) && Readable(r.mem, Off(dst, j)) && Peek(r.mem, Off(dst, j)) == bs[j]
  {
    hide Outside, Off, Readable, Writable, SameShape;
  }

  /** A byte at another address keeps its value. */
  lemma {:induction false} PatchedAside(r0: Ram, r: Ram, dst: U64, bs: seq<Byte>, a: U64)
    requires Patched(r0, r, dst, bs) && Readable(r0.mem, a)
    requires forall j: nat :: j < |bs| ==> Key(r0.mem, Off(dst, j)) != Key(r0.mem, a)
    ensures Readable(r.mem, a) && Peek(r.mem, a) == Peek(r0.mem, a)
  {
    hide Key, Off, Locate;
    var q := Locate(r0.mem, a, 1).value;
    forall j | 0 <= j < |bs| ensures Locate(r0.mem, Off(dst, j), 1) != Some(q) {
      assert Writable(r0.mem, Off(dst, j));
      LocateInjective(r0.mem, Off(dst, j), a);
    }
    assert Outside(r0.mem, dst, |bs|, q);
    LocateSameShape(r0.mem, r.mem, a, 1);
  }

  lemma {:induction false} AllReadableStep(m: Mem, src: U64, i: nat, n: nat)
    requires i <= n
    ensures AllReadable(m, src, i, n) <==> i == n || (Readable(m, Off(src, i)) && AllReadable(m, src, i + 1, n))
    ensures AllReadable(m, src, i, n) ==> forall j :: i <= j < n ==> Readable(m, Off(src, j))
  {
    hide Readable, Off;
    if i < n && Readable(m, Off(src, i)) && AllReadable(m, src, i + 1, n) {
      forall j | i <= j < n ensures Readable(m, Off(src, j)) { if j > i { assert j >= i + 1; } }
    }
  }

  lemma {:induction false} GatherClosedForm(r: Ram, src: U64, i: nat, n: nat)
    requires i <= n
    ensures var res := Gather(r, src, i, n, false);
            && (res.Ok? <==> AllReadable(r.mem, src, i, n))
            && (res.Fail? ==> res.why == Unmodelled)
            && (res.Ok? ==> forall j :: i <= j < n ==> res.v[j - i] == Peek(r.mem, Off(src, j)))
    decreases n - i
  {
    hide MemRead, Off, Locate, Peek, AllReadable;
    AllReadableStep(r.mem, src, i, n);
    if i < n {
      MemReadByte(r.mem, Off(src, i));
      GatherClosedForm(r, src, i + 1, n);
    }
  }

  lemma {:induction false} ScatterClosedForm(r0: Ram, r: Ram, dst: U64, buf: seq<Byte>, i: nat)
    requires i <= |buf| < Modulus(r0.mem) && Patched(r0, r, dst, buf[..i])
    ensures var res := Scatter(r, dst, buf, i);
            && (res.Ok? <==> AllWritable(r0.mem, dst, i, |buf|))
            && (res.Fail? ==> res.why == Unmodelled)
            && (res.Ok? ==> Patched(r0, res.v, dst, buf))
    decreases |buf| - i
  {
    hide RamWrite, Patched, Writable, Modulus, Off;
    if i == |buf| {
      assert buf[..i] == buf;
    } else {
      PatchStep(r0, r, dst, buf[..i], buf[i]);
      assert buf[..i] + [buf[i]] == buf[..i + 1];
      var r' := RamWrite(r, Off(dst, i), 1, buf[i]);
      if r'.Ok? { ScatterClosedForm(r0, r'.v, dst, buf, i + 1); }
    }
  }

  /** The forward byte loop and the read-all-then-write intrinsic agree, on
      success and on skip, whenever the destination is not inside the source
      range above its start. */
  lemma {:induction false} ForwardIsBuffered(r: Ram, dst: U64, src: U64, n: nat)
    requires n < Modulus(r.mem)
    requires Key(r.mem, dst - src) == 0 || Key(r.mem, dst - src) >= n
    ensures CopyLoop(r, dst, src, 0, n, false) == BufferedCopy(r, dst, src, n, false)
  {
    hide Key, Modulus, RamLoad, RamWrite, Readable, Writable, Off;
    GatherClosedForm(r, src, 0, n);
    var buf := Gather(r, src, 0, n, false);
    if n == 0 {
      assert buf == Ok([]);
    } else {
      CopyClosedForm(r, dst, src, n);
      if buf.Ok? {
        assert Patched(r, r, dst, buf.v[..0]);
        ScatterClosedForm(r, r, dst, buf.v, 0);
        assert buf.v == Image(r.mem, src, n, n);
        var c, s := CopyLoop(r, dst, src, 0, n, false), Scatter(r, dst, buf.v, 0);
        if c.Ok? { PatchedUnique(r, c.v, s.v, dst, buf.v); }
      }
    }
  }

  /** What a fill stores. */
  function FillBytes(val: U64, elem: nat, n: nat): (bs: seq<Byte>)
    requires elem > 0
    ensures |bs| == n && forall j :: 0 <= j < n ==> bs[j] == FillByte(val, elem, j)
  {
    seq(n, j requires 0 <= j < n => FillByte(val, elem, j))
  }

  /** `rep stos`: destination byte j is byte `j mod elem` of the stored value. */
  lemma {:induction false} FillClosedForm(r: Ram, dst: U64, val: U64, elem: nat, n: nat)
    requires 0 < elem && n < Modulus(r.mem)
    ensures var res := FillLoop(r, dst, val, elem, 0, n);
            && (res.Ok? <==> AllWritable(r.mem, dst, 0, n))
            && (res.Ok? ==> Patched(r, res.v, dst, FillBytes(val, elem, n)))
  {
    var buf := FillBytes(val, elem, n);
    assert Patched(r, r, dst, buf[..0]);
    FillIsScatter(r, dst, val, elem, buf, 0);
    ScatterClosedForm(r, r, dst, buf, 0);
  }

  lemma {:induction false} FillIsScatter(r: Ram, dst: U64, val: U64, elem: nat, buf: seq<Byte>, i: nat)
    requires 0 < elem && i <= |buf|
    requires forall j :: 0 <= j < |buf| ==> buf[j] == FillByte(val, elem, j)
    ensures FillLoop(r, dst, val, elem, i, |buf|) == Scatter(r, dst, buf, i)
    decreases |buf| - i
  {
    hide RamWrite, Off;
    if i < |buf| {
      var r' := RamWrite(r, Off(dst, i), 1, buf[i]);
      if r'.Ok? { FillIsScatter(r'.v, dst, val, elem, buf, i + 1); }
    }
  }

  /** The forward byte loop, then the return-address slot and eax. */
  function LoopThenPush(s: State, cx: Ctx, dst: U64, src: U64, n: nat): Res<(State, U64)> {
    var copied :- CopyLoop(s.ram, dst, src, 0, n, false);
    var pushed :- PushReturn(s.(ram := copied), cx);
    Ok((pushed.(regs := pushed.regs[0 := dst]), dst))
  }

  /** The host-backed intrinsic is the forward byte loop followed by its push, success
      and skip alike, for any arguments under the cap that are not a refused overlap,
      whenever the destination does not start inside the source range above its
      start. */
  lemma {:induction false} IntrinsicIsForwardCopy(kind: MemIntrin, s: State, cx: Ctx, dst: U64, src: U64, n: U64)
    requires !cx.monitor && n <= CAP && !(kind.IntrinMemcpy? && Overlapping(dst, src, n))
    requires RamLoad(s.ram, s.regs[4], 4, false) == Ok(dst)
    requires RamLoad(s.ram, Off(s.regs[4], 4), 4, false) == Ok(src)
    requires RamLoad(s.ram, Off(s.regs[4], 8), 4, false) == Ok(n)
    requires Key(s.ram.mem, dst - src) == 0 || Key(s.ram.mem, dst - src) >= n
    ensures CallMemIntrinsic(kind, s, cx) == LoopThenPush(s, cx, dst, src, n)
  {
    hide Key, RamLoad, PushReturn, CopyLoop, Off, BufferedCopy, Overlapping;
    CapBelowModulus(s.ram.mem);
    ForwardIsBuffered(s.ram, dst, src, n);
  }

  lemma {:induction false} CapBelowModulus(m: Mem)
    ensures CAP < Modulus(m)
  {}
}
