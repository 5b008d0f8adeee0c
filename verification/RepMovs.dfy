/** `__rep_movsW` (src/cpudiff.rs:241-266): the byte loop against the x86
    instruction, which moves whole elements (REP MOVS, Intel SDM volume 2). */
module RepMovs {
  import opened Basics
  import opened Ir
  import opened Memory
  import opened StringOps
  import Word

  /** `count` elements of `w` bytes from offset `at` on; all bytes of an element
      are read before any is written. */
  function ElementCopy(r: Ram, dst: U64, src: U64, w: nat, at: nat, count: nat): (res: Res<Ram>)
    decreases count
  {
    if count == 0 then Ok(r)
    else
      var r' :- BufferedCopy(r, Off(dst, at), Off(src, at), w, false);
      ElementCopy(r', dst, src, w, at + w, count - 1)
  }

  /** `count * w`, by repeated addition. */
  function Total(w: nat, count: nat): nat {
    if count == 0 then 0 else w + Total(w, count - 1)
  }

  lemma {:induction false} TotalIsProduct(w: nat, count: nat)
    ensures Total(w, count) == count * w
  {
    if count > 0 {
      TotalIsProduct(w, count - 1);
      assert count * w == (count - 1) * w + w;
    }
  }

  function Then(x: Res<Ram>, dst: U64, src: U64, i: nat, n: nat): Res<Ram>
    requires i <= n
  {
    var r :- x;
    CopyLoop(r, dst, src, i, n, false)
  }

  lemma {:induction false} CopySplit(r: Ram, dst: U64, src: U64, i: nat, k: nat, n: nat)
    requires i <= k <= n
    ensures CopyLoop(r, dst, src, i, n, false) == Then(CopyLoop(r, dst, src, i, k, false), dst, src, k, n)
    decreases k - i
  {
    hide RamLoad, RamWrite, Off;
    if i < k {
      var b := RamLoad(r, Off(src, i), 1, false);
      if b.Ok? {
        var r' := RamWrite(r, Off(dst, i), 1, b.v);
        if r'.Ok? { CopySplit(r'.v, dst, src, i + 1, k, n); }
      }
    }
  }

  lemma {:induction false} OffAdd(a: U64, k: nat, i: nat)
    ensures Off(Off(a, k), i) == Off(a, k + i)
  {}

  lemma {:induction false} CopyShift(r: Ram, dst: U64, src: U64, k: nat, i: nat, n: nat)
    requires i <= n
    ensures CopyLoop(r, Off(dst, k), Off(src, k), i, n, false) == CopyLoop(r, dst, src, k + i, k + n, false)
    decreases n - i
  {
    hide RamLoad, RamWrite, Off;
    if i < n {
      OffAdd(dst, k, i);
      OffAdd(src, k, i);
      var b := RamLoad(r, Off(src, k + i), 1, false);
      if b.Ok? {
        var r' := RamWrite(r, Off(dst, k + i), 1, b.v);
        if r'.Ok? { CopyShift(r'.v, dst, src, k, i + 1, n); }
      }
    }
  }

  lemma {:induction false} KeyShift(m: Mem, dst: U64, src: U64, k: nat)
    ensures Key(m, Off(dst, k) - Off(src, k)) == Key(m, dst - src)
  {
    assert forall x: int :: Word.Wrap(x) == x - 0x1_0000_0000_0000_0000 * (x / 0x1_0000_0000_0000_0000);
  }

  lemma {:induction false} ElementsAreBytes(r: Ram, dst: U64, src: U64, w: nat, at: nat, count: nat)
    requires w < Modulus(r.mem)
    requires Key(r.mem, dst - src) == 0 || Key(r.mem, dst - src) >= w
    ensures CopyLoop(r, dst, src, at, at + Total(w, count), false) == ElementCopy(r, dst, src, w, at, count)
    decreases count
  {
    hide BufferedCopy, Off, Key, Modulus, CopyLoop;
    if count == 0 {
      CopyDone(r, dst, src, at);
    } else {
      var n := at + Total(w, count);
      CopySplit(r, dst, src, at, at + w, n);
      CopyShift(r, dst, src, at, 0, w);
      KeyShift(r.mem, dst, src, at);
      ForwardIsBuffered(r, Off(dst, at), Off(src, at), w);
      var r' := BufferedCopy(r, Off(dst, at), Off(src, at), w, false);
      if r'.Ok? {
        SameKey(r.mem, r'.v.mem, dst - src);
        ElementsAreBytes(r'.v, dst, src, w, at + w, count - 1);
      }
    }
  }

  lemma {:induction false} CopyDone(r: Ram, dst: U64, src: U64, n: nat)
    ensures CopyLoop(r, dst, src, n, n, false) == Ok(r)
  {}

  lemma {:induction false} SameKey(m: Mem, m': Mem, x: int)
    requires m.whole == m'.whole
    ensures Key(m, x) == Key(m', x) && Modulus(m) == Modulus(m')
  {}

  lemma {:induction false} ShapeIsWhole(m: Mem, m': Mem)
    requires SameShape(m, m')
    ensures m.whole == m'.whole
  {}

  /** `__rep_movsW` moves what the instruction moves, for every count under the
      cap, when the destination is not 1 to W-1 bytes above the source. */
  lemma {:induction false} RepMovsIsElementCopy(w: Width, dst: U64, src: U64, count: U64, r: Ram)
    requires count < TWO32 && count * w.Bytes() <= CAP
    requires Key(r.mem, dst - src) == 0 || Key(r.mem, dst - src) >= w.Bytes()
    ensures MemcallRam(RepMovs(w), [dst, src, count, 0], r, false) == ElementCopy(r, dst, src, w.Bytes(), 0, count)
  {
    hide Key, Modulus, CopyLoop, ElementCopy, FillLoop;
    TotalIsProduct(w.Bytes(), count);
    CapBelowModulus(r.mem);
    ElementsAreBytes(r, dst, src, w.Bytes(), 0, count);
  }

  // ---- the excluded distances really differ ----------------------------------

  ghost predicate Accessible(m: Mem, dst: U64, src: U64, n: nat) {
    AllReadable(m, src, 0, n) && AllWritable(m, dst, 0, n)
  }

  lemma {:induction false} AccessibleSameShape(m: Mem, m': Mem, dst: U64, src: U64, n: nat)
    requires SameShape(m, m') && Accessible(m, dst, src, n)
    ensures Accessible(m', dst, src, n)
  {
    forall j | 0 <= j < n
      ensures Readable(m', Off(src, j)) && Writable(m', Off(dst, j))
    {
      assert Readable(m, Off(src, j)) && Writable(m, Off(dst, j));
      LocateSameShape(m, m', Off(src, j), 1);
      LocateSameShape(m, m', Off(dst, j), 1);
    }
  }

  predicate SamePeek(m: Mem, a: U64, m': Mem, a': U64) {
    Readable(m, a) && Readable(m', a') && Peek(m, a) == Peek(m', a')
  }

  /** One element between accessible ranges: read whole, then stored whole. */
  lemma {:induction false} ElementBuffer(r: Ram, d: U64, s: U64, w: nat) returns (buf: seq<Byte>)
    requires w < Modulus(r.mem) && AllReadable(r.mem, s, 0, w) && AllWritable(r.mem, d, 0, w)
    ensures |buf| == w && forall j :: 0 <= j < w ==> buf[j] == Peek(r.mem, Off(s, j))
    ensures var res := BufferedCopy(r, d, s, w, false); res.Ok? && Patched(r, res.v, d, buf)
  {
    hide Key, Modulus, RamLoad, RamWrite, Off, Writable;
    GatherClosedForm(r, s, 0, w);
    buf := Gather(r, s, 0, w, false).v;
    assert Patched(r, r, d, buf[..0]);
    hide Patched;
    ScatterClosedForm(r, r, d, buf, 0);
  }

  lemma {:induction false} ElementAccess(m: Mem, dst: U64, src: U64, at: nat, w: nat, n: nat)
    requires at + w <= n && Accessible(m, dst, src, n)
    ensures AllReadable(m, Off(src, at), 0, w) && AllWritable(m, Off(dst, at), 0, w)
  {
    hide Readable, Writable, Off;
    forall j | 0 <= j < w ensures Readable(m, Off(Off(src, at), j)) && Writable(m, Off(Off(dst, at), j)) {
      OffAdd(src, at, j);
      OffAdd(dst, at, j);
      assert Readable(m, Off(src, at + j)) && Writable(m, Off(dst, at + j));
    }
  }

  lemma {:induction false} ElementByte(r: Ram, r': Ram, dst: U64, src: U64, at: nat, buf: seq<Byte>, j: nat)
    requires Patched(r, r', Off(dst, at), buf) && at <= j < at + |buf|
    requires Readable(r.mem, Off(Off(src, at), j - at)) && buf[j - at] == Peek(r.mem, Off(Off(src, at), j - at))
    ensures SamePeek(r.mem, Off(src, j), r'.mem, Off(dst, j))
  {
    hide Off, Readable, Writable, Outside, SameShape;
    OffAdd(dst, at, j - at);
    OffAdd(src, at, j - at);
    assert Readable(r'.mem, Off(Off(dst, at), j - at));
  }

  /** One element: its destination bytes, and every destination byte before it. */
  lemma {:induction false} OneElement(r: Ram, dst: U64, src: U64, at: nat, w: nat, n: nat)
    requires at + w <= n < Modulus(r.mem) && Accessible(r.mem, dst, src, n)
    ensures var res := BufferedCopy(r, Off(dst, at), Off(src, at), w, false);
            && res.Ok? && SameShape(r.mem, res.v.mem) && Accessible(res.v.mem, dst, src, n)
            && (forall j :: 0 <= j < at ==> SamePeek(r.mem, Off(dst, j), res.v.mem, Off(dst, j)))
            && (forall j :: at <= j < at + w ==> SamePeek(r.mem, Off(src, j), res.v.mem, Off(dst, j)))
  {
    ElementAccess(r.mem, dst, src, at, w, n);
    var buf := ElementBuffer(r, Off(dst, at), Off(src, at), w);
    hide Modulus, Off, BufferedCopy, AllReadable, AllWritable, SamePeek, Readable;
    var r' := BufferedCopy(r, Off(dst, at), Off(src, at), w, false).v;
    assert SameShape(r.mem, r'.mem);
    hide Patched, SameShape;
    AccessibleSameShape(r.mem, r'.mem, dst, src, n);
    forall j | 0 <= j < at ensures SamePeek(r.mem, Off(dst, j), r'.mem, Off(dst, j)) {
      BeforePatch(r, r', dst, at, buf, j, n);
    }
    forall j | at <= j < at + w ensures SamePeek(r.mem, Off(src, j), r'.mem, Off(dst, j)) {
      ReadableAt(r.mem, Off(src, at), j - at, w);
      ElementByte(r, r', dst, src, at, buf, j);
    }
  }

  lemma {:induction false} ReadableAt(m: Mem, src: U64, j: nat, n: nat)
    requires AllReadable(m, src, 0, n) && j < n
    ensures Readable(m, Off(src, j))
  {}

  lemma {:induction false} BeforePatch(r: Ram, r': Ram, dst: U64, at: nat, buf: seq<Byte>, j: nat, n: nat)
    requires j < at && at + |buf| <= n < Modulus(r.mem) && AllWritable(r.mem, dst, 0, n)
    requires Patched(r, r', Off(dst, at), buf)
    ensures SamePeek(r.mem, Off(dst, j), r'.mem, Off(dst, j))
  {
    hide Key, Modulus, Locate, Off;
    assert Writable(r.mem, Off(dst, j));
    LocateSameShape(r.mem, r'.mem, Off(dst, j), 1);
    var q := Locate(r.mem, Off(dst, j), 1).value;
    forall i | 0 <= i < |buf|
      ensures Locate(r.mem, Off(Off(dst, at), i), 1) != Some(q)
    {
      OffAdd(dst, at, i);
      assert Writable(r.mem, Off(dst, at + i));
      KeyDistinct(r.mem, dst, j, at + i);
      LocateInjective(r.mem, Off(dst, j), Off(dst, at + i));
    }
    assert Outside(r.mem, Off(dst, at), |buf|, q);
  }

  /** Later elements leave the destination bytes before them alone. */
  lemma {:induction false} LaterElements(r: Ram, dst: U64, src: U64, w: nat, at: nat, count: nat, n: nat, j: nat)
    requires j < at && at + Total(w, count) <= n < Modulus(r.mem) && Accessible(r.mem, dst, src, n)
    ensures var res := ElementCopy(r, dst, src, w, at, count);
            res.Ok? && SamePeek(r.mem, Off(dst, j), res.v.mem, Off(dst, j))
    decreases count
  {
    hide BufferedCopy, Off, Key, Modulus, SameShape, AllReadable;
    if count > 0 {
      OneElement(r, dst, src, at, w, n);
      var r' := BufferedCopy(r, Off(dst, at), Off(src, at), w, false).v;
      assert SamePeek(r.mem, Off(dst, j), r'.mem, Off(dst, j));
      ShapeIsWhole(r.mem, r'.mem);
      SameKey(r.mem, r'.mem, 0);
      LaterElements(r', dst, src, w, at + w, count - 1, n, j);
    } else {
      assert Writable(r.mem, Off(dst, j));
    }
  }

  /** When the destination is `d` bytes above the source with 0 < d < W, the two
      disagree on any memory whose source bytes 0 and d differ. */
  lemma {:induction false} RepMovsDiffers(r: Ram, dst: U64, src: U64, w: nat, count: nat)
    requires count > 0 && Total(w, count) < Modulus(r.mem) && Accessible(r.mem, dst, src, Total(w, count))
    requires 0 < Key(r.mem, dst - src) < w
    requires Readable(r.mem, Off(src, 0)) && Readable(r.mem, Off(src, Key(r.mem, dst - src)))
    requires Peek(r.mem, Off(src, 0)) != Peek(r.mem, Off(src, Key(r.mem, dst - src)))
    ensures CopyLoop(r, dst, src, 0, Total(w, count), false) != ElementCopy(r, dst, src, w, 0, count)
  {
    hide BufferedCopy, Off, Key, Modulus, CopyLoop, Readable, SameShape, AllReadable, AllWritable;
    var d := Key(r.mem, dst - src);
    var n := Total(w, count);
    ByteLoopAt(r, dst, src, n, d);
    OneElement(r, dst, src, 0, w, n);
    var r' := BufferedCopy(r, Off(dst, 0), Off(src, 0), w, false).v;
    assert SamePeek(r.mem, Off(src, d), r'.mem, Off(dst, d));
    ShapeIsWhole(r.mem, r'.mem);
    SameKey(r.mem, r'.mem, 0);
    LaterElements(r', dst, src, w, w, count - 1, n, d);
  }

  lemma {:induction false} ByteLoopAt(r: Ram, dst: U64, src: U64, n: nat, d: nat)
    requires 0 < d == Key(r.mem, dst - src) < n < Modulus(r.mem) && Accessible(r.mem, dst, src, n)
    ensures var res := CopyLoop(r, dst, src, 0, n, false);
            res.Ok? && SamePeek(r.mem, Off(src, 0), res.v.mem, Off(dst, d))
  {
    hide Off, Key, Modulus, CopyLoop;
    CopyClosedForm(r, dst, src, n);
    assert Phase(d, d) == 0;
    assert Readable(r.mem, Off(src, 0));
  }

  // ---- when the element copy succeeds ---------------------------------------------

  lemma {:induction false} AccessShift(m: Mem, a: U64, at: nat, w: nat)
    ensures AllReadable(m, Off(a, at), 0, w) <==> AllReadable(m, a, at, at + w)
    ensures AllWritable(m, Off(a, at), 0, w) <==> AllWritable(m, a, at, at + w)
  {
    hide Readable, Writable, Off;
    forall j: nat ensures Off(Off(a, at), j) == Off(a, at + j) { OffAdd(a, at, j); }
    if AllReadable(m, Off(a, at), 0, w) {
      forall j | at <= j < at + w ensures Readable(m, Off(a, j)) { assert Readable(m, Off(Off(a, at), j - at)); }
    }
    if AllWritable(m, Off(a, at), 0, w) {
      forall j | at <= j < at + w ensures Writable(m, Off(a, j)) { assert Writable(m, Off(Off(a, at), j - at)); }
    }
    if AllReadable(m, a, at, at + w) {
      forall j | 0 <= j < w ensures Readable(m, Off(Off(a, at), j)) { assert Readable(m, Off(a, at + j)); }
    }
    if AllWritable(m, a, at, at + w) {
      forall j | 0 <= j < w ensures Writable(m, Off(Off(a, at), j)) { assert Writable(m, Off(a, at + j)); }
    }
  }

  /** One element succeeds exactly when its bytes are accessible. */
  lemma {:induction false} ElementSucceeds(r: Ram, dst: U64, src: U64, at: nat, w: nat)
    requires w < Modulus(r.mem)
    ensures var res := BufferedCopy(r, Off(dst, at), Off(src, at), w, false);
            && (res.Ok? <==> AllReadable(r.mem, src, at, at + w) && AllWritable(r.mem, dst, at, at + w))
            && (res.Fail? ==> res.why == Unmodelled)
            && (res.Ok? ==> SameShape(r.mem, res.v.mem))
  {
    AccessShift(r.mem, src, at, w);
    AccessShift(r.mem, dst, at, w);
    hide Modulus, RamLoad, RamWrite, Off, AllReadable, AllWritable, Outside, Readable, Writable;
    GatherClosedForm(r, Off(src, at), 0, w);
    var buf := Gather(r, Off(src, at), 0, w, false);
    if buf.Ok? {
      assert Patched(r, r, Off(dst, at), buf.v[..0]) by { NothingPatched(r, Off(dst, at), buf.v); }
      ScatterClosedForm(r, r, Off(dst, at), buf.v, 0);
    }
  }

  lemma {:induction false} NothingPatched(r: Ram, dst: U64, buf: seq<Byte>)
    ensures Patched(r, r, dst, buf[..0])
  {}

  lemma {:induction false} AccessSplit(m: Mem, m': Mem, a: U64, i: nat, k: nat, n: nat)
    requires SameShape(m, m') && i <= k <= n
    ensures AllReadable(m, a, i, n) <==> AllReadable(m, a, i, k) && AllReadable(m', a, k, n)
    ensures AllWritable(m, a, i, n) <==> AllWritable(m, a, i, k) && AllWritable(m', a, k, n)
  {
    forall j: nat ensures Readable(m, Off(a, j)) == Readable(m', Off(a, j)) && Writable(m, Off(a, j)) == Writable(m', Off(a, j)) {
      LocateSameShape(m, m', Off(a, j), 1);
    }
    hide Readable, Writable, Off;
  }

  /** The element copy succeeds exactly on an accessible range. */
  lemma {:induction false} ElementCopySucceeds(r: Ram, dst: U64, src: U64, w: nat, at: nat, count: nat)
    requires w < Modulus(r.mem)
    ensures var res := ElementCopy(r, dst, src, w, at, count);
            var n := at + Total(w, count);
            && (res.Ok? <==> AllReadable(r.mem, src, at, n) && AllWritable(r.mem, dst, at, n))
            && (res.Fail? ==> res.why == Unmodelled)
    decreases count
  {
    hide BufferedCopy, Off, Modulus, AllReadable, AllWritable, SameShape;
    if count == 0 {
      NothingToAccess(r.mem, src, at);
      NothingToAccess(r.mem, dst, at);
    } else {
      var n := at + Total(w, count);
      ElementSucceeds(r, dst, src, at, w);
      var r' := BufferedCopy(r, Off(dst, at), Off(src, at), w, false);
      SelfShape(r.mem);
      AccessSplit(r.mem, r.mem, src, at, at + w, n);
      AccessSplit(r.mem, r.mem, dst, at, at + w, n);
      if r'.Ok? {
        ShapeIsWhole(r.mem, r'.v.mem);
        SameKey(r.mem, r'.v.mem, 0);
        AccessSplit(r.mem, r'.v.mem, src, at, at + w, n);
        AccessSplit(r.mem, r'.v.mem, dst, at, at + w, n);
        ElementCopySucceeds(r'.v, dst, src, w, at + w, count - 1);
      }
    }
  }

  lemma {:induction false} NothingToAccess(m: Mem, a: U64, i: nat)
    ensures AllReadable(m, a, i, i) && AllWritable(m, a, i, i)
  {}

  lemma {:induction false} SelfShape(m: Mem)
    ensures SameShape(m, m)
  {}

  /** Both copies skip alike on a range that is not accessible. */
  lemma {:induction false} BothSkip(r: Ram, dst: U64, src: U64, w: nat, count: nat)
    requires w < Modulus(r.mem) && 0 < Total(w, count) < Modulus(r.mem) && !Accessible(r.mem, dst, src, Total(w, count))
    ensures CopyLoop(r, dst, src, 0, Total(w, count), false) == Fail(Unmodelled)
    ensures ElementCopy(r, dst, src, w, 0, count) == Fail(Unmodelled)
  {
    hide Modulus, AllReadable, AllWritable, CopyLoop, ElementCopy;
    CopyClosedForm(r, dst, src, Total(w, count));
    ElementCopySucceeds(r, dst, src, w, 0, count);
  }

  /** Under the cap the call is the byte loop over all bytes of its elements. */
  lemma {:induction false} MemcallIsLoop(w: Width, dst: U64, src: U64, count: U64, r: Ram)
    requires count < TWO32 && Total(w.Bytes(), count) <= CAP
    ensures MemcallRam(RepMovs(w), [dst, src, count, 0], r, false) == CopyLoop(r, dst, src, 0, Total(w.Bytes(), count), false)
  {
    hide CopyLoop, FillLoop;
    TotalIsProduct(w.Bytes(), count);
  }

  /** Exactly when `__rep_movsW` is the instruction on every memory content, for every
      mapping and every count under the cap: when nothing is copied, the range is not
      accessible (both skip), or the distance from source to destination is 0 or at
      least one element. */
  lemma {:induction false} RepMovsExact(w: Width, m: Mem, taint: set<Place>, dst: U64, src: U64, count: U64)
    requires count < TWO32 && Total(w.Bytes(), count) <= CAP
    ensures (forall m' :: SameShape(m, m') ==>
                            MemcallRam(RepMovs(w), [dst, src, count, 0], Ram(m', taint), false)
                            == ElementCopy(Ram(m', taint), dst, src, w.Bytes(), 0, count))
            <==> || count == 0 || !Accessible(m, dst, src, Total(w.Bytes(), count))
                 || Key(m, dst - src) == 0 || Key(m, dst - src) >= w.Bytes()
  {
    hide Key, Modulus, CopyLoop, ElementCopy, Accessible, Readable, MemcallRam, Total, SameShape;
    if count == 0 || !Accessible(m, dst, src, Total(w.Bytes(), count)) || Key(m, dst - src) == 0 || Key(m, dst - src) >= w.Bytes() {
      forall m' | SameShape(m, m')
        ensures MemcallRam(RepMovs(w), [dst, src, count, 0], Ram(m', taint), false)
                == ElementCopy(Ram(m', taint), dst, src, w.Bytes(), 0, count)
      {
        ExactAgrees(w, m, m', taint, dst, src, count);
      }
    } else {
      var m' := ExactDiffers(w, m, taint, dst, src, count);
    }
  }

  lemma {:induction false} ExactAgrees(w: Width, m: Mem, m': Mem, taint: set<Place>, dst: U64, src: U64, count: U64)
    requires SameShape(m, m') && count < TWO32 && Total(w.Bytes(), count) <= CAP
    requires || count == 0 || !Accessible(m, dst, src, Total(w.Bytes(), count))
             || Key(m, dst - src) == 0 || Key(m, dst - src) >= w.Bytes()
    ensures MemcallRam(RepMovs(w), [dst, src, count, 0], Ram(m', taint), false)
            == ElementCopy(Ram(m', taint), dst, src, w.Bytes(), 0, count)
  {
    hide Key, Modulus, CopyLoop, Accessible, MemcallRam, SameShape;
    CapBelowModulus(m');
    ShapeIsWhole(m, m');
    SameKey(m, m', dst - src);
    var r := Ram(m', taint);
    MemcallIsLoop(w, dst, src, count, r);
    if count == 0 {
      CopyDone(r, dst, src, 0);
    } else if Key(m, dst - src) == 0 || Key(m, dst - src) >= w.Bytes() {
      hide ElementCopy, Total;
      ElementsAreBytes(r, dst, src, w.Bytes(), 0, count);
    } else {
      TotalAtLeast(w.Bytes(), count);
      hide ElementCopy, Total;
      InaccessibleToo(m, m', dst, src, Total(w.Bytes(), count));
      BothSkip(r, dst, src, w.Bytes(), count);
    }
  }

  lemma {:induction false} TotalAtLeast(w: nat, count: nat)
    requires count > 0
    ensures Total(w, count) >= w
  {}

  /** A memory on which they differ. */
  lemma {:induction false} ExactDiffers(w: Width, m: Mem, taint: set<Place>, dst: U64, src: U64, count: U64) returns (m': Mem)
    requires 0 < count < TWO32 && Total(w.Bytes(), count) <= CAP && Accessible(m, dst, src, Total(w.Bytes(), count))
    requires 0 < Key(m, dst - src) < w.Bytes()
    ensures SameShape(m, m')
    ensures MemcallRam(RepMovs(w), [dst, src, count, 0], Ram(m', taint), false)
            != ElementCopy(Ram(m', taint), dst, src, w.Bytes(), 0, count)
  {
    TotalAtLeast(w.Bytes(), count);
    hide Key, Modulus, CopyLoop, Accessible, MemcallRam, SameShape, ElementCopy, Total, Readable;
    CapBelowModulus(m);
    m' := Distinguish(m, src, Key(m, dst - src), dst, Total(w.Bytes(), count));
    ShapeIsWhole(m, m');
    SameKey(m, m', dst - src);
    AccessibleSameShape(m, m', dst, src, Total(w.Bytes(), count));
    RepMovsDiffers(Ram(m', taint), dst, src, w.Bytes(), count);
    MemcallIsLoop(w, dst, src, count, Ram(m', taint));
  }

  lemma {:induction false} InaccessibleToo(m: Mem, m': Mem, dst: U64, src: U64, n: nat)
    requires SameShape(m, m') && !Accessible(m, dst, src, n)
    ensures !Accessible(m', dst, src, n)
  {
    hide Accessible;
    if Accessible(m', dst, src, n) {
      assert SameShape(m', m);
      AccessibleSameShape(m', m, dst, src, n);
    }
  }

  /** A content of the same mapping in which source bytes 0 and `d` differ. */
  lemma {:induction false} Distinguish(m: Mem, src: U64, d: nat, dst: U64, n: nat) returns (m': Mem)
    requires 0 < d < n < Modulus(m) && Accessible(m, dst, src, n)
    ensures SameShape(m, m') && Readable(m', Off(src, 0)) && Readable(m', Off(src, d))
    ensures Peek(m', Off(src, 0)) != Peek(m', Off(src, d))
  {
    hide Key, Word.Wrap, Modulus;
    assert Readable(m, Off(src, 0)) && Readable(m, Off(src, d));
    var p, q := Locate(m, Off(src, 0), 1).value, Locate(m, Off(src, d), 1).value;
    KeyDistinct(m, src, 0, d);
    LocateInjective(m, Off(src, 0), Off(src, d));
    var b: Byte := if At(m, q) == 0 then 1 else 0;
    m' := PutBytes(m, p, [b]);
    LocateSameShape(m, m', Off(src, 0), 1);
    LocateSameShape(m, m', Off(src, d), 1);
    PutBytesAt(m, p, [b], p);
    PutBytesAt(m, p, [b], q);
  }
}
