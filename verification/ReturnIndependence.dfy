/** Why the memory diff may skip return-address slots (src/cpudiff.rs:2874-2900):
    a closure run that never reads a byte last written by a return-address push
    does the same whatever addresses are pushed. */
module ReturnIndependence {
  import opened Basics
  import opened Ir
  import opened Memory
  import opened Machine
  import opened StringOps
  import opened Closure
  import Word

  /** How the two runs' pushed bytes compare: anyhow, equal, or different byte for byte. */
  datatype Pushed = Any | Same | Apart

  predicate BytesApart(v: U64, v': U64) { forall i :: 0 <= i < 4 ==> LeBytes(v, 4)[i] != LeBytes(v', 4)[i] }

  predicate Fit(h: Pushed, b: Byte, b': Byte) {
    match h case Any => true case Same => b == b' case Apart => b != b'
  }

  predicate AddressesFit(h: Pushed, v: U64, v': U64) {
    match h case Any => true case Same => v == v' case Apart => BytesApart(v, v')
  }

  ghost predicate PushesFit(h: Pushed, ra: nat -> U64, ra': nat -> U64) { forall k :: AddressesFit(h, ra(k), ra'(k)) }

  /** Same mapping, same places of pushed bytes, same content everywhere else. */
  ghost predicate Alike(h: Pushed, r: Ram, r': Ram) {
    && SameShape(r.mem, r'.mem)
    && r.taint == r'.taint
    && (forall q :: Mapped(r.mem, q) && q !in r.taint ==> At(r.mem, q) == At(r'.mem, q))
    && (forall q :: Mapped(r.mem, q) && q in r.taint ==> Fit(h, At(r.mem, q), At(r'.mem, q)))
  }

  function AddressOf(m: Mem, q: Place): int
    requires q.buf < |m.regions|
  {
    m.regions[q.buf].base + q.off
  }

  /** The byte lies in the 4-byte slot at (the wrapped address) `slot`. */
  predicate InSlot(m: Mem, slot: U64, q: Place) {
    Mapped(m, q) && Key(m, slot) <= AddressOf(m, q) < Key(m, slot) + 4
  }

  ghost predicate Recorded(m: Mem, slots: seq<U64>, q: Place) {
    exists slot :: slot in slots && InSlot(m, slot, q)
  }

  /** Every pushed byte lies in a recorded slot. */
  ghost predicate Covered(s: State) {
    forall q :: q in s.ram.taint ==> Recorded(s.ram.mem, s.retSlots, q)
  }

  ghost predicate Twin(h: Pushed, s: State, s': State) {
    Alike(h, s.ram, s'.ram) && s' == s.(ram := s'.ram) && Covered(s)
  }

  /** The second run is another context differing in the pushed addresses, with
      or without the monitor; the first one is monitored. */
  ghost predicate TwinCtx(h: Pushed, cx: Ctx, cx': Ctx) {
    && cx.monitor && cx' == cx.(ra := cx'.ra, monitor := cx'.monitor)
    && PushesFit(h, cx.ra, cx'.ra)
  }

  ghost predicate Agree<T>(r: Res<T>, r': Res<T>) { r == Fail(Leak) || r == r' }

  ghost predicate AgreeRam(h: Pushed, r: Res<Ram>, r': Res<Ram>) {
    || r == Fail(Leak)
    || (r.Fail? && r' == r)
    || (r.Ok? && r'.Ok? && Alike(h, r.v, r'.v))
  }

  ghost predicate AgreeState(h: Pushed, r: Res<State>, r': Res<State>) {
    || r == Fail(Leak)
    || (r.Fail? && r' == r)
    || (r.Ok? && r'.Ok? && Twin(h, r.v, r'.v))
  }

  ghost predicate AgreeOut(h: Pushed, o: Out, o': Out) {
    || (o.Skip? && o.why == Inner(Leak))
    || (o.Skip? && o' == o)
    || (o.Done? && o'.Done? && o.value == o'.value && o.m == o'.m && Twin(h, o.s, o'.s))
  }

  ghost predicate AgreeFlow(h: Pushed, r: Flow, r': Flow) {
    match r
    case Leave(o) => (o.Skip? && o.why == Inner(Leak)) || (r'.Leave? && AgreeOut(h, o, r'.o))
    case Next(to, s, m) => r'.Next? && r'.to == to && r'.m == m && Twin(h, s, r'.s)
  }

  // ---- memory ----------------------------------------------------------------------

  lemma {:induction false} LoadAlike(h: Pushed, r: Ram, r': Ram, a: U64, n: nat, monitor: bool)
    requires Alike(h, r, r') && n <= 8
    ensures Agree(RamLoad(r, a, n, true), RamLoad(r', a, n, monitor))
  {
    hide Key, RegionOf, LeValue;
    LocateSameShape(r.mem, r'.mem, a, n);
    var p := Locate(r.mem, a, n);
    if p.Some? && !Touches(r, p.value, n) {
      var p := p.value;
      assert !Touches(r', p, n);
      var d, d' := r.mem.regions[p.buf].data, r'.mem.regions[p.buf].data;
      forall i | p.off <= i < p.off + n
        ensures d[i] == d'[i]
      {
        var q := Place(p.buf, i);
        assert InSpan(p, n, q) && Mapped(r.mem, q);
        assert q !in r.taint;
        assert At(r.mem, q) == At(r'.mem, q);
      }
      assert d[p.off..p.off + n] == d'[p.off..p.off + n];
    }
  }

  /** A store of the same bytes on both sides, or of two addresses into a slot that is
      then recorded as pushed. */
  lemma {:induction false} PutAlike(h: Pushed, r: Ram, r': Ram, p: Place, bs: seq<Byte>, bs': seq<Byte>, taint: set<Place>)
    requires Alike(h, r, r') && |bs| == |bs'|
    requires p.buf < |r.mem.regions| && p.off + |bs| <= |r.mem.regions[p.buf].data|
    requires forall q :: InSpan(p, |bs|, q) ==>
               if q in taint then Fit(h, bs[q.off - p.off], bs'[q.off - p.off]) else bs[q.off - p.off] == bs'[q.off - p.off]
    requires forall q :: !InSpan(p, |bs|, q) ==> (q in taint <==> q in r.taint)
    ensures Alike(h, Ram(PutBytes(r.mem, p, bs), taint), Ram(PutBytes(r'.mem, p, bs'), taint))
  {
    hide Fit;
    var m, m' := PutBytes(r.mem, p, bs), PutBytes(r'.mem, p, bs');
    forall q | Mapped(m, q)
      ensures q !in taint ==> At(m, q) == At(m', q)
      ensures q in taint ==> Fit(h, At(m, q), At(m', q))
    {
      PutBytesAt(r.mem, p, bs, q);
      PutBytesAt(r'.mem, p, bs', q);
      assert InSpan(p, |bs|, q) <==> q.buf == p.buf && p.off <= q.off < p.off + |bs|;
    }
  }

  lemma {:induction false} WriteAlike(h: Pushed, r: Ram, r': Ram, a: U64, n: nat, v: U64)
    requires Alike(h, r, r')
    ensures AgreeRam(h, RamWrite(r, a, n, v), RamWrite(r', a, n, v))
    ensures RamWrite(r, a, n, v).Ok? ==>
              SameShape(r.mem, RamWrite(r, a, n, v).v.mem) && RamWrite(r, a, n, v).v.taint <= r.taint
  {
    hide Key, RegionOf, LeBytes;
    LocateSameShape(r.mem, r'.mem, a, n);
    var p := Locate(r.mem, a, n);
    if p.Some? {
      PutAlike(h, r, r', p.value, LeBytes(v, n), LeBytes(v, n), r.taint - Span(p.value, n));
    }
  }

  lemma {:induction false} PushAlike(h: Pushed, r: Ram, r': Ram, a: U64, v: U64, v': U64)
    requires Alike(h, r, r') && AddressesFit(h, v, v')
    ensures AgreeRam(h, RamPush(r, a, v), RamPush(r', a, v'))
    ensures RamPush(r, a, v).Ok? ==>
              && SameShape(r.mem, RamPush(r, a, v).v.mem)
              && forall q :: q in RamPush(r, a, v).v.taint ==> q in r.taint || InSlot(r.mem, a, q)
  {
    hide Key, RegionOf, LeBytes;
    LocateSameShape(r.mem, r'.mem, a, 4);
    var p := Locate(r.mem, a, 4);
    if p.Some? {
      PutAlike(h, r, r', p.value, LeBytes(v, 4), LeBytes(v', 4), r.taint + Span(p.value, 4));
    }
  }

  lemma {:induction false} RecordedShape(m: Mem, m': Mem, slots: seq<U64>, slots': seq<U64>, q: Place)
    requires SameShape(m, m') && slots <= slots' && Recorded(m, slots, q)
    ensures Recorded(m', slots', q)
  {
    var slot :| slot in slots && InSlot(m, slot, q);
    assert slot in slots';
    assert InSlot(m', slot, q);
  }

  /** Replacing the memory by one with the same mapping and no more pushed bytes. */
  lemma {:induction false} TwinRam(h: Pushed, s: State, s': State, r: Ram, r': Ram)
    requires Twin(h, s, s') && Alike(h, r, r') && SameShape(s.ram.mem, r.mem) && r.taint <= s.ram.taint
    ensures Twin(h, s.(ram := r), s'.(ram := r'))
  {
    hide InSlot, Alike;
    forall q | q in r.taint
      ensures Recorded(r.mem, s.retSlots, q)
    {
      RecordedShape(s.ram.mem, r.mem, s.retSlots, s.retSlots, q);
    }
  }

  lemma {:induction false} PushTwin(h: Pushed, s: State, s': State, cx: Ctx, cx': Ctx)
    requires Twin(h, s, s') && TwinCtx(h, cx, cx')
    ensures AgreeState(h, PushReturn(s, cx), PushReturn(s', cx'))
    ensures PushReturn(s, cx).Ok? ==> PushReturn(s, cx).v.regs == s.regs
  {
    hide InSlot, Alike, RamPush, Word.Wrap;
    var esp: int := s.regs[4];
    var slot := Word.Wrap(esp - 4);
    var ra, ra' := cx.ra(|s.retSlots|), cx'.ra(|s.retSlots|);
    PushAlike(h, s.ram, s'.ram, slot, ra, ra');
    var r := RamPush(s.ram, slot, ra);
    if r.Ok? {
      var slots := s.retSlots + [slot];
      forall q | q in r.v.taint
        ensures Recorded(r.v.mem, slots, q)
      {
        if q in s.ram.taint {
          RecordedShape(s.ram.mem, r.v.mem, s.retSlots, slots, q);
        } else {
          assert slot in slots;
          assert Recorded(s.ram.mem, slots, q);
          RecordedShape(s.ram.mem, r.v.mem, slots, slots, q);
        }
      }
    }
  }

  // ---- expressions --------------------------------------------------------------------

  lemma {:induction false} EvalTwin(h: Pushed, e: Expr, s: State, s': State, cx: Ctx, cx': Ctx)
    requires Twin(h, s, s') && TwinCtx(h, cx, cx')
    ensures Agree(Eval(e, s, cx), Eval(e, s', cx'))
    decreases e, 0
  {
    hide PushesFit, RamLoad, HelperCall, BinaryOp, UnaryOp, CastTo, Alike, Covered;
    match e
    case Load(addr, ty) =>
      EvalTwin(h, addr, s, s', cx, cx');
      var a, n := Eval(addr, s, cx), AccessBytes(ty);
      if a.Ok? && n.Ok? { LoadAlike(h, s.ram, s'.ram, a.v, n.v, cx'.monitor); }
    case Unary(_, x) => EvalTwin(h, x, s, s', cx, cx');
    case Binary(_, a, b) => EvalTwin(h, a, s, s', cx, cx'); EvalTwin(h, b, s, s', cx, cx');
    case Cast(_, x) => EvalTwin(h, x, s, s', cx, cx');
    case Select(c, t, f) =>
      EvalTwin(h, c, s, s', cx, cx'); EvalTwin(h, t, s, s', cx, cx'); EvalTwin(h, f, s, s', cx, cx');
    case Call(target, args) =>
      if target.Named? {
        ArgsTwin(h, args, s, s', cx, cx');
        var vs := EvalArgs(args, s, cx);
        if vs.Ok? { HelperTwin(h, target.n, vs.v, cx, cx'); }
      }
    case _ =>
  }

  lemma {:induction false} HelperTwin(h: Pushed, n: Name, vs: seq<U64>, cx: Ctx, cx': Ctx)
    requires TwinCtx(h, cx, cx')
    ensures HelperCall(n, vs, cx) == HelperCall(n, vs, cx')
  {}

  lemma {:induction false} ArgsTwin(h: Pushed, args: seq<Expr>, s: State, s': State, cx: Ctx, cx': Ctx)
    requires Twin(h, s, s') && TwinCtx(h, cx, cx')
    ensures Agree(EvalArgs(args, s, cx), EvalArgs(args, s', cx'))
    decreases args, 1
  {
    hide PushesFit, Twin;
    if args != [] {
      EvalTwin(h, args[0], s, s', cx, cx');
      ArgsTwin(h, args[1..], s, s', cx, cx');
    }
  }

  // ---- byte loops -----------------------------------------------------------------------

  /** What the byte loops keep besides agreement. */
  ghost predicate Shrunk(r: Ram, res: Res<Ram>) {
    res.Ok? ==> SameShape(r.mem, res.v.mem) && res.v.taint <= r.taint
  }

  lemma {:induction false} CopyTwin(h: Pushed, r: Ram, r': Ram, dst: U64, src: U64, i: nat, n: nat, monitor: bool)
    requires Alike(h, r, r') && i <= n
    ensures AgreeRam(h, CopyLoop(r, dst, src, i, n, true), CopyLoop(r', dst, src, i, n, monitor))
    ensures Shrunk(r, CopyLoop(r, dst, src, i, n, true))
    decreases n - i
  {
    hide RamLoad, RamWrite, Off, Alike;
    if i < n {
      LoadAlike(h, r, r', Off(src, i), 1, monitor);
      var b := RamLoad(r, Off(src, i), 1, true);
      if b.Ok? {
        WriteAlike(h, r, r', Off(dst, i), 1, b.v);
        var w, w' := RamWrite(r, Off(dst, i), 1, b.v), RamWrite(r', Off(dst, i), 1, b.v);
        if w.Ok? { CopyTwin(h, w.v, w'.v, dst, src, i + 1, n, monitor); }
      }
    }
  }

  lemma {:induction false} FillTwin(h: Pushed, r: Ram, r': Ram, dst: U64, val: U64, elem: nat, i: nat, n: nat)
    requires Alike(h, r, r') && i <= n && elem > 0
    ensures AgreeRam(h, FillLoop(r, dst, val, elem, i, n), FillLoop(r', dst, val, elem, i, n))
    ensures Shrunk(r, FillLoop(r, dst, val, elem, i, n))
    decreases n - i
  {
    hide RamWrite, Off, Alike, FillByte;
    if i < n {
      var b := FillByte(val, elem, i);
      WriteAlike(h, r, r', Off(dst, i), 1, b);
      var w, w' := RamWrite(r, Off(dst, i), 1, b), RamWrite(r', Off(dst, i), 1, b);
      if w.Ok? { FillTwin(h, w.v, w'.v, dst, val, elem, i + 1, n); }
    }
  }

  lemma {:induction false} GatherTwin(h: Pushed, r: Ram, r': Ram, src: U64, i: nat, n: nat, monitor: bool)
    requires Alike(h, r, r') && i <= n
    ensures Agree(Gather(r, src, i, n, true), Gather(r', src, i, n, monitor))
    decreases n - i
  {
    hide RamLoad, Off, Alike;
    if i < n {
      LoadAlike(h, r, r', Off(src, i), 1, monitor);
      GatherTwin(h, r, r', src, i + 1, n, monitor);
    }
  }

  lemma {:induction false} ScatterTwin(h: Pushed, r: Ram, r': Ram, dst: U64, buf: seq<Byte>, i: nat)
    requires Alike(h, r, r') && i <= |buf|
    ensures AgreeRam(h, Scatter(r, dst, buf, i), Scatter(r', dst, buf, i))
    ensures Shrunk(r, Scatter(r, dst, buf, i))
    decreases |buf| - i
  {
    hide RamWrite, Off, Alike;
    if i < |buf| {
      WriteAlike(h, r, r', Off(dst, i), 1, buf[i]);
      var w, w' := RamWrite(r, Off(dst, i), 1, buf[i]), RamWrite(r', Off(dst, i), 1, buf[i]);
      if w.Ok? { ScatterTwin(h, w.v, w'.v, dst, buf, i + 1); }
    }
  }

  lemma {:induction false} MemcallTwin(h: Pushed, n: Name, args: seq<Expr>, s: State, s': State, cx: Ctx, cx': Ctx)
    requires Twin(h, s, s') && TwinCtx(h, cx, cx') && IsMemcall(n, |args|)
    ensures AgreeState(h, DoMemcall(n, args, s, cx), DoMemcall(n, args, s', cx'))
  {
    hide PushesFit, EvalArgs, CopyLoop, FillLoop, Alike, Covered;
    ArgsTwin(h, args, s, s', cx, cx');
    var vs := EvalArgs(args, s, cx);
    if vs.Ok? {
      var vs := vs.v;
      var count := vs[2] % 0x1_0000_0000;
      var total := if |vs| == 3 then count else count * n.elem.Bytes();
      if n.RepStos? {
        FillTwin(h, s.ram, s'.ram, vs[0], vs[1], n.elem.Bytes(), 0, total);
      } else {
        CopyTwin(h, s.ram, s'.ram, vs[0], vs[1], 0, total, cx'.monitor);
      }
      var r, r' := MemcallRam(n, vs, s.ram, cx.monitor), MemcallRam(n, vs, s'.ram, cx'.monitor);
      if r.Ok? { TwinRam(h, s, s', r.v, r'.v); }
    }
  }

  lemma {:induction false} IntrinsicTwin(h: Pushed, kind: MemIntrin, s: State, s': State, cx: Ctx, cx': Ctx)
    requires Twin(h, s, s') && TwinCtx(h, cx, cx')
    ensures var o, o' := CallMemIntrinsic(kind, s, cx), CallMemIntrinsic(kind, s', cx');
            || o == Fail(Leak)
            || (o.Fail? && o' == o)
            || (o.Ok? && o'.Ok? && o.v.1 == o'.v.1 && Twin(h, o.v.0, o'.v.0))
  {
    hide PushesFit, RamLoad, RamPush, Gather, Scatter, Alike, Covered, Off, Overlapping;
    var esp := s.regs[4];
    LoadAlike(h, s.ram, s'.ram, esp, 4, cx'.monitor);
    LoadAlike(h, s.ram, s'.ram, Off(esp, 4), 4, cx'.monitor);
    LoadAlike(h, s.ram, s'.ram, Off(esp, 8), 4, cx'.monitor);
    var dst, src, n := RamLoad(s.ram, esp, 4, true), RamLoad(s.ram, Off(esp, 4), 4, true),
                       RamLoad(s.ram, Off(esp, 8), 4, true);
    if dst.Ok? && src.Ok? && n.Ok? {
      GatherTwin(h, s.ram, s'.ram, src.v, 0, n.v, cx'.monitor);
      var buf := Gather(s.ram, src.v, 0, n.v, true);
      if buf.Ok? {
        ScatterTwin(h, s.ram, s'.ram, dst.v, buf.v, 0);
        var c, c' := Scatter(s.ram, dst.v, buf.v, 0), Scatter(s'.ram, dst.v, buf.v, 0);
        if c.Ok? {
          TwinRam(h, s, s', c.v, c'.v);
          PushTwin(h, s.(ram := c.v), s'.(ram := c'.v), cx, cx');
          TwinRegs(h, PushReturn(s.(ram := c.v), cx), PushReturn(s'.(ram := c'.v), cx'), dst.v);
        }
      }
    }
  }

  lemma {:induction false} TwinRegs(h: Pushed, a: Res<State>, b: Res<State>, v: U64)
    requires AgreeState(h, a, b)
    ensures a.Ok? ==> b.Ok? && Twin(h, a.v.(regs := a.v.regs[0 := v]), b.v.(regs := b.v.regs[0 := v]))
  {
    hide Alike, Recorded;
  }

  lemma {:induction false} WriteLocTwin(h: Pushed, loc: Location, v: U64, s: State, s': State)
    requires Twin(h, s, s')
    ensures AgreeState(h, WriteLoc(loc, v, s), WriteLoc(loc, v, s'))
  {
    hide Alike, Recorded;
  }

  lemma {:induction false} ExecTwin(h: Pushed, st: Stmt, s: State, s': State, cx: Ctx, cx': Ctx)
    requires Twin(h, s, s') && TwinCtx(h, cx, cx')
    ensures AgreeState(h, Exec(st, s, cx), Exec(st, s', cx'))
  {
    hide PushesFit, Eval, RamWrite, WriteLoc, Alike, Covered;
    match st
    case Store(a, v, ty) =>
      EvalTwin(h, a, s, s', cx, cx');
      EvalTwin(h, v, s, s', cx, cx');
      var x, y, n := Eval(a, s, cx), Eval(v, s, cx), AccessBytes(ty);
      if x.Ok? && y.Ok? && n.Ok? {
        WriteAlike(h, s.ram, s'.ram, x.v, n.v, y.v);
        var w, w' := RamWrite(s.ram, x.v, n.v, y.v), RamWrite(s'.ram, x.v, n.v, y.v);
        if w.Ok? { TwinRam(h, s, s', w.v, w'.v); }
      }
    case Set(dst, e) =>
      EvalTwin(h, e, s, s', cx, cx');
      var v := Eval(e, s, cx);
      if v.Ok? { WriteLocTwin(h, dst, v.v, s, s'); }
    case _ =>
  }

  lemma {:induction false} CallSteps(h: Pushed, s: State, s': State, esp: U64, pop: int, cx: Ctx, cx': Ctx)
    requires Twin(h, s, s') && TwinCtx(h, cx, cx')
    ensures Twin(h, LeaveCall(s, esp, pop), LeaveCall(s', esp, pop))
    ensures Twin(h, StubImport(s), StubImport(s'))
    ensures AgreeState(h, EnterCall(s, cx), EnterCall(s', cx'))
  {
    hide PushesFit, Alike, RamPush, Word.Wrap, InSlot;
    forall q | q in s.ram.taint
      ensures Recorded(s.ram.mem, StubImport(s).retSlots, q)
    {
      RecordedShape(s.ram.mem, s.ram.mem, s.retSlots, StubImport(s).retSlots, q);
    }
    PushTwin(h, s, s', cx, cx');
    var p, p' := PushReturn(s, cx), PushReturn(s', cx');
    if p.Ok? {
      var esp: int := s.regs[4];
      assert Covered(p.v.(regs := p.v.regs[4 := Word.Wrap(esp - 4)]));
    }
  }

  // ---- the interpreter ---------------------------------------------------------------------

  lemma {:induction false} ClosureTwin(h: Pushed, f: IrFunction, s: State, s': State, cx: Ctx, cx': Ctx, depth: nat, m: Meter)
    requires Twin(h, s, s') && TwinCtx(h, cx, cx')
    ensures AgreeOut(h, RunClosure(f, s, cx, depth, m), RunClosure(f, s', cx', depth, m))
    decreases m.budget, 1, 0
  {
    hide PushesFit, Twin;
    var id := EntryId(f);
    if id.Some? { FromTwin(h, f, id.value, s, s', cx, cx', depth, m); }
  }

  lemma {:induction false} FromTwin(h: Pushed, f: IrFunction, cur: nat, s: State, s': State, cx: Ctx, cx': Ctx, depth: nat, m: Meter)
    requires Twin(h, s, s') && TwinCtx(h, cx, cx')
    ensures AgreeOut(h, RunFrom(f, cur, s, cx, depth, m), RunFrom(f, cur, s', cx', depth, m))
    decreases m.budget, 0, 0
  {
    hide PushesFit, Twin;
    if m.budget > 0 {
      var b := FindId(f.blocks, cur);
      if b.Some? {
        var m1 := m.Spend().Log(Ran(b.value.id));
        StmtsTwin(h, b.value.stmts, None, s, s', cx, cx', depth, m1);
        var r, r' := RunStmts(b.value.stmts, None, s, cx, depth, m1), RunStmts(b.value.stmts, None, s', cx', depth, m1);
        if r.Next? && r.to.Some? { FromTwin(h, f, r.to.value, r.s, r'.s, cx, cx', depth, r.m); }
      }
    }
  }

  lemma {:induction false} StmtsTwin(h: Pushed, ss: seq<Stmt>, next: Option<nat>, s: State, s': State, cx: Ctx, cx': Ctx, depth: nat, m: Meter)
    requires Twin(h, s, s') && TwinCtx(h, cx, cx')
    ensures AgreeFlow(h, RunStmts(ss, next, s, cx, depth, m), RunStmts(ss, next, s', cx', depth, m))
    decreases m.budget, 6, |ss|
  {
    hide PushesFit, Twin;
    if ss != [] {
      StmtTwin(h, ss[0], next, s, s', cx, cx', depth, m);
      var r, r' := RunStmt(ss[0], next, s, cx, depth, m), RunStmt(ss[0], next, s', cx', depth, m);
      if r.Next? { StmtsTwin(h, ss[1..], r.to, r.s, r'.s, cx, cx', depth, r.m); }
    }
  }

  lemma {:induction false} StmtTwin(h: Pushed, st: Stmt, next: Option<nat>, s: State, s': State, cx: Ctx, cx': Ctx, depth: nat, m: Meter)
    requires Twin(h, s, s') && TwinCtx(h, cx, cx')
    ensures AgreeFlow(h, RunStmt(st, next, s, cx, depth, m), RunStmt(st, next, s', cx', depth, m))
    decreases m.budget, 5, 0
  {
    hide PushesFit, Twin, Eval, Exec, WriteLoc;
    match st
    case Branch(c, _, _) => EvalTwin(h, c, s, s', cx, cx');
    case Return(Some(e)) => ReturnTwin(h, e, s, s', cx, cx', depth, m);
    case CallStmt(e) => EvalOrCallTwin(h, e, s, s', cx, cx', depth, m);
    case Set(dst, e) =>
      EvalOrCallTwin(h, e, s, s', cx, cx', depth, m);
      var o, o' := EvalOrCall(e, s, cx, depth, m), EvalOrCall(e, s', cx', depth, m);
      if o.Done? && o'.Done? && Twin(h, o.s, o'.s) { WriteLocTwin(h, dst, o.value, o.s, o'.s); }
    case _ => ExecTwin(h, st, s, s', cx, cx');
  }

  lemma {:induction false} ReturnTwin(h: Pushed, e: Expr, s: State, s': State, cx: Ctx, cx': Ctx, depth: nat, m: Meter)
    requires Twin(h, s, s') && TwinCtx(h, cx, cx')
    ensures AgreeOut(h, RunReturn(e, s, cx, depth, m), RunReturn(e, s', cx', depth, m))
    decreases m.budget, 4, 0
  {
    hide PushesFit, Twin;
    if e.Call? && e.target.Direct? && depth == 0 && e.target.t in cx.funcs {
      ClosureTwin(h, cx.funcs[e.target.t], s, s', cx, cx', 1, m.Log(Enter(e.target.t, 1)));
    } else {
      EvalOrCallTwin(h, e, s, s', cx, cx', depth, m);
    }
  }

  lemma {:induction false} EvalOrCallTwin(h: Pushed, e: Expr, s: State, s': State, cx: Ctx, cx': Ctx, depth: nat, m: Meter)
    requires Twin(h, s, s') && TwinCtx(h, cx, cx')
    ensures AgreeOut(h, EvalOrCall(e, s, cx, depth, m), EvalOrCall(e, s', cx', depth, m))
    decreases m.budget, 3, 0
  {
    hide PushesFit, Twin, Eval, DoMemcall, StubImport;
    EvalTwin(h, e, s, s', cx, cx');
    if e.Call? {
      match e.target
      case Direct(t) => CallTwin(h, t, s, s', cx, cx', depth, m);
      case Named(n) =>
        if IsMemcall(n, |e.args|) { MemcallTwin(h, n, e.args, s, s', cx, cx'); }
        CallSteps(h, s, s', 0, 0, cx, cx');
      case Indirect(addr) =>
        EvalTwin(h, addr, s, s', cx, cx');
        var t := Eval(addr, s, cx);
        if t.Ok? { CallTwin(h, t.v, s, s', cx, cx', depth, m.Log(Indirectly(t.v))); }
    }
  }

  lemma {:induction false} CallTwin(h: Pushed, t: U64, s: State, s': State, cx: Ctx, cx': Ctx, depth: nat, m: Meter)
    requires Twin(h, s, s') && TwinCtx(h, cx, cx')
    ensures AgreeOut(h, CallDirect(t, s, cx, depth, m), CallDirect(t, s', cx', depth, m))
    decreases m.budget, 2, 0
  {
    hide PushesFit, CallMemIntrinsic, EnterCall, LeaveCall, Alike, Covered;
    if t in cx.intrinsics {
      IntrinsicTwin(h, cx.intrinsics[t], s, s', cx, cx');
    } else if depth < CLOSURE_DEPTH && t in cx.funcs && t in cx.retPops {
      CallSteps(h, s, s', 0, 0, cx, cx');
      var a, a' := EnterCall(s, cx), EnterCall(s', cx');
      if a.Ok? {
        var m1 := m.Log(Enter(t, depth + 1));
        ClosureTwin(h, cx.funcs[t], a.v, a'.v, cx, cx', depth + 1, m1);
        var o, o' := RunClosure(cx.funcs[t], a.v, cx, depth + 1, m1), RunClosure(cx.funcs[t], a'.v, cx', depth + 1, m1);
        if o.Done? { CallSteps(h, o.s, o'.s, s.regs[4], cx.retPops[t], cx, cx'); }
      }
    }
  }

  // ---- the theorem -----------------------------------------------------------------------------

  /** Two plain runs from the same state, pushing any return addresses `ra` and
      `ra'`, when the monitored run of `ra` reads no pushed byte: they stop alike or
      return the same value with the same registers, flags, slots and meter, and
      every byte on which they differ lies in a recorded return slot. */
  lemma {:induction false} ReturnAddressIndependence(f: IrFunction, s: State, cx: Ctx, ra': nat -> U64, budget: nat)
    requires s.ram.taint == {} && !cx.monitor
    requires var o := RunClosure(f, s, cx.(monitor := true), 0, Meter(budget, []));
             !(o.Skip? && o.why == Inner(Leak))
    ensures var o := RunClosure(f, s, cx, 0, Meter(budget, []));
            var o' := RunClosure(f, s, cx.(ra := ra'), 0, Meter(budget, []));
            && (o.Skip? ==> o' == o)
            && (o.Done? ==>
                  && o'.Done? && o.value == o'.value && o.m == o'.m
                  && o'.s == o.s.(ram := o'.s.ram)
                  && SameShape(o.s.ram.mem, o'.s.ram.mem)
                  && forall q :: Mapped(o.s.ram.mem, q) && At(o.s.ram.mem, q) != At(o'.s.ram.mem, q) ==>
                                   Recorded(o.s.ram.mem, o.s.retSlots, q))
  {
    var cx0 := cx.(monitor := true);
    var m := Meter(budget, []);
    assert Twin(Any, s, s);
    ClosureTwin(Any, f, s, s, cx0, cx, 0, m);
    ClosureTwin(Any, f, s, s, cx0, cx.(ra := ra'), 0, m);
    var o0 := RunClosure(f, s, cx0, 0, m);
    var o := RunClosure(f, s, cx, 0, m);
    if o.Done? {
      var o' := RunClosure(f, s, cx.(ra := ra'), 0, m);
      hide RunClosure, InSlot;
      forall q | Mapped(o.s.ram.mem, q) && At(o.s.ram.mem, q) != At(o'.s.ram.mem, q)
        ensures Recorded(o.s.ram.mem, o.s.retSlots, q)
      {
        assert Mapped(o0.s.ram.mem, q);
        assert q in o0.s.ram.taint;
        RecordedShape(o0.s.ram.mem, o.s.ram.mem, o0.s.retSlots, o.s.retSlots, q);
      }
    }
  }

  // ---- exactly which bytes differ ---------------------------------------------------------------

  /** The bytes whose last write was a push, in the monitored run. */
  ghost function LastPushed(f: IrFunction, s: State, cx: Ctx, budget: nat): set<Place> {
    var o := RunClosure(f, s, cx.(monitor := true), 0, Meter(budget, []));
    if o.Done? then o.s.ram.taint else {}
  }

  /** A run that does not leak does the same without the monitor. */
  lemma {:induction false} MonitorIsInert(f: IrFunction, s: State, cx: Ctx, budget: nat)
    requires s.ram.taint == {} && !cx.monitor
    ensures var o0, o := RunClosure(f, s, cx.(monitor := true), 0, Meter(budget, [])), RunClosure(f, s, cx, 0, Meter(budget, []));
            (o0.Skip? && o0.why == Inner(Leak)) || o0 == o
  {
    var cx0, m := cx.(monitor := true), Meter(budget, []);
    assert Twin(Same, s, s);
    ClosureTwin(Same, f, s, s, cx0, cx, 0, m);
    var o0, o := RunClosure(f, s, cx0, 0, m), RunClosure(f, s, cx, 0, m);
    hide RunClosure;
    if o0.Done? {
      forall q | Mapped(o0.s.ram.mem, q) ensures At(o0.s.ram.mem, q) == At(o.s.ram.mem, q) {}
      MemExtensional(o0.s.ram.mem, o.s.ram.mem);
    }
  }

  /** Whatever addresses are pushed, the runs differ at most in bytes last written by a
      push. */
  lemma {:induction false} DifferencesWithin(f: IrFunction, s: State, cx: Ctx, ra': nat -> U64, budget: nat)
    requires s.ram.taint == {} && !cx.monitor
    requires RunClosure(f, s, cx.(monitor := true), 0, Meter(budget, [])).Done?
    ensures var o, o' := RunClosure(f, s, cx, 0, Meter(budget, [])), RunClosure(f, s, cx.(ra := ra'), 0, Meter(budget, []));
            && o.Done? && o'.Done? && o'.s == o.s.(ram := o'.s.ram) && SameShape(o.s.ram.mem, o'.s.ram.mem)
            && forall q :: Mapped(o.s.ram.mem, q) && q !in LastPushed(f, s, cx, budget) ==> At(o.s.ram.mem, q) == At(o'.s.ram.mem, q)
  {
    var cx0, m := cx.(monitor := true), Meter(budget, []);
    assert Twin(Any, s, s);
    ClosureTwin(Any, f, s, s, cx0, cx.(ra := ra'), 0, m);
    MonitorIsInert(f, s, cx, budget);
    hide RunClosure, PushesFit;
  }

  /** The differences are exact: when the two runs push addresses that differ in every
      byte, the bytes they end up disagreeing on are exactly those last written by a
      push. */
  lemma {:induction false} DifferencesExactly(f: IrFunction, s: State, cx: Ctx, ra': nat -> U64, budget: nat)
    requires s.ram.taint == {} && !cx.monitor && forall k :: BytesApart(cx.ra(k), ra'(k))
    requires RunClosure(f, s, cx.(monitor := true), 0, Meter(budget, [])).Done?
    ensures var o, o' := RunClosure(f, s, cx, 0, Meter(budget, [])), RunClosure(f, s, cx.(ra := ra'), 0, Meter(budget, []));
            && o.Done? && o'.Done? && SameShape(o.s.ram.mem, o'.s.ram.mem)
            && forall q :: Mapped(o.s.ram.mem, q) ==>
                             (At(o.s.ram.mem, q) != At(o'.s.ram.mem, q) <==> q in LastPushed(f, s, cx, budget))
  {
    var cx0, m := cx.(monitor := true), Meter(budget, []);
    assert Twin(Apart, s, s);
    ClosureTwin(Apart, f, s, s, cx0, cx.(ra := ra'), 0, m);
    MonitorIsInert(f, s, cx, budget);
    hide RunClosure, PushesFit, BytesApart;
  }

  /** Addresses that differ from the given ones in every byte. */
  function Flipped(v: U64): U64 { 0xffff_ffff - v % 0x1_0000_0000 }

  lemma {:induction false} FlippedApart(v: U64)
    ensures BytesApart(v, Flipped(v))
  {
    assert Pow256(4) == 0x1_0000_0000;
    LowBytes(v, 4);
    FlipBytes(v % 0x1_0000_0000, 4);
    var b, b' := LeBytes(v, 4), LeBytes(Flipped(v), 4);
    forall i | 0 <= i < 4 ensures b[i] != b'[i] { assert b'[i] == 255 - b[i]; }
  }

  lemma {:induction false} LowBytes(v: int, n: nat)
    requires v >= 0
    ensures LeBytes(v % Pow256(n), n) == LeBytes(v, n)
    decreases n
  {
    if n > 0 {
      var p := Pow256(n - 1);
      ModSplit(v, p);
      var w := v % Pow256(n);
      assert w == v % 256 + 256 * ((v / 256) % p);
      assert w % 256 == v % 256 && w / 256 == (v / 256) % p;
      LowBytes(v / 256, n - 1);
    }
  }

  lemma {:induction false} FlipBytes(v: int, n: nat)
    requires 0 <= v < Pow256(n)
    ensures forall i :: 0 <= i < n ==> LeBytes(Pow256(n) - 1 - v, n)[i] == 255 - LeBytes(v, n)[i]
    decreases n
  {
    if n > 0 {
      var w, p := Pow256(n) - 1 - v, Pow256(n - 1);
      assert v == 256 * (v / 256) + v % 256;
      assert w == 256 * (p - 1 - v / 256) + (255 - v % 256);
      assert w / 256 == p - 1 - v / 256 && w % 256 == 255 - v % 256;
      FlipBytes(v / 256, n - 1);
    }
  }
}
