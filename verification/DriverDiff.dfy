/** The whole-function driver's memory comparison (src/cpudiff.rs:2795-2900): the
    image is compared byte by byte, the stack from the lower final esp up except the
    recorded return slots. When it hides the return addresses, and when not. */
module DriverDiff {
  import opened Basics
  import opened Ir
  import opened Memory
  import opened Machine
  import opened StringOps
  import opened Closure
  import opened ReturnIndependence
  import Word

  const FN_STACK_BASE: U64 := 0x1000_0000
  const FN_STACK_SIZE: nat := 0x1_0000

  /** The driver's mapping: the image, then the stack, both writable and apart. */
  predicate DriverMem(m: Mem) {
    && m.whole && |m.regions| == 2 && m.regions[0].writable && m.regions[1].writable
    && m.regions[1].base == FN_STACK_BASE && |m.regions[1].data| == FN_STACK_SIZE
    && (m.regions[0].base + |m.regions[0].data| <= FN_STACK_BASE || FN_STACK_BASE + FN_STACK_SIZE <= m.regions[0].base)
  }

  /** `is_ret_slot`, for one slot: the address against the slot as it was recorded, in
      64 bits. */
  predicate SlotTest(slot: U64, addr: int) { slot <= addr < slot + 4 }

  predicate IsRetSlot(slots: seq<U64>, addr: int) { exists slot :: slot in slots && SlotTest(slot, addr) }

  /** The bytes the driver compares: all of the image, and of the stack those at or
      above `floor` that are in no recorded slot. */
  predicate Compared(m: Mem, slots: seq<U64>, floor: int, q: Place)
    requires q.buf < |m.regions|
  {
    q.buf == 0 || (floor <= AddressOf(m, q) && !IsRetSlot(slots, AddressOf(m, q)))
  }

  /** The lower of the two final esps, as 32-bit registers. */
  function Floor(esp: U64, esp': U64): int {
    if esp % 0x1_0000_0000 < esp' % 0x1_0000_0000 then esp % 0x1_0000_0000 else esp' % 0x1_0000_0000
  }

  /** The two comparison loops: the first image byte and the first stack byte that
      differ and are compared. */
  method CompareMemory(m: Mem, m': Mem, slots: seq<U64>, floor: int) returns (image: Option<nat>, stack: Option<nat>)
    requires DriverMem(m) && SameShape(m, m')
    ensures image.None? && stack.None? <==>
            forall q :: Mapped(m, q) && Compared(m, slots, floor, q) ==> At(m, q) == At(m', q)
    ensures image.Some? ==> Reported(m, m', slots, floor, Place(0, image.value))
    ensures image.Some? ==> forall j :: 0 <= j < image.value ==> !Reported(m, m', slots, floor, Place(0, j))
    ensures stack.Some? ==> Reported(m, m', slots, floor, Place(1, stack.value))
    ensures stack.Some? ==> forall j :: 0 <= j < stack.value ==> !Reported(m, m', slots, floor, Place(1, j))
  {
    image, stack := None, None;
    var a, a' := m.regions[0].data, m'.regions[0].data;
    for i := 0 to |a|
      invariant image == None && forall j :: 0 <= j < i ==> a[j] == a'[j]
    {
      if a[i] != a'[i] {
        image := Some(i);
        break;
      }
    }
    var b, b' := m.regions[1].data, m'.regions[1].data;
    for i := 0 to |b|
      invariant stack == None
      invariant forall j :: 0 <= j < i ==> !Compared(m, slots, floor, Place(1, j)) || b[j] == b'[j]
    {
      var addr := FN_STACK_BASE + i;
      if addr < floor {
        continue;
      }
      if b[i] != b'[i] && !IsRetSlot(slots, addr) {
        stack := Some(i);
        break;
      }
    }
    if image.None? && stack.None? {
      forall q | Mapped(m, q) && Compared(m, slots, floor, q) ensures At(m, q) == At(m', q) {
        assert q == Place(q.buf, q.off);
      }
    } else if image.Some? {
      assert Reported(m, m', slots, floor, Place(0, image.value));
    } else {
      assert Reported(m, m', slots, floor, Place(1, stack.value));
    }
  }

  /** A compared byte on which the memories differ. */
  predicate Reported(m: Mem, m': Mem, slots: seq<U64>, floor: int, q: Place)
    requires SameShape(m, m')
  {
    Mapped(m, q) && Compared(m, slots, floor, q) && At(m, q) != At(m', q)
  }

  // ---- what the slot test excludes ---------------------------------------------------------------

  lemma {:induction false} KeyBelow(m: Mem, a: U64)
    requires m.whole && a >= TWO32
    ensures Key(m, a) + 4 <= a
  {}

  /** A byte of a recorded slot is excluded by that slot if and only if it is a stack
      byte and the slot was recorded as a 32-bit address. */
  lemma {:induction false} SlotByteExact(m: Mem, slot: U64, q: Place)
    requires DriverMem(m) && InSlot(m, slot, q)
    ensures q.buf == 1 && SlotTest(slot, AddressOf(m, q)) <==> q.buf == 1 && slot < TWO32
  {
    if slot >= TWO32 { KeyBelow(m, slot); } else { assert Key(m, slot) == slot; }
  }

  /** The whole slot lies in the stack. */
  predicate StackSlot(slot: U64) { FN_STACK_BASE <= slot <= FN_STACK_BASE + FN_STACK_SIZE - 4 }

  /** Where every slot lies in the stack, the bytes of recorded slots are exactly the
      stack bytes the test excludes, and none of them is in the image. */
  lemma {:induction false} RecordedIsRetSlot(m: Mem, slots: seq<U64>, q: Place)
    requires DriverMem(m) && Mapped(m, q) && forall slot :: slot in slots ==> StackSlot(slot)
    ensures Recorded(m, slots, q) <==> q.buf == 1 && IsRetSlot(slots, AddressOf(m, q))
  {
    forall slot | slot in slots ensures InSlot(m, slot, q) <==> q.buf == 1 && SlotTest(slot, AddressOf(m, q)) {
      assert StackSlot(slot);
      assert Key(m, slot) == slot;
    }
    hide InSlot, SlotTest;
  }

  /** No byte that two runs leave different is reported, for any return addresses and
      any floor, as long as no pushed byte is read and every slot lies in the stack. */
  lemma {:induction false} DriverSkipsDifferences(f: IrFunction, s: State, cx: Ctx, ra': nat -> U64, budget: nat, floor: int)
    requires s.ram.taint == {} && !cx.monitor
    requires var o := RunClosure(f, s, cx.(monitor := true), 0, Meter(budget, []));
             !(o.Skip? && o.why == Inner(Leak))
    requires var o := RunClosure(f, s, cx, 0, Meter(budget, []));
             o.Done? && DriverMem(o.s.ram.mem) && forall slot :: slot in o.s.retSlots ==> StackSlot(slot)
    ensures var o, o' := RunClosure(f, s, cx, 0, Meter(budget, [])), RunClosure(f, s, cx.(ra := ra'), 0, Meter(budget, []));
            && o'.Done? && o'.s.regs == o.s.regs && SameShape(o.s.ram.mem, o'.s.ram.mem)
            && forall q :: !Reported(o.s.ram.mem, o'.s.ram.mem, o.s.retSlots, floor, q)
  {
    hide RunClosure, Recorded, DriverMem, StackSlot, IsRetSlot;
    ReturnAddressIndependence(f, s, cx, ra', budget);
    var o := RunClosure(f, s, cx, 0, Meter(budget, []));
    forall q | Mapped(o.s.ram.mem, q) ensures Recorded(o.s.ram.mem, o.s.retSlots, q) ==> !Compared(o.s.ram.mem, o.s.retSlots, floor, q) {
      RecordedIsRetSlot(o.s.ram.mem, o.s.retSlots, q);
    }
  }

  /** With these other return addresses the driver reports no byte. */
  ghost predicate NothingReported(f: IrFunction, s: State, cx: Ctx, ra': nat -> U64, budget: nat) {
    var o, o' := RunClosure(f, s, cx, 0, Meter(budget, [])), RunClosure(f, s, cx.(ra := ra'), 0, Meter(budget, []));
    && o.Done? && o'.Done? && SameShape(o.s.ram.mem, o'.s.ram.mem)
    && forall q :: !Reported(o.s.ram.mem, o'.s.ram.mem, o.s.retSlots, Floor(o.s.regs[4], o'.s.regs[4]), q)
  }

  /** Exactly when the driver is blind to return addresses: for a run that reads no
      pushed byte, no choice of addresses is ever reported if and only if no byte last
      written by a push is one the driver compares. */
  lemma {:induction false} BlindExactly(f: IrFunction, s: State, cx: Ctx, budget: nat)
    requires s.ram.taint == {} && !cx.monitor
    requires RunClosure(f, s, cx.(monitor := true), 0, Meter(budget, [])).Done?
    ensures RunClosure(f, s, cx, 0, Meter(budget, [])).Done?
    ensures var o := RunClosure(f, s, cx, 0, Meter(budget, []));
            (forall ra' :: NothingReported(f, s, cx, ra', budget)) <==>
            (forall q :: q in LastPushed(f, s, cx, budget) && Mapped(o.s.ram.mem, q) ==>
                           !Compared(o.s.ram.mem, o.s.retSlots, Floor(o.s.regs[4], o.s.regs[4]), q))
  {
    MonitorIsInert(f, s, cx, budget);
    hide RunClosure, Compared, LastPushed, BytesApart, Flipped, Floor;
    var o := RunClosure(f, s, cx, 0, Meter(budget, []));
    if forall q :: q in LastPushed(f, s, cx, budget) && Mapped(o.s.ram.mem, q) ==>
                     !Compared(o.s.ram.mem, o.s.retSlots, Floor(o.s.regs[4], o.s.regs[4]), q) {
      forall ra' ensures NothingReported(f, s, cx, ra', budget) { DifferencesWithin(f, s, cx, ra', budget); }
    }
    var flip: nat -> U64 := k => Flipped(cx.ra(k));
    forall k ensures BytesApart(cx.ra(k), flip(k)) { FlippedApart(cx.ra(k)); }
    DifferencesExactly(f, s, cx, flip, budget);
    DifferencesWithin(f, s, cx, flip, budget);
    if NothingReported(f, s, cx, flip, budget) {
      var o' := RunClosure(f, s, cx.(ra := flip), 0, Meter(budget, []));
      forall q | q in LastPushed(f, s, cx, budget) && Mapped(o.s.ram.mem, q)
        ensures !Compared(o.s.ram.mem, o.s.retSlots, Floor(o.s.regs[4], o.s.regs[4]), q)
      {
        assert !Reported(o.s.ram.mem, o'.s.ram.mem, o.s.retSlots, Floor(o.s.regs[4], o'.s.regs[4]), q);
      }
    }
  }

  // ---- one push ------------------------------------------------------------------------------------

  function SlotBelow(esp: U64): U64 {
    var e: int := esp;
    Word.Wrap(e - 4)
  }

  /** esp values from which a push writes and records a slot of the stack. */
  predicate StackEsp(esp: U64) { FN_STACK_BASE + 4 <= esp <= FN_STACK_BASE + FN_STACK_SIZE }

  /** Where a push lands. */
  lemma {:induction false} PushPlace(m: Mem, esp: U64, p: Place)
    requires DriverMem(m) && Locate(m, SlotBelow(esp), 4) == Some(p)
    ensures p.buf < 2 && (p.buf == 1 && SlotBelow(esp) < TWO32 <==> StackEsp(esp))
    ensures AddressOf(m, p) == Key(m, SlotBelow(esp))
  {
    var slot := SlotBelow(esp);
    var k := Key(m, slot);
    assert Fits(m.regions[p.buf], k, 4);
    if StackEsp(esp) {
      assert slot == esp - 4 && k == slot;
      assert !Fits(m.regions[0], k, 4);
    }
    if p.buf == 1 && slot < TWO32 { assert k == slot; }
  }

  /** The four bytes a push writes are hidden by the slot it records if and only if esp
      is in the stack, at least 4 above its base and at most at its top. An esp in the
      image, or one turn or more above the stack, passes the push and not the test. */
  lemma {:induction false} PushExcludedExactly(s: State, cx: Ctx, q: Place)
    requires DriverMem(s.ram.mem) && PushReturn(s, cx).Ok?
    requires InSpan(Locate(s.ram.mem, SlotBelow(s.regs[4]), 4).value, 4, q)
    ensures PushReturn(s, cx).v.retSlots == s.retSlots + [SlotBelow(s.regs[4])]
    ensures q.buf == 1 && SlotTest(SlotBelow(s.regs[4]), AddressOf(s.ram.mem, q)) <==> StackEsp(s.regs[4])
  {
    var m, slot := s.ram.mem, SlotBelow(s.regs[4]);
    var p := Locate(m, slot, 4).value;
    PushPlace(m, s.regs[4], p);
    hide Locate;
    SlotByteExact(m, slot, q);
  }

  // ---- whole runs --------------------------------------------------------------------------------------

  const CALLEE: IrFunction := IrFunction(0, [], [Block(0, 0, [Return(Some(Const(0, Bool)))], [])])

  /** Sets esp, calls `t`, moves esp to the bottom of the stack and returns: every byte
      of the stack is at or above the final esp. */
  function Caller(t: U64, esp: U64): IrFunction {
    IrFunction(0, [], [Block(0, 0, [
      Set(Reg(4), Const(esp, Unknown)), CallStmt(Call(Direct(t), [])),
      Set(Reg(4), Const(FN_STACK_BASE, Unknown)), Return(Some(Const(0, Bool)))], [])])
  }

  lemma {:induction false} CalleeReturns(s: State, cx: Ctx, depth: nat, m: Meter)
    requires m.budget > 0
    ensures RunClosure(CALLEE, s, cx, depth, m) == Done(0, s, m.Spend().Log(Ran(0)))
  {
    var b := CALLEE.blocks[0];
    assert EntryId(CALLEE) == Some(0) && FindId(CALLEE.blocks, 0) == Some(b);
    ReturnStops(Const(0, Bool), s, cx, depth, m.Spend().Log(Ran(0)), None);
  }

  lemma {:induction false} ReturnStops(e: Expr, s: State, cx: Ctx, depth: nat, m: Meter, next: Option<nat>)
    requires e == Const(0, Bool)
    ensures RunStmts([Return(Some(e))], next, s, cx, depth, m) == Leave(Done(0, s, m))
  {
    assert RunReturn(e, s, cx, depth, m) == Done(0, s, m);
    assert RunStmt([Return(Some(e))][0], next, s, cx, depth, m) == Leave(Done(0, s, m));
  }

  lemma {:induction false} StmtsCons(ss: seq<Stmt>, s: State, cx: Ctx, m: Meter, s': State, m': Meter)
    requires ss != [] && RunStmt(ss[0], None, s, cx, 0, m) == Next(None, s', m')
    ensures RunStmts(ss, None, s, cx, 0, m) == RunStmts(ss[1..], None, s', cx, 0, m')
  {
    hide RunStmt;
  }

  lemma {:induction false} SetEsp(v: U64, s: State, cx: Ctx, m: Meter)
    ensures RunStmt(Set(Reg(4), Const(v, Unknown)), None, s, cx, 0, m) == Next(None, s.(regs := s.regs[4 := v]), m)
  {
    var e := Const(v, Unknown);
    assert EvalOrCall(e, s, cx, 0, m) == Done(v, s, m);
  }

  /** The call statement: only the push shows in memory and slots. */
  lemma {:induction false} CallStep(t: U64, s: State, cx: Ctx, m: Meter) returns (r: Flow)
    requires t in cx.funcs && cx.funcs[t] == CALLEE && t in cx.retPops && t !in cx.intrinsics
    requires m.budget > 0 && PushReturn(s, cx).Ok?
    ensures r == RunStmt(CallStmt(Call(Direct(t), [])), None, s, cx, 0, m)
    ensures r.Next? && r.to == None && r.s.ram == PushReturn(s, cx).v.ram && r.s.retSlots == PushReturn(s, cx).v.retSlots
  {
    hide PushReturn, RunClosure;
    var s2, m2 := EnterCall(s, cx).v, m.Log(Enter(t, 1));
    CalleeReturns(s2, cx, 1, m2);
    var call := Call(Direct(t), []);
    assert CallDirect(t, s, cx, 0, m).Done?;
    assert EvalOrCall(call, s, cx, 0, m) == CallDirect(t, s, cx, 0, m);
    r := RunStmt(CallStmt(call), None, s, cx, 0, m);
  }

  lemma {:induction false} CallerRuns(t: U64, esp: U64, s: State, cx: Ctx, m: Meter)
    requires t in cx.funcs && cx.funcs[t] == CALLEE && t in cx.retPops && t !in cx.intrinsics
    requires m.budget >= 2 && PushReturn(s.(regs := s.regs[4 := esp]), cx).Ok?
    ensures var o := RunClosure(Caller(t, esp), s, cx, 0, m);
            var pushed := PushReturn(s.(regs := s.regs[4 := esp]), cx).v;
            && o.Done? && o.s.ram == pushed.ram && o.s.retSlots == pushed.retSlots
            && o.s.regs[4] == FN_STACK_BASE
  {
    var f := Caller(t, esp);
    var ss := f.blocks[0].stmts;
    var m1 := m.Spend().Log(Ran(0));
    var s1 := s.(regs := s.regs[4 := esp]);
    assert EntryId(f) == Some(0) && FindId(f.blocks, 0) == Some(f.blocks[0]);
    SetEsp(esp, s, cx, m1);
    var r := CallStep(t, s1, cx, m1);
    SetEsp(FN_STACK_BASE, r.s, cx, r.m);
    var s4 := r.s.(regs := r.s.regs[4 := FN_STACK_BASE]);
    ReturnStops(Const(0, Bool), s4, cx, 0, r.m, None);
    assert ss[1..][1..] == ss[2..] && ss[2..][1..] == [ss[3]];
    hide RunStmt, RunStmts, PushReturn;
    StmtsCons(ss[2..], r.s, cx, r.m, s4, r.m);
    StmtsCons(ss[1..], s1, cx, m1, r.s, r.m);
    StmtsCons(ss, s, cx, m1, s1, m1);
  }

  /** What a push leaves in its first byte. */
  lemma {:induction false} PushLands(s: State, cx: Ctx)
    requires DriverMem(s.ram.mem) && Locate(s.ram.mem, SlotBelow(s.regs[4]), 4).Some?
    ensures PushReturn(s, cx).Ok?
    ensures var after := PushReturn(s, cx).v;
            && after.retSlots == s.retSlots + [SlotBelow(s.regs[4])] && SameShape(s.ram.mem, after.ram.mem)
            && At(after.ram.mem, Locate(s.ram.mem, SlotBelow(s.regs[4]), 4).value) == cx.ra(|s.retSlots|) % 256
  {
    var m, v := s.ram.mem, cx.ra(|s.retSlots|);
    var p := Locate(m, SlotBelow(s.regs[4]), 4).value;
    PushPlace(m, s.regs[4], p);
    hide Locate, Key;
    assert LeBytes(v, 4)[0] == v % 256;
    PutBytesAt(m, p, LeBytes(v, 4), p);
  }

  /** The exact condition on whole runs. On every memory the driver builds and for
      every esp at which the push succeeds, two return addresses with different low
      bytes leave different first bytes although no pushed byte is ever read; the
      driver reports that byte if and only if esp was not in the stack. */
  lemma {:induction false} CallerReportedExactly(t: U64, esp: U64, s: State, cx: Ctx, ra': nat -> U64, budget: nat)
    requires t in cx.funcs && cx.funcs[t] == CALLEE && t in cx.retPops && t !in cx.intrinsics && !cx.monitor
    requires budget >= 2 && DriverMem(s.ram.mem) && s.ram.taint == {} && s.retSlots == []
    requires Locate(s.ram.mem, SlotBelow(esp), 4).Some? && cx.ra(0) % 256 != ra'(0) % 256
    ensures var m := Meter(budget, []);
            var q := Locate(s.ram.mem, SlotBelow(esp), 4).value;
            var o, o' := RunClosure(Caller(t, esp), s, cx, 0, m), RunClosure(Caller(t, esp), s, cx.(ra := ra'), 0, m);
            && RunClosure(Caller(t, esp), s, cx.(monitor := true), 0, m).Done?
            && o.Done? && o'.Done? && Mapped(o.s.ram.mem, q) && SameShape(o.s.ram.mem, o'.s.ram.mem)
            && At(o.s.ram.mem, q) != At(o'.s.ram.mem, q)
            && (Reported(o.s.ram.mem, o'.s.ram.mem, o.s.retSlots, Floor(o.s.regs[4], o'.s.regs[4]), q) <==> !StackEsp(esp))
  {
    var m := Meter(budget, []);
    var s1 := s.(regs := s.regs[4 := esp]);
    PushLands(s1, cx);
    PushLands(s1, cx.(ra := ra'));
    PushLands(s1, cx.(monitor := true));
    CallerRuns(t, esp, s, cx, m);
    CallerRuns(t, esp, s, cx.(ra := ra'), m);
    CallerRuns(t, esp, s, cx.(monitor := true), m);
    var q := Locate(s.ram.mem, SlotBelow(esp), 4).value;
    PushExcludedExactly(s1, cx, q);
    PushPlace(s.ram.mem, esp, q);
    var o := RunClosure(Caller(t, esp), s, cx, 0, m);
    hide RunClosure, PushReturn, Locate, SlotBelow, StackEsp;
    assert AddressOf(o.s.ram.mem, q) == AddressOf(s.ram.mem, q);
    assert IsRetSlot(o.s.retSlots, AddressOf(s.ram.mem, q)) <==> SlotTest(SlotBelow(esp), AddressOf(s.ram.mem, q)) by {
      assert o.s.retSlots == [SlotBelow(esp)];
    }
  }

  /** First failing family: esp one turn above the stack base, on any driver memory. */
  lemma {:induction false} WrappedSlotEscapes(t: U64, s: State, cx: Ctx, ra': nat -> U64, budget: nat)
    requires t in cx.funcs && cx.funcs[t] == CALLEE && t in cx.retPops && t !in cx.intrinsics && !cx.monitor
    requires budget >= 2 && DriverMem(s.ram.mem) && s.ram.taint == {} && s.retSlots == []
    requires cx.ra(0) % 256 != ra'(0) % 256
    ensures var m := Meter(budget, []);
            var f := Caller(t, 0x1_1000_0004);
            var o, o' := RunClosure(f, s, cx, 0, m), RunClosure(f, s, cx.(ra := ra'), 0, m);
            && o.Done? && o'.Done? && SameShape(o.s.ram.mem, o'.s.ram.mem)
            && Reported(o.s.ram.mem, o'.s.ram.mem, o.s.retSlots, Floor(o.s.regs[4], o'.s.regs[4]), Place(1, 0))
  {
    var m: Mem, slot: U64 := s.ram.mem, 0x1_1000_0000;
    assert SlotBelow(0x1_1000_0004) == slot && Key(m, slot) == FN_STACK_BASE;
    assert !Fits(m.regions[0], FN_STACK_BASE, 4) && Fits(m.regions[1], FN_STACK_BASE, 4);
    assert Locate(m, slot, 4) == Some(Place(1, 0));
    hide RunClosure, Locate;
    CallerReportedExactly(t, 0x1_1000_0004, s, cx, ra', budget);
  }

  /** Second failing family: esp in the image, on any driver memory that has room for
      the slot there. */
  lemma {:induction false} ImageSlotEscapes(t: U64, esp: U64, s: State, cx: Ctx, ra': nat -> U64, budget: nat)
    requires t in cx.funcs && cx.funcs[t] == CALLEE && t in cx.retPops && t !in cx.intrinsics && !cx.monitor
    requires budget >= 2 && DriverMem(s.ram.mem) && s.ram.taint == {} && s.retSlots == []
    requires cx.ra(0) % 256 != ra'(0) % 256
    requires var image := s.ram.mem.regions[0]; image.base + 4 <= esp <= image.base + |image.data| && esp <= TWO32
    ensures var m := Meter(budget, []);
            var o, o' := RunClosure(Caller(t, esp), s, cx, 0, m), RunClosure(Caller(t, esp), s, cx.(ra := ra'), 0, m);
            && o.Done? && o'.Done? && SameShape(o.s.ram.mem, o'.s.ram.mem)
            && Reported(o.s.ram.mem, o'.s.ram.mem, o.s.retSlots, Floor(o.s.regs[4], o'.s.regs[4]),
                        Place(0, esp - 4 - s.ram.mem.regions[0].base))
  {
    var m, slot := s.ram.mem, SlotBelow(esp);
    assert slot == esp - 4 && Key(m, slot) == slot;
    assert Fits(m.regions[0], slot, 4);
    assert Locate(m, slot, 4) == Some(Place(0, slot - m.regions[0].base));
    hide RunClosure, Locate;
    CallerReportedExactly(t, esp, s, cx, ra', budget);
  }
}
