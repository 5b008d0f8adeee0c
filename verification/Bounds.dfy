/** What every closure run keeps: its work is paid from the budget block by
    block, its nesting stays under the cap, and neither a larger budget nor a
    smaller depth changes a result. */
module Bounds {
  import opened Basics
  import opened Ir
  import opened Machine
  import opened StringOps
  import opened Closure
  import opened Ssa

  // ---- work and nesting --------------------------------------------------------

  /** Between `m` and `m'` every unit of budget bought one block, except `lost`
      units spent on a missing block; calls stayed within the cap. */
  ghost predicate Paid(m: Meter, m': Meter, lost: nat) {
    && Blocks(m'.trace) + m'.budget + lost == Blocks(m.trace) + m.budget
    && (Shallow(m.trace) ==> Shallow(m'.trace))
  }

  function Lost(o: Out): nat { if o.Skip? && o.why == NoBlock then 1 else 0 }

  function LostFlow(r: Flow): nat { if r.Leave? then Lost(r.o) else 0 }

  /** Logging a block that was paid for, or a call within the cap. */
  lemma {:induction false} LogPaid(m: Meter, e: Event)
    requires e.Ran? ==> m.budget > 0
    requires e.Enter? ==> e.depth <= CLOSURE_DEPTH
    ensures Paid(m, if e.Ran? then m.Spend().Log(e) else m.Log(e), 0)
  {
    assert (m.trace + [e])[..|m.trace|] == m.trace;
  }

  lemma {:induction false} PaidThen(m: Meter, m1: Meter, m2: Meter, lost: nat)
    requires Paid(m, m1, 0) && Paid(m1, m2, lost)
    ensures Paid(m, m2, lost)
  {}

  lemma {:induction false} PaidNothing(m: Meter)
    ensures Paid(m, m, 0)
  {}

  /** Every closure run terminates (the semantics is a total function), executes
      at most `m.budget` blocks over the whole recursion, exactly the spent budget
      when it returns, and never nests deeper than the cap. */
  lemma {:induction false} WorkIsPaid(f: IrFunction, s: State, cx: Ctx, budget: nat)
    ensures var o := RunClosure(f, s, cx, 0, Meter(budget, []));
            && Blocks(o.m.trace) <= budget
            && (o.Done? ==> Blocks(o.m.trace) == budget - o.m.budget)
            && Shallow(o.m.trace)
  {
    PaidClosure(f, s, cx, 0, Meter(budget, []));
  }

  lemma {:induction false} PaidClosure(f: IrFunction, s: State, cx: Ctx, depth: nat, m: Meter)
    requires depth <= CLOSURE_DEPTH
    ensures var o := RunClosure(f, s, cx, depth, m); Paid(m, o.m, Lost(o))
    decreases m.budget, 1, 0
  {
    hide Paid;
    PaidNothing(m);
    var id := EntryId(f);
    if id.Some? { PaidFrom(f, id.value, s, cx, depth, m); }
  }

  lemma {:induction false} PaidFrom(f: IrFunction, cur: nat, s: State, cx: Ctx, depth: nat, m: Meter)
    requires depth <= CLOSURE_DEPTH
    ensures var o := RunFrom(f, cur, s, cx, depth, m); Paid(m, o.m, Lost(o))
    decreases m.budget, 0, 0
  {
    hide Paid;
    PaidNothing(m);
    if m.budget > 0 {
      var b := FindId(f.blocks, cur);
      if b.Some? {
        var m1 := m.Spend().Log(Ran(b.value.id));
        LogPaid(m, Ran(b.value.id));
        PaidStmts(b.value.stmts, None, s, cx, depth, m1);
        var r := RunStmts(b.value.stmts, None, s, cx, depth, m1);
        PaidThen(m, m1, FlowMeter(r), LostFlow(r));
        if r.Next? && r.to.Some? {
          PaidFrom(f, r.to.value, r.s, cx, depth, r.m);
          var o := RunFrom(f, r.to.value, r.s, cx, depth, r.m);
          PaidThen(m, r.m, o.m, Lost(o));
        }
      } else {
        LosesOne(m);
      }
    }
  }

  /** The unit spent on a missing block. */
  lemma {:induction false} LosesOne(m: Meter)
    requires m.budget > 0
    ensures Paid(m, m.Spend(), 1)
  {}

  lemma {:induction false} PaidStmts(ss: seq<Stmt>, next: Option<nat>, s: State, cx: Ctx, depth: nat, m: Meter)
    requires depth <= CLOSURE_DEPTH
    ensures var r := RunStmts(ss, next, s, cx, depth, m); Paid(m, FlowMeter(r), LostFlow(r))
    decreases m.budget, 6, |ss|
  {
    hide Paid;
    PaidNothing(m);
    if ss != [] {
      PaidStmt(ss[0], next, s, cx, depth, m);
      var r := RunStmt(ss[0], next, s, cx, depth, m);
      if r.Next? {
        PaidStmts(ss[1..], r.to, r.s, cx, depth, r.m);
        var r' := RunStmts(ss[1..], r.to, r.s, cx, depth, r.m);
        PaidThen(m, r.m, FlowMeter(r'), LostFlow(r'));
      }
    }
  }

  lemma {:induction false} PaidStmt(st: Stmt, next: Option<nat>, s: State, cx: Ctx, depth: nat, m: Meter)
    requires depth <= CLOSURE_DEPTH
    ensures var r := RunStmt(st, next, s, cx, depth, m); Paid(m, FlowMeter(r), LostFlow(r))
    decreases m.budget, 5, 0
  {
    hide Eval, Exec, WriteLoc, Paid;
    PaidNothing(m);
    match st
    case Return(Some(e)) => PaidReturn(e, s, cx, depth, m);
    case CallStmt(e) => PaidEval(e, s, cx, depth, m);
    case Set(_, e) => PaidEval(e, s, cx, depth, m);
    case _ =>
  }

  lemma {:induction false} PaidReturn(e: Expr, s: State, cx: Ctx, depth: nat, m: Meter)
    requires depth <= CLOSURE_DEPTH
    ensures var o := RunReturn(e, s, cx, depth, m); Paid(m, o.m, Lost(o))
    decreases m.budget, 4, 0
  {
    hide Paid;
    PaidNothing(m);
    if e.Call? && e.target.Direct? && depth == 0 && e.target.t in cx.funcs {
      var t := e.target.t;
      var m1 := m.Log(Enter(t, 1));
      LogPaid(m, Enter(t, 1));
      PaidClosure(cx.funcs[t], s, cx, 1, m1);
      var o := RunClosure(cx.funcs[t], s, cx, 1, m1);
      PaidThen(m, m1, o.m, Lost(o));
    } else {
      PaidEval(e, s, cx, depth, m);
    }
  }

  lemma {:induction false} PaidEval(e: Expr, s: State, cx: Ctx, depth: nat, m: Meter)
    requires depth <= CLOSURE_DEPTH
    ensures var o := EvalOrCall(e, s, cx, depth, m); Paid(m, o.m, Lost(o))
    decreases m.budget, 3, 0
  {
    hide Eval, DoMemcall, StubImport, Paid;
    PaidNothing(m);
    if e.Call? && e.target.Direct? {
      PaidCall(e.target.t, s, cx, depth, m);
    } else if e.Call? && e.target.Indirect? {
      var t := Eval(e.target.addr, s, cx);
      if t.Ok? {
        var m1 := m.Log(Indirectly(t.v));
        LogPaid(m, Indirectly(t.v));
        PaidCall(t.v, s, cx, depth, m1);
        var o := CallDirect(t.v, s, cx, depth, m1);
        PaidThen(m, m1, o.m, Lost(o));
      }
    }
  }

  lemma {:induction false} PaidCall(t: U64, s: State, cx: Ctx, depth: nat, m: Meter)
    requires depth <= CLOSURE_DEPTH
    ensures var o := CallDirect(t, s, cx, depth, m); Paid(m, o.m, Lost(o))
    decreases m.budget, 2, 0
  {
    hide CallMemIntrinsic, EnterCall, LeaveCall, Paid;
    PaidNothing(m);
    if t !in cx.intrinsics && depth < CLOSURE_DEPTH && t in cx.funcs {
      var s1 := EnterCall(s, cx);
      if s1.Ok? {
        var m1 := m.Log(Enter(t, depth + 1));
        LogPaid(m, Enter(t, depth + 1));
        PaidClosure(cx.funcs[t], s1.v, cx, depth + 1, m1);
        var o := RunClosure(cx.funcs[t], s1.v, cx, depth + 1, m1);
        PaidThen(m, m1, o.m, Lost(o));
      }
    }
  }

  // ---- the budget does not matter until it runs out ------------------------------

  function More(m: Meter, k: nat): Meter { m.(budget := m.budget + k) }

  function MoreOut(o: Out, k: nat): Out { o.(m := More(o.m, k)) }

  function MoreFlow(r: Flow, k: nat): Flow {
    match r
    case Leave(o) => Leave(MoreOut(o, k))
    case Next(to, s, m) => Next(to, s, More(m, k))
  }

  predicate Exhausted(o: Out) { o.Skip? && o.why == OutOfBudget }

  predicate ExhaustedFlow(r: Flow) { r.Leave? && Exhausted(r.o) }

  /** Budget independence: a run that does not run out of budget does the same
      with any larger budget, and leaves exactly the surplus. */
  lemma {:induction false} BudgetClosure(f: IrFunction, s: State, cx: Ctx, depth: nat, m: Meter, k: nat)
    ensures var o := RunClosure(f, s, cx, depth, m);
            Exhausted(o) || RunClosure(f, s, cx, depth, More(m, k)) == MoreOut(o, k)
    decreases m.budget, 1, 0
  {
    var id := EntryId(f);
    if id.Some? { BudgetFrom(f, id.value, s, cx, depth, m, k); }
  }

  lemma {:induction false} BudgetFrom(f: IrFunction, cur: nat, s: State, cx: Ctx, depth: nat, m: Meter, k: nat)
    ensures var o := RunFrom(f, cur, s, cx, depth, m);
            Exhausted(o) || RunFrom(f, cur, s, cx, depth, More(m, k)) == MoreOut(o, k)
    decreases m.budget, 0, 0
  {
    if m.budget > 0 {
      var b := FindId(f.blocks, cur);
      assert More(m, k).Spend() == More(m.Spend(), k);
      if b.Some? {
        var m1 := m.Spend().Log(Ran(b.value.id));
        assert More(m, k).Spend().Log(Ran(b.value.id)) == More(m1, k);
        BudgetStmts(b.value.stmts, None, s, cx, depth, m1, k);
        var r := RunStmts(b.value.stmts, None, s, cx, depth, m1);
        if r.Next? && r.to.Some? { BudgetFrom(f, r.to.value, r.s, cx, depth, r.m, k); }
      }
    }
  }

  lemma {:induction false} BudgetStmts(ss: seq<Stmt>, next: Option<nat>, s: State, cx: Ctx, depth: nat, m: Meter, k: nat)
    ensures var r := RunStmts(ss, next, s, cx, depth, m);
            ExhaustedFlow(r) || RunStmts(ss, next, s, cx, depth, More(m, k)) == MoreFlow(r, k)
    decreases m.budget, 6, |ss|
  {
    if ss != [] {
      BudgetStmt(ss[0], next, s, cx, depth, m, k);
      var r := RunStmt(ss[0], next, s, cx, depth, m);
      if r.Next? { BudgetStmts(ss[1..], r.to, r.s, cx, depth, r.m, k); }
    }
  }

  lemma {:induction false} BudgetStmt(st: Stmt, next: Option<nat>, s: State, cx: Ctx, depth: nat, m: Meter, k: nat)
    ensures var r := RunStmt(st, next, s, cx, depth, m);
            ExhaustedFlow(r) || RunStmt(st, next, s, cx, depth, More(m, k)) == MoreFlow(r, k)
    decreases m.budget, 5, 0
  {
    hide Eval, Exec, WriteLoc;
    match st
    case Return(Some(e)) => BudgetReturn(e, s, cx, depth, m, k);
    case CallStmt(e) => BudgetEval(e, s, cx, depth, m, k);
    case Set(_, e) => BudgetEval(e, s, cx, depth, m, k);
    case _ =>
  }

  lemma {:induction false} BudgetReturn(e: Expr, s: State, cx: Ctx, depth: nat, m: Meter, k: nat)
    ensures var o := RunReturn(e, s, cx, depth, m);
            Exhausted(o) || RunReturn(e, s, cx, depth, More(m, k)) == MoreOut(o, k)
    decreases m.budget, 4, 0
  {
    if e.Call? && e.target.Direct? && depth == 0 && e.target.t in cx.funcs {
      var t := e.target.t;
      assert More(m, k).Log(Enter(t, 1)) == More(m.Log(Enter(t, 1)), k);
      BudgetClosure(cx.funcs[t], s, cx, 1, m.Log(Enter(t, 1)), k);
    } else {
      BudgetEval(e, s, cx, depth, m, k);
    }
  }

  lemma {:induction false} BudgetEval(e: Expr, s: State, cx: Ctx, depth: nat, m: Meter, k: nat)
    ensures var o := EvalOrCall(e, s, cx, depth, m);
            Exhausted(o) || EvalOrCall(e, s, cx, depth, More(m, k)) == MoreOut(o, k)
    decreases m.budget, 3, 0
  {
    hide Eval, DoMemcall, StubImport;
    if e.Call? && e.target.Direct? {
      BudgetCall(e.target.t, s, cx, depth, m, k);
    } else if e.Call? && e.target.Indirect? {
      var t := Eval(e.target.addr, s, cx);
      if t.Ok? {
        assert More(m, k).Log(Indirectly(t.v)) == More(m.Log(Indirectly(t.v)), k);
        BudgetCall(t.v, s, cx, depth, m.Log(Indirectly(t.v)), k);
      }
    }
  }

  lemma {:induction false} BudgetCall(t: U64, s: State, cx: Ctx, depth: nat, m: Meter, k: nat)
    ensures var o := CallDirect(t, s, cx, depth, m);
            Exhausted(o) || CallDirect(t, s, cx, depth, More(m, k)) == MoreOut(o, k)
    decreases m.budget, 2, 0
  {
    hide CallMemIntrinsic, EnterCall, LeaveCall;
    if t !in cx.intrinsics && depth < CLOSURE_DEPTH && t in cx.funcs {
      var s1 := EnterCall(s, cx);
      assert More(m, k).Log(Enter(t, depth + 1)) == More(m.Log(Enter(t, depth + 1)), k);
      if s1.Ok? { BudgetClosure(cx.funcs[t], s1.v, cx, depth + 1, m.Log(Enter(t, depth + 1)), k); }
    }
  }

  // ---- a smaller depth does not matter ---------------------------------------------

  /** Same value, final state and remaining budget; the traces may differ in the
      depths they record. */
  predicate SameDone(o: Out, o': Out) {
    o.Done? ==> o'.Done? && o'.value == o.value && o'.s == o.s && o'.m.budget == o.m.budget
  }

  predicate SameFlow(r: Flow, r': Flow) {
    match r
    case Next(to, s, m) => r'.Next? && r'.to == to && r'.s == s && r'.m.budget == m.budget
    case Leave(o) => o.Done? ==> r'.Leave? && SameDone(o, r'.o)
  }

  /** A run that succeeds at depth `d` succeeds identically at every depth `d'`
      up to `d`: only the cap and the refusal of nested tail calls look at it. */
  lemma {:induction false} DepthClosure(f: IrFunction, s: State, cx: Ctx, d: nat, d': nat, m: Meter, m': Meter)
    requires d' <= d && m'.budget == m.budget
    ensures SameDone(RunClosure(f, s, cx, d, m), RunClosure(f, s, cx, d', m'))
    decreases m.budget, 1, 0
  {
    var id := EntryId(f);
    if id.Some? { DepthFrom(f, id.value, s, cx, d, d', m, m'); }
  }

  lemma {:induction false} DepthFrom(f: IrFunction, cur: nat, s: State, cx: Ctx, d: nat, d': nat, m: Meter, m': Meter)
    requires d' <= d && m'.budget == m.budget
    ensures SameDone(RunFrom(f, cur, s, cx, d, m), RunFrom(f, cur, s, cx, d', m'))
    decreases m.budget, 0, 0
  {
    if m.budget > 0 {
      var b := FindId(f.blocks, cur);
      if b.Some? {
        var e := Ran(b.value.id);
        DepthStmts(b.value.stmts, None, s, cx, d, d', m.Spend().Log(e), m'.Spend().Log(e));
        var r := RunStmts(b.value.stmts, None, s, cx, d, m.Spend().Log(e));
        var r' := RunStmts(b.value.stmts, None, s, cx, d', m'.Spend().Log(e));
        if r.Next? && r.to.Some? { DepthFrom(f, r.to.value, r.s, cx, d, d', r.m, r'.m); }
      }
    }
  }

  lemma {:induction false} DepthStmts(ss: seq<Stmt>, next: Option<nat>, s: State, cx: Ctx, d: nat, d': nat, m: Meter, m': Meter)
    requires d' <= d && m'.budget == m.budget
    ensures SameFlow(RunStmts(ss, next, s, cx, d, m), RunStmts(ss, next, s, cx, d', m'))
    decreases m.budget, 6, |ss|
  {
    if ss != [] {
      DepthStmt(ss[0], next, s, cx, d, d', m, m');
      var r, r' := RunStmt(ss[0], next, s, cx, d, m), RunStmt(ss[0], next, s, cx, d', m');
      if r.Next? { DepthStmts(ss[1..], r.to, r.s, cx, d, d', r.m, r'.m); }
    }
  }

  lemma {:induction false} DepthStmt(st: Stmt, next: Option<nat>, s: State, cx: Ctx, d: nat, d': nat, m: Meter, m': Meter)
    requires d' <= d && m'.budget == m.budget
    ensures SameFlow(RunStmt(st, next, s, cx, d, m), RunStmt(st, next, s, cx, d', m'))
    decreases m.budget, 5, 0
  {
    hide Eval, Exec, WriteLoc;
    match st
    case Return(Some(e)) => DepthReturn(e, s, cx, d, d', m, m');
    case CallStmt(e) => DepthEval(e, s, cx, d, d', m, m');
    case Set(_, e) => DepthEval(e, s, cx, d, d', m, m');
    case _ =>
  }

  lemma {:induction false} DepthReturn(e: Expr, s: State, cx: Ctx, d: nat, d': nat, m: Meter, m': Meter)
    requires d' <= d && m'.budget == m.budget
    ensures SameDone(RunReturn(e, s, cx, d, m), RunReturn(e, s, cx, d', m'))
    decreases m.budget, 4, 0
  {
    if e.Call? && e.target.Direct? && d == 0 && e.target.t in cx.funcs {
      var t := e.target.t;
      DepthClosure(cx.funcs[t], s, cx, 1, 1, m.Log(Enter(t, 1)), m'.Log(Enter(t, 1)));
    } else {
      DepthEval(e, s, cx, d, d', m, m');
    }
  }

  lemma {:induction false} DepthEval(e: Expr, s: State, cx: Ctx, d: nat, d': nat, m: Meter, m': Meter)
    requires d' <= d && m'.budget == m.budget
    ensures SameDone(EvalOrCall(e, s, cx, d, m), EvalOrCall(e, s, cx, d', m'))
    decreases m.budget, 3, 0
  {
    hide Eval, DoMemcall, StubImport;
    if e.Call? && e.target.Direct? {
      DepthCall(e.target.t, s, cx, d, d', m, m');
    } else if e.Call? && e.target.Indirect? {
      var t := Eval(e.target.addr, s, cx);
      if t.Ok? { DepthCall(t.v, s, cx, d, d', m.Log(Indirectly(t.v)), m'.Log(Indirectly(t.v))); }
    }
  }

  lemma {:induction false} DepthCall(t: U64, s: State, cx: Ctx, d: nat, d': nat, m: Meter, m': Meter)
    requires d' <= d && m'.budget == m.budget
    ensures SameDone(CallDirect(t, s, cx, d, m), CallDirect(t, s, cx, d', m'))
    decreases m.budget, 2, 0
  {
    hide CallMemIntrinsic, EnterCall, LeaveCall;
    if t !in cx.intrinsics && d < CLOSURE_DEPTH && t in cx.funcs {
      var s1 := EnterCall(s, cx);
      if s1.Ok? {
        DepthClosure(cx.funcs[t], s1.v, cx, d + 1, d' + 1, m.Log(Enter(t, d + 1)), m'.Log(Enter(t, d' + 1)));
      }
    }
  }

  // ---- the SSA interpreter ---------------------------------------------------------

  /** A run over φ form executes at most `budget` blocks, exactly the spent budget when
      it returns. */
  lemma {:induction false} SsaWorkIsPaid(f: IrFunction, s: State, cx: Ctx, budget: nat)
    ensures var o := RunSsa(f, s, cx, Meter(budget, []));
            && Blocks(o.m.trace) <= budget
            && (o.Done? ==> Blocks(o.m.trace) == budget - o.m.budget)
  {
    var id, m := EntryId(f), Meter(budget, []);
    PaidNothing(m);
    if id.Some? { PaidSsa(f, id.value, s.(prev := None), cx, m); }
  }

  lemma {:induction false} PaidSsa(f: IrFunction, cur: nat, s: State, cx: Ctx, m: Meter)
    ensures var o := SsaFrom(f, cur, s, cx, m); Paid(m, o.m, Lost(o))
    decreases m.budget
  {
    hide Paid, SsaStmts;
    PaidNothing(m);
    if m.budget > 0 {
      var b := FindId(f.blocks, cur);
      if b.Some? {
        var m1 := m.Spend().Log(Ran(b.value.id));
        LogPaid(m, Ran(b.value.id));
        SsaNeverMissing(b.value.stmts, b.value.pred, None, s, cx, m1);
        var r := SsaStmts(b.value.stmts, b.value.pred, None, s, cx, m1);
        if r.Next? && r.to.Some? {
          var s' := r.s.(prev := Some(cur));
          PaidSsa(f, r.to.value, s', cx, m1);
          var o := SsaFrom(f, r.to.value, s', cx, m1);
          PaidThen(m, m1, o.m, Lost(o));
        }
      } else {
        LosesOne(m);
      }
    }
  }

  /** No statement of a block loses or lacks budget. */
  lemma {:induction false} SsaNeverMissing(ss: seq<Stmt>, pred: seq<nat>, next: Option<nat>, s: State, cx: Ctx, m: Meter)
    ensures var r := SsaStmts(ss, pred, next, s, cx, m); LostFlow(r) == 0 && !ExhaustedFlow(r)
    decreases |ss|
  {
    hide Eval, SsaAssign, ExecStore, DoMemcall;
    if ss != [] {
      var r := SsaStmt(ss[0], pred, next, s, cx, m);
      if r.Next? { SsaNeverMissing(ss[1..], pred, r.to, r.s, cx, m); }
    }
  }

  /** The same flow on another meter. */
  function OnMeter(r: Flow, m: Meter): Flow {
    match r
    case Leave(o) => Leave(o.(m := m))
    case Next(to, s, _) => Next(to, s, m)
  }

  lemma {:induction false} SsaStmtsMeter(ss: seq<Stmt>, pred: seq<nat>, next: Option<nat>, s: State, cx: Ctx, m: Meter, m': Meter)
    ensures SsaStmts(ss, pred, next, s, cx, m') == OnMeter(SsaStmts(ss, pred, next, s, cx, m), m')
    decreases |ss|
  {
    hide Eval, SsaAssign, ExecStore, DoMemcall;
    if ss != [] {
      var r := SsaStmt(ss[0], pred, next, s, cx, m);
      assert SsaStmt(ss[0], pred, next, s, cx, m') == OnMeter(r, m');
      if r.Next? { SsaStmtsMeter(ss[1..], pred, r.to, r.s, cx, m, m'); }
    }
  }

  /** Budget independence over φ form. */
  lemma {:induction false} BudgetSsa(f: IrFunction, s: State, cx: Ctx, m: Meter, k: nat)
    ensures var o := RunSsa(f, s, cx, m);
            Exhausted(o) || RunSsa(f, s, cx, More(m, k)) == MoreOut(o, k)
  {
    var id := EntryId(f);
    if id.Some? { BudgetSsaFrom(f, id.value, s.(prev := None), cx, m, k); }
  }

  lemma {:induction false} BudgetSsaFrom(f: IrFunction, cur: nat, s: State, cx: Ctx, m: Meter, k: nat)
    ensures var o := SsaFrom(f, cur, s, cx, m);
            Exhausted(o) || SsaFrom(f, cur, s, cx, More(m, k)) == MoreOut(o, k)
    decreases m.budget
  {
    hide SsaStmts;
    if m.budget > 0 {
      var b := FindId(f.blocks, cur);
      assert More(m, k).Spend() == More(m.Spend(), k);
      if b.Some? {
        var m1 := m.Spend().Log(Ran(b.value.id));
        assert More(m, k).Spend().Log(Ran(b.value.id)) == More(m1, k);
        SsaStmtsMeter(b.value.stmts, b.value.pred, None, s, cx, m1, More(m1, k));
        var r := SsaStmts(b.value.stmts, b.value.pred, None, s, cx, m1);
        if r.Next? && r.to.Some? { BudgetSsaFrom(f, r.to.value, r.s.(prev := Some(cur)), cx, m1, k); }
      }
    }
  }
}
