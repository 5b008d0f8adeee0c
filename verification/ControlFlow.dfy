/** Laws of control flow on whole runs of the two interpreters (`run_closure`,
    `eval_or_call`, `call_direct`, `run_ssa`, src/cpudiff.rs:444-619, 690-754): where
    branches, jumps, returns and calls lead. */
module ControlFlow {
  import opened Basics
  import opened Ir
  import opened Memory
  import opened Machine
  import opened StringOps
  import opened Closure
  import opened Ssa
  import EvalLaws
  import Word

  /** The first block with this id. */
  ghost predicate BlockIs(f: IrFunction, id: nat, stmts: seq<Stmt>) {
    FindId(f.blocks, id).Some? && FindId(f.blocks, id).value.stmts == stmts
  }

  /** The meter at the start of a block. */
  function Enters(m: Meter, id: nat): Meter
    requires m.budget > 0
  {
    m.Spend().Log(Ran(id))
  }

  // ---- sequences ----------------------------------------------------------------------------

  lemma {:induction false} StmtsSplit(pre: seq<Stmt>, post: seq<Stmt>, next: Option<nat>, s: State, cx: Ctx, depth: nat, m: Meter)
    ensures RunStmts(pre + post, next, s, cx, depth, m) ==
            match RunStmts(pre, next, s, cx, depth, m)
            case Leave(o) => Leave(o)
            case Next(next', s', m') => RunStmts(post, next', s', cx, depth, m')
    decreases |pre|
  {
    hide RunStmt;
    if pre == [] {
      assert pre + post == post;
    } else {
      assert (pre + post)[0] == pre[0] && (pre + post)[1..] == pre[1..] + post;
      var r := RunStmt(pre[0], next, s, cx, depth, m);
      if r.Next? { StmtsSplit(pre[1..], post, r.to, r.s, cx, depth, r.m); }
    }
  }

  lemma {:induction false} OneStmt(st: Stmt, next: Option<nat>, s: State, cx: Ctx, depth: nat, m: Meter)
    ensures RunStmts([st], next, s, cx, depth, m) == RunStmt(st, next, s, cx, depth, m)
  {
    hide RunStmt;
    assert [st][1..] == [];
    var r := RunStmt(st, next, s, cx, depth, m);
    if r.Next? { assert RunStmts([], r.to, r.s, cx, depth, r.m) == r; }
  }

  // ---- branches and jumps -----------------------------------------------------------------------

  /** A block ending in a branch: whatever runs before it, the run goes on as the run from
      the first target when the condition is not zero there, and from the second when it
      is. */
  lemma {:induction false} BranchLeads(f: IrFunction, cur: nat, pre: seq<Stmt>, e: Expr, t: nat, u: nat,
                                       s: State, cx: Ctx, depth: nat, m: Meter, c: U64)
    requires m.budget > 0 && BlockIs(f, cur, pre + [Branch(e, t, u)])
    requires var r := RunStmts(pre, None, s, cx, depth, Enters(m, cur)); r.Next? && Eval(e, r.s, cx) == Ok(c)
    ensures var r := RunStmts(pre, None, s, cx, depth, Enters(m, cur));
            && (c != 0 ==> RunFrom(f, cur, s, cx, depth, m) == RunFrom(f, t, r.s, cx, depth, r.m))
            && (c == 0 ==> RunFrom(f, cur, s, cx, depth, m) == RunFrom(f, u, r.s, cx, depth, r.m))
  {
    hide Eval, Exec, WriteLoc;
    var m1 := Enters(m, cur);
    var r := RunStmts(pre, None, s, cx, depth, m1);
    StmtsSplit(pre, [Branch(e, t, u)], None, s, cx, depth, m1);
    OneStmt(Branch(e, t, u), r.to, r.s, cx, depth, r.m);
    hide RunStmts;
  }

  lemma {:induction false} JumpLeads(f: IrFunction, cur: nat, pre: seq<Stmt>, t: nat, s: State, cx: Ctx, depth: nat, m: Meter)
    requires m.budget > 0 && BlockIs(f, cur, pre + [Jump(t)])
    requires RunStmts(pre, None, s, cx, depth, Enters(m, cur)).Next?
    ensures var r := RunStmts(pre, None, s, cx, depth, Enters(m, cur));
            RunFrom(f, cur, s, cx, depth, m) == RunFrom(f, t, r.s, cx, depth, r.m)
  {
    hide Eval, Exec, WriteLoc;
    var m1 := Enters(m, cur);
    var r := RunStmts(pre, None, s, cx, depth, m1);
    StmtsSplit(pre, [Jump(t)], None, s, cx, depth, m1);
    OneStmt(Jump(t), r.to, r.s, cx, depth, r.m);
    hide RunStmts;
  }

  /** An expression that is no call: evaluating it is all it does. */
  predicate Plain(e: Expr) { !e.Call? }

  /** A block ending in a return of a plain expression: the run's value is the
      expression's, in the state just before. */
  lemma {:induction false} ReturnGives(f: IrFunction, cur: nat, pre: seq<Stmt>, e: Expr, s: State, cx: Ctx, depth: nat, m: Meter)
    requires m.budget > 0 && Plain(e) && BlockIs(f, cur, pre + [Return(Some(e))])
    requires RunStmts(pre, None, s, cx, depth, Enters(m, cur)).Next?
    ensures var r := RunStmts(pre, None, s, cx, depth, Enters(m, cur));
            RunFrom(f, cur, s, cx, depth, m) ==
            match Eval(e, r.s, cx) case Ok(v) => Done(v, r.s, r.m) case Fail(why) => Skip(Inner(why), r.m)
  {
    hide Eval, Exec, WriteLoc;
    var m1 := Enters(m, cur);
    var r := RunStmts(pre, None, s, cx, depth, m1);
    StmtsSplit(pre, [Return(Some(e))], None, s, cx, depth, m1);
    OneStmt(Return(Some(e)), r.to, r.s, cx, depth, r.m);
    assert RunReturn(e, r.s, cx, depth, r.m) == EvalOrCall(e, r.s, cx, depth, r.m);
    hide RunStmts;
  }

  /** Which block a run starts with: the one at the entry address, or without one the
      first of all; a function without blocks does not run. */
  lemma {:induction false} EntryBlock(f: IrFunction, b: Block, s: State, cx: Ctx, depth: nat, m: Meter)
    requires forall i, j :: 0 <= i < j < |f.blocks| ==> f.blocks[i].addr != f.blocks[j].addr
    ensures f.blocks == [] ==> RunClosure(f, s, cx, depth, m) == Skip(NoEntryBlock, m)
    ensures b in f.blocks && b.addr == f.entry ==> RunClosure(f, s, cx, depth, m) == RunFrom(f, b.id, s, cx, depth, m)
    ensures f.blocks != [] && (forall x :: x in f.blocks ==> x.addr != f.entry) ==>
              RunClosure(f, s, cx, depth, m) == RunFrom(f, f.blocks[0].id, s, cx, depth, m)
  {
    hide RunFrom;
    if b in f.blocks && b.addr == f.entry {
      var x := FindAddr(f.blocks, f.entry).value;
      var i :| 0 <= i < |f.blocks| && f.blocks[i] == b;
      var j :| 0 <= j < |f.blocks| && f.blocks[j] == x;
      assert i == j;
    }
  }

  /** Two-way choice on whole runs: an entry block that branches to two blocks returning
      constants returns the first constant if and only if the condition is not zero and
      the second if and only if it is. */
  lemma {:induction false} TwoWay(f: IrFunction, b0: nat, e: Expr, t: nat, u: nat, x: U64, y: U64,
                                  s: State, cx: Ctx, depth: nat, m: Meter)
    requires m.budget >= 2 && x != y && EntryId(f) == Some(b0)
    requires BlockIs(f, b0, [Branch(e, t, u)])
    requires BlockIs(f, t, [Return(Some(Const(x, Unknown)))]) && BlockIs(f, u, [Return(Some(Const(y, Unknown)))])
    requires Eval(e, s, cx).Ok?
    ensures var o := RunClosure(f, s, cx, depth, m);
            && o.Done? && o.s == s && o.m.budget == m.budget - 2
            && (o.value == x <==> Eval(e, s, cx).v != 0)
            && (o.value == y <==> Eval(e, s, cx).v == 0)
  {
    hide Eval, RunStmt, RunFrom;
    var c, m1 := Eval(e, s, cx).v, Enters(m, b0);
    var pre: seq<Stmt> := [];
    assert pre + [Branch(e, t, u)] == [Branch(e, t, u)];
    BranchLeads(f, b0, pre, e, t, u, s, cx, depth, m, c);
    var target, v := if c != 0 then t else u, if c != 0 then x else y;
    assert pre + [Return(Some(Const(v, Unknown)))] == [Return(Some(Const(v, Unknown)))];
    ReturnGives(f, target, pre, Const(v, Unknown), s, cx, depth, m1);
    ConstValue(v, s, cx);
  }

  lemma {:induction false} ConstValue(v: U64, s: State, cx: Ctx)
    ensures Eval(Const(v, Unknown), s, cx) == Ok(v)
  {}

  // ---- statements ----------------------------------------------------------------------------------

  /** A set of a plain value writes that value to that location; a set of an undefined
      value writes nothing; neither chooses a successor. */
  lemma {:induction false} SetWrites(dst: Location, e: Expr, next: Option<nat>, s: State, cx: Ctx, depth: nat, m: Meter)
    requires Plain(e)
    ensures RunStmts([Set(dst, Undef)], next, s, cx, depth, m) == Next(next, s, m)
    ensures !e.Undef? ==> RunStmts([Set(dst, e)], next, s, cx, depth, m) == GoOn(Exec(Set(dst, e), s, cx), next, m)
  {
    hide Eval, WriteLoc;
    OneStmt(Set(dst, Undef), next, s, cx, depth, m);
    OneStmt(Set(dst, e), next, s, cx, depth, m);
    hide RunStmts;
  }

  // ---- calls ------------------------------------------------------------------------------------------

  /** A finished call of a recovered function: the value is the callee's; the callee
      started 4 bytes lower with the return address at its esp; the caller's esp is
      back, plus the callee's `ret N`; every other register, the memory, the flags and
      the slots are as the callee left them. */
  lemma {:induction false} CallDiscipline(t: U64, s: State, cx: Ctx, depth: nat, m: Meter)
    requires t !in cx.intrinsics && CallDirect(t, s, cx, depth, m).Done?
    ensures t in cx.funcs && t in cx.retPops && depth < CLOSURE_DEPTH && EnterCall(s, cx).Ok?
    ensures var s1 := EnterCall(s, cx).v;
            var o, callee := CallDirect(t, s, cx, depth, m), RunClosure(cx.funcs[t], s1, cx, depth + 1, m.Log(Enter(t, depth + 1)));
            && (s1.regs[4] + 4) % TWO64 == s.regs[4]
            && MemRead(s1.ram.mem, s1.regs[4], 4) == Some(cx.ra(|s.retSlots|) % TWO32)
            && s1.retSlots == s.retSlots + [s1.regs[4]]
            && (forall i :: 0 <= i < 8 && i != 4 ==> s1.regs[i] == s.regs[i])
            && callee.Done? && o.value == callee.value && o.m == callee.m
            && (o.s.regs[4] - s.regs[4] - cx.retPops[t]) % TWO64 == 0
            && (forall i :: 0 <= i < 8 && i != 4 ==> o.s.regs[i] == callee.s.regs[i])
            && o.s == callee.s.(regs := o.s.regs)
  {
    hide RunClosure, CallMemIntrinsic, EnterCall, LeaveCall;
    EnterState(s, cx);
    var callee := RunClosure(cx.funcs[t], EnterCall(s, cx).v, cx, depth + 1, m.Log(Enter(t, depth + 1)));
    LeaveState(callee.s, s.regs[4], cx.retPops[t]);
  }

  /** The state a callee starts in. */
  lemma {:induction false} EnterState(s: State, cx: Ctx)
    requires EnterCall(s, cx).Ok?
    ensures var s1 := EnterCall(s, cx).v;
            && (s1.regs[4] + 4) % TWO64 == s.regs[4]
            && MemRead(s1.ram.mem, s1.regs[4], 4) == Some(cx.ra(|s.retSlots|) % TWO32)
            && s1.retSlots == s.retSlots + [s1.regs[4]]
            && (forall i :: 0 <= i < 8 && i != 4 ==> s1.regs[i] == s.regs[i])
  {
    hide RamPush, MemRead;
    PushedAddress(s, cx);
  }

  /** The state after its `ret N`. */
  lemma {:induction false} LeaveState(s: State, esp: U64, pop: int)
    ensures var s' := LeaveCall(s, esp, pop);
            && (s'.regs[4] - esp - pop) % TWO64 == 0
            && (forall i :: 0 <= i < 8 && i != 4 ==> s'.regs[i] == s.regs[i])
            && s' == s.(regs := s'.regs)
  {}

  lemma {:induction false} PushedAddress(s: State, cx: Ctx)
    requires PushReturn(s, cx).Ok?
    ensures var esp: int := s.regs[4];
            MemRead(PushReturn(s, cx).v.ram.mem, Word.Wrap(esp - 4), 4) == Some(cx.ra(|s.retSlots|) % TWO32)
  {
    hide MemWrite, MemRead, Locate;
    var esp: int := s.regs[4];
    ReadAfterWrite(s.ram.mem, Word.Wrap(esp - 4), 4, cx.ra(|s.retSlots|));
    assert Pow256(4) == TWO32;
  }

  /** When a direct call does not finish: a host-backed target aside, exactly for a cap
      reached, an unknown function, an unknown `ret N`, a push outside the mapping or a
      callee that stops. */
  lemma {:induction false} CallStops(t: U64, s: State, cx: Ctx, depth: nat, m: Meter)
    requires t !in cx.intrinsics
    ensures CallDirect(t, s, cx, depth, m).Done? <==>
            && depth < 200 && t in cx.funcs && t in cx.retPops && EnterCall(s, cx).Ok?
            && RunClosure(cx.funcs[t], EnterCall(s, cx).v, cx, depth + 1, m.Log(Enter(t, depth + 1))).Done?
  {
    hide RunClosure, EnterCall, LeaveCall;
  }

  /** A direct tail call at the top level is the run of its target, with nothing pushed;
      nested, or indirect, it stops the run. */
  lemma {:induction false} TailCallLeads(f: IrFunction, cur: nat, t: U64, args: seq<Expr>, addr: Expr, s: State, cx: Ctx, depth: nat, m: Meter)
    requires m.budget > 0
    ensures BlockIs(f, cur, [Return(Some(Call(Direct(t), args)))]) && depth == 0 && t in cx.funcs ==>
              RunFrom(f, cur, s, cx, depth, m) == RunClosure(cx.funcs[t], s, cx, 1, Enters(m, cur).Log(Enter(t, 1)))
    ensures BlockIs(f, cur, [Return(Some(Call(Direct(t), args)))]) && (depth > 0 || t !in cx.funcs) ==>
              RunFrom(f, cur, s, cx, depth, m).Skip?
    ensures BlockIs(f, cur, [Return(Some(Call(Indirect(addr), args)))]) ==> RunFrom(f, cur, s, cx, depth, m).Skip?
  {
    hide RunClosure, EvalOrCall;
    OneStmt(Return(Some(Call(Direct(t), args))), None, s, cx, depth, Enters(m, cur));
    OneStmt(Return(Some(Call(Indirect(addr), args))), None, s, cx, depth, Enters(m, cur));
    hide RunStmts;
  }

  /** The value of a call statement is dropped, that of a set is written. */
  lemma {:induction false} CallValue(t: U64, args: seq<Expr>, dst: Location, next: Option<nat>, s: State, cx: Ctx, depth: nat, m: Meter)
    requires CallDirect(t, s, cx, depth, m).Done?
    ensures var o := CallDirect(t, s, cx, depth, m);
            && RunStmts([CallStmt(Call(Direct(t), args))], next, s, cx, depth, m) == Next(next, o.s, o.m)
            && RunStmts([Set(dst, Call(Direct(t), args))], next, s, cx, depth, m) == GoOn(WriteLoc(dst, o.value, o.s), next, o.m)
  {
    hide CallDirect, WriteLoc;
    OneStmt(CallStmt(Call(Direct(t), args)), next, s, cx, depth, m);
    OneStmt(Set(dst, Call(Direct(t), args)), next, s, cx, depth, m);
    assert EvalOrCall(Call(Direct(t), args), s, cx, depth, m) == CallDirect(t, s, cx, depth, m);
    hide RunStmts, EvalOrCall;
  }

  /** An indirect call is the direct call of the address it computes. */
  lemma {:induction false} IndirectIsDirect(addr: Expr, args: seq<Expr>, s: State, cx: Ctx, depth: nat, m: Meter, t: U64)
    requires Eval(addr, s, cx) == Ok(t)
    ensures EvalOrCall(Call(Indirect(addr), args), s, cx, depth, m)
            == EvalOrCall(Call(Direct(t), args), s, cx, depth, m.Log(Indirectly(t)))
  {
    hide CallDirect, Eval;
  }

  /** A stubbed import: 0 in eax and edx, nothing else changed but the recorded slot. */
  lemma {:induction false} StubReturns(n: Name, args: seq<Expr>, s: State, cx: Ctx, depth: nat, m: Meter)
    requires n in cx.stubs && !IsMemcall(n, |args|)
    ensures var o := EvalOrCall(Call(Named(n), args), s, cx, depth, m);
            && o.Done? && o.value == 0 && o.m == m && o.s.ram == s.ram
            && o.s == s.(regs := o.s.regs, retSlots := o.s.retSlots)
            && o.s.regs[0] == 0 && o.s.regs[2] == 0
            && (forall i :: 0 <= i < 8 && i != 0 && i != 2 ==> o.s.regs[i] == s.regs[i])
            && |o.s.retSlots| == |s.retSlots| + 1 && o.s.retSlots[..|s.retSlots|] == s.retSlots
            && (o.s.retSlots[|s.retSlots|] + 4) % TWO64 == s.regs[4]
  {}

  /** A modelled memory call acts on the values of its arguments in order, changes memory
      only and gives 0. */
  lemma {:induction false} MemcallActs(n: Name, args: seq<Expr>, vs: seq<U64>, s: State, cx: Ctx, depth: nat, m: Meter)
    requires IsMemcall(n, |args|) && |vs| == |args| && forall i :: 0 <= i < |args| ==> Eval(args[i], s, cx) == Ok(vs[i])
    ensures EvalOrCall(Call(Named(n), args), s, cx, depth, m) ==
            match MemcallRam(n, vs, s.ram, cx.monitor)
            case Ok(r) => Done(0, s.(ram := r), m)
            case Fail(why) => Skip(Inner(why), m)
  {
    EvalLaws.ArgumentsInOrder(args, vs, s, cx);
    hide EvalArgs, Eval, MemcallRam;
  }

  // ---- the SSA interpreter --------------------------------------------------------------------------------

  lemma {:induction false} SsaSplit(pre: seq<Stmt>, post: seq<Stmt>, pred: seq<nat>, next: Option<nat>, s: State, cx: Ctx, m: Meter)
    ensures SsaStmts(pre + post, pred, next, s, cx, m) ==
            match SsaStmts(pre, pred, next, s, cx, m)
            case Leave(o) => Leave(o)
            case Next(next', s', m') => SsaStmts(post, pred, next', s', cx, m')
    decreases |pre|
  {
    hide SsaStmt;
    if pre == [] {
      assert pre + post == post;
    } else {
      assert (pre + post)[0] == pre[0] && (pre + post)[1..] == pre[1..] + post;
      var r := SsaStmt(pre[0], pred, next, s, cx, m);
      if r.Next? { SsaSplit(pre[1..], post, pred, r.to, r.s, cx, r.m); }
    }
  }

  lemma {:induction false} OneSsa(st: Stmt, pred: seq<nat>, next: Option<nat>, s: State, cx: Ctx, m: Meter)
    ensures SsaStmts([st], pred, next, s, cx, m) == SsaStmt(st, pred, next, s, cx, m)
  {
    hide SsaStmt;
    assert [st][1..] == [];
    var r := SsaStmt(st, pred, next, s, cx, m);
    if r.Next? { assert SsaStmts([], pred, r.to, r.s, cx, r.m) == r; }
  }

  /** The branch law over SSA form; the successor sees this block as its predecessor. */
  lemma {:induction false} SsaBranchLeads(f: IrFunction, cur: nat, b: Block, pre: seq<Stmt>, e: Expr, t: nat, u: nat,
                                          s: State, cx: Ctx, m: Meter, c: U64)
    requires m.budget > 0 && FindId(f.blocks, cur) == Some(b) && b.stmts == pre + [Branch(e, t, u)]
    requires var r := SsaStmts(pre, b.pred, None, s, cx, Enters(m, cur)); r.Next? && Eval(e, r.s, cx) == Ok(c)
    ensures var r := SsaStmts(pre, b.pred, None, s, cx, Enters(m, cur));
            && (c != 0 ==> SsaFrom(f, cur, s, cx, m) == SsaFrom(f, t, r.s.(prev := Some(cur)), cx, r.m))
            && (c == 0 ==> SsaFrom(f, cur, s, cx, m) == SsaFrom(f, u, r.s.(prev := Some(cur)), cx, r.m))
  {
    hide Eval, SsaAssign, ExecStore, DoMemcall;
    var m1 := Enters(m, cur);
    var r := SsaStmts(pre, b.pred, None, s, cx, m1);
    SsaSplit(pre, [Branch(e, t, u)], b.pred, None, s, cx, m1);
    OneSsa(Branch(e, t, u), b.pred, r.to, r.s, cx, r.m);
    hide SsaStmts;
  }

  /** Jumps and returns over SSA form. */
  lemma {:induction false} SsaJumpLeads(f: IrFunction, cur: nat, b: Block, pre: seq<Stmt>, t: nat, s: State, cx: Ctx, m: Meter)
    requires m.budget > 0 && FindId(f.blocks, cur) == Some(b) && b.stmts == pre + [Jump(t)]
    requires SsaStmts(pre, b.pred, None, s, cx, Enters(m, cur)).Next?
    ensures var r := SsaStmts(pre, b.pred, None, s, cx, Enters(m, cur));
            SsaFrom(f, cur, s, cx, m) == SsaFrom(f, t, r.s.(prev := Some(cur)), cx, r.m)
  {
    hide Eval, SsaAssign, ExecStore, DoMemcall;
    var m1 := Enters(m, cur);
    var r := SsaStmts(pre, b.pred, None, s, cx, m1);
    SsaSplit(pre, [Jump(t)], b.pred, None, s, cx, m1);
    OneSsa(Jump(t), b.pred, r.to, r.s, cx, r.m);
    hide SsaStmts;
  }

  lemma {:induction false} SsaReturnGives(f: IrFunction, cur: nat, b: Block, pre: seq<Stmt>, e: Expr, s: State, cx: Ctx, m: Meter)
    requires m.budget > 0 && FindId(f.blocks, cur) == Some(b) && b.stmts == pre + [Return(Some(e))]
    requires SsaStmts(pre, b.pred, None, s, cx, Enters(m, cur)).Next?
    ensures var r := SsaStmts(pre, b.pred, None, s, cx, Enters(m, cur));
            SsaFrom(f, cur, s, cx, m) ==
            match Eval(e, r.s, cx) case Ok(v) => Done(v, r.s, r.m) case Fail(why) => Skip(Inner(why), r.m)
  {
    hide Eval, SsaAssign, ExecStore, DoMemcall;
    var m1 := Enters(m, cur);
    var r := SsaStmts(pre, b.pred, None, s, cx, m1);
    SsaSplit(pre, [Return(Some(e))], b.pred, None, s, cx, m1);
    OneSsa(Return(Some(e)), b.pred, r.to, r.s, cx, r.m);
    hide SsaStmts;
  }

  /** An assigned value is what later uses read, and no other value changes; a φ takes
      the argument at the position of the block arrived from. */
  lemma {:induction false} AssignBinds(dst: nat, e: Expr, pred: seq<nat>, next: Option<nat>, s: State, cx: Ctx, m: Meter, v: U64, x: nat)
    requires Plain(e) && !e.Phi? && Eval(e, s, cx) == Ok(v)
    ensures var r := SsaStmts([Assign(dst, e)], pred, next, s, cx, m);
            && r.Next? && r.to == next && r.m == m && r.s == s.(vids := r.s.vids)
            && Eval(Use(dst), r.s, cx) == Ok(v)
            && (x != dst ==> Eval(Use(x), r.s, cx) == Eval(Use(x), s, cx))
  {
    OneSsa(Assign(dst, e), pred, next, s, cx, m);
  }

  lemma {:induction false} PhiTakesEdge(dst: nat, args: seq<nat>, pred: seq<nat>, i: nat, next: Option<nat>, s: State, cx: Ctx, m: Meter)
    requires i < |pred| && i < |args| && s.prev == Some(pred[i]) && args[i] in s.vids
    requires forall j, k :: 0 <= j < k < |pred| ==> pred[j] != pred[k]
    ensures var r := SsaStmts([Assign(dst, Phi(args))], pred, next, s, cx, m);
            r.Next? && Eval(Use(dst), r.s, cx) == Eval(Use(args[i]), s, cx)
  {
    OneSsa(Assign(dst, Phi(args)), pred, next, s, cx, m);
    assert PredIndex(pred, pred[i]) == Some(i);
  }
}
