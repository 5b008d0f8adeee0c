/** The closure interpreter: `run_closure`, `eval_or_call` and `call_direct`
    (src/cpudiff.rs:444-619) as one mutually recursive function over a shared
    budget. The meter's trace records what a run does; it influences nothing. */
module Closure {
  import opened Basics
  import opened Ir
  import opened Memory
  import opened Machine
  import opened StringOps
  import Word

  const CLOSURE_DEPTH: nat := 200
  const FN_RET_SENTINEL: U64 := 0xdead_1000

  /** Why a run stops without a result; the source answers `None` in every case. */
  datatype Why =
    | Inner(trouble: Trouble)
    | OutOfBudget
    | NoEntryBlock
    | NoBlock
    | NoTerminator
    | NestedTailCall
    | IndirectTailCall
    | NoReturnValue
    | SwitchOrAsm
    | UnknownCallee
    | UnknownPop
    | UnknownTailCallee
    | DepthCap

  datatype Event =
    | Enter(t: U64, depth: nat)
    | Ran(block: nat)
    | Indirectly(t: U64)

  datatype Meter = Meter(budget: nat, trace: seq<Event>) {
    function Log(e: Event): Meter { this.(trace := trace + [e]) }
    function Spend(): Meter requires budget > 0 { this.(budget := budget - 1) }
  }

  datatype Out = Done(value: U64, s: State, m: Meter) | Skip(why: Why, m: Meter)

  /** After a statement: the function is left, or control goes on with the
      block's successor as chosen so far. */
  datatype Flow = Leave(o: Out) | Next(to: Option<nat>, s: State, m: Meter)

  function FlowMeter(f: Flow): Meter {
    match f case Leave(o) => o.m case Next(_, _, m) => m
  }

  predicate Later(m: Meter, m': Meter) { m'.budget <= m.budget && m.trace <= m'.trace }

  function FindAddr(bs: seq<Block>, a: U64): (r: Option<Block>)
    ensures r.Some? ==> r.value in bs && r.value.addr == a
    ensures r.None? ==> forall b :: b in bs ==> b.addr != a
  {
    if bs == [] then None else if bs[0].addr == a then Some(bs[0]) else FindAddr(bs[1..], a)
  }

  function FindId(bs: seq<Block>, id: nat): (r: Option<Block>)
    ensures r.Some? ==> r.value in bs && r.value.id == id
    ensures r.None? ==> forall b :: b in bs ==> b.id != id
  {
    if bs == [] then None else if bs[0].id == id then Some(bs[0]) else FindId(bs[1..], id)
  }

  /** The block at the entry address, else the first one. */
  function EntryId(f: IrFunction): Option<nat> {
    match FindAddr(f.blocks, f.entry)
    case Some(b) => Some(b.id)
    case None => if f.blocks == [] then None else Some(f.blocks[0].id)
  }

  function Lift(r: Res<U64>, s: State, m: Meter): Out {
    match r case Ok(v) => Done(v, s, m) case Fail(why) => Skip(Inner(why), m)
  }

  function GoOn(r: Res<State>, next: Option<nat>, m: Meter): Flow {
    match r case Ok(s) => Next(next, s, m) case Fail(why) => Leave(Skip(Inner(why), m))
  }

  function RunClosure(f: IrFunction, s: State, cx: Ctx, depth: nat, m: Meter): (o: Out)
    ensures Later(m, o.m)
    decreases m.budget, 1, 0
  {
    match EntryId(f)
    case None => Skip(NoEntryBlock, m)
    case Some(id) => RunFrom(f, id, s, cx, depth, m)
  }

  function RunFrom(f: IrFunction, cur: nat, s: State, cx: Ctx, depth: nat, m: Meter): (o: Out)
    ensures Later(m, o.m)
    decreases m.budget, 0, 0
  {
    if m.budget == 0 then Skip(OutOfBudget, m)
    else
      match FindId(f.blocks, cur)
      case None => Skip(NoBlock, m.Spend())
      case Some(b) =>
        match RunStmts(b.stmts, None, s, cx, depth, m.Spend().Log(Ran(b.id)))
        case Leave(o) => o
        case Next(None, _, m') => Skip(NoTerminator, m')
        case Next(Some(id), s', m') => RunFrom(f, id, s', cx, depth, m')
  }

  function RunStmts(ss: seq<Stmt>, next: Option<nat>, s: State, cx: Ctx, depth: nat, m: Meter): (r: Flow)
    ensures Later(m, FlowMeter(r))
    decreases m.budget, 6, |ss|
  {
    if ss == [] then Next(next, s, m)
    else
      match RunStmt(ss[0], next, s, cx, depth, m)
      case Leave(o) => Leave(o)
      case Next(next', s', m') => RunStmts(ss[1..], next', s', cx, depth, m')
  }

  function RunStmt(st: Stmt, next: Option<nat>, s: State, cx: Ctx, depth: nat, m: Meter): (r: Flow)
    ensures Later(m, FlowMeter(r))
    decreases m.budget, 5, 0
  {
    match st
    case Branch(cond, taken, fallthrough) =>
      (match Eval(cond, s, cx)
       case Ok(c) => Next(Some(if c != 0 then taken else fallthrough), s, m)
       case Fail(why) => Leave(Skip(Inner(why), m)))
    case Jump(to) => Next(Some(to), s, m)
    case Return(None) => Leave(Skip(NoReturnValue, m))
    case Return(Some(e)) => Leave(RunReturn(e, s, cx, depth, m))
    case CallStmt(e) =>
      (match EvalOrCall(e, s, cx, depth, m)
       case Done(_, s', m') => Next(next, s', m')
       case Skip(why, m') => Leave(Skip(why, m')))
    case Set(dst, e) =>
      if e.Undef? then Next(next, s, m)
      else
        (match EvalOrCall(e, s, cx, depth, m)
         case Done(v, s', m') => GoOn(WriteLoc(dst, v, s'), next, m')
         case Skip(why, m') => Leave(Skip(why, m')))
    case Switch(_) => Leave(Skip(SwitchOrAsm, m))
    case Asm(_) => Leave(Skip(SwitchOrAsm, m))
    case _ => GoOn(Exec(st, s, cx), next, m)
  }

  /** A direct tail call is followed at the top level only, without a push. */
  function RunReturn(e: Expr, s: State, cx: Ctx, depth: nat, m: Meter): (o: Out)
    ensures Later(m, o.m)
    decreases m.budget, 4, 0
  {
    if e.Call? && e.target.Direct? then
      var t := e.target.t;
      if depth != 0 then Skip(NestedTailCall, m)
      else if t !in cx.funcs then Skip(UnknownTailCallee, m)
      else RunClosure(cx.funcs[t], s, cx, 1, m.Log(Enter(t, 1)))
    else if e.Call? && e.target.Indirect? then Skip(IndirectTailCall, m)
    else EvalOrCall(e, s, cx, depth, m)
  }

  function EvalOrCall(e: Expr, s: State, cx: Ctx, depth: nat, m: Meter): (o: Out)
    ensures Later(m, o.m)
    decreases m.budget, 3, 0
  {
    if e.Call? then
      match e.target
      case Direct(t) => CallDirect(t, s, cx, depth, m)
      case Named(n) =>
        if IsMemcall(n, |e.args|) then
          (match DoMemcall(n, e.args, s, cx)
           case Ok(s') => Done(0, s', m)
           case Fail(why) => Skip(Inner(why), m))
        else if n in cx.stubs then Done(0, StubImport(s), m)
        else Lift(Eval(e, s, cx), s, m)
      case Indirect(addr) =>
        (match Eval(addr, s, cx)
         case Ok(t) => CallDirect(t, s, cx, depth, m.Log(Indirectly(t)))
         case Fail(why) => Skip(Inner(why), m))
    else Lift(Eval(e, s, cx), s, m)
  }

  /** A stubbed import returns 0 in edx:eax; its slot is recorded, not written. */
  function StubImport(s: State): State {
    var esp: int := s.regs[4];
    s.(regs := s.regs[0 := 0][2 := 0], retSlots := s.retSlots + [Word.Wrap(esp - 4)])
  }

  /** The hardware call/return discipline: push, run the callee, `ret N`. */
  function CallDirect(t: U64, s: State, cx: Ctx, depth: nat, m: Meter): (o: Out)
    ensures Later(m, o.m)
    decreases m.budget, 2, 0
  {
    if t in cx.intrinsics then
      match CallMemIntrinsic(cx.intrinsics[t], s, cx)
      case Ok(sv) => Done(sv.1, sv.0, m)
      case Fail(why) => Skip(Inner(why), m)
    else if depth >= CLOSURE_DEPTH then Skip(DepthCap, m)
    else if t !in cx.funcs then Skip(UnknownCallee, m)
    else if t !in cx.retPops then Skip(UnknownPop, m)
    else
      match EnterCall(s, cx)
      case Fail(why) => Skip(Inner(why), m)
      case Ok(s1) =>
        match RunClosure(cx.funcs[t], s1, cx, depth + 1, m.Log(Enter(t, depth + 1)))
        case Skip(why, m') => Skip(why, m')
        case Done(v, s2, m') => Done(v, LeaveCall(s2, s.regs[4], cx.retPops[t]), m')
  }

  function EnterCall(s: State, cx: Ctx): Res<State> {
    var esp: int := s.regs[4];
    var s' :- PushReturn(s, cx);
    Ok(s'.(regs := s'.regs[4 := Word.Wrap(esp - 4)]))
  }

  function LeaveCall(s: State, esp: U64, pop: int): State {
    s.(regs := s.regs[4 := Word.Wrap(esp + pop)])
  }

  // ---- the bound on work and nesting -----------------------------------------

  function Blocks(trace: seq<Event>): (n: nat) {
    if trace == [] then 0
    else Blocks(trace[..|trace| - 1]) + (if trace[|trace| - 1].Ran? then 1 else 0)
  }

  predicate Shallow(trace: seq<Event>) {
    forall e :: e in trace && e.Enter? ==> e.depth <= CLOSURE_DEPTH
  }
}
