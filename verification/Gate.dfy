/** The static gate: `check_expr_calls`, `fn_local_targets` and
    `is_closure_modelable` (src/cpudiff.rs:2311-2446), and what acceptance means
    for the runs of an entry. */
module Gate {
  import opened Basics
  import opened Ir
  import opened Memory
  import opened Machine
  import opened StringOps
  import opened Closure

  predicate IsHelper(n: Name) {
    n.IxUdiv32? || n.IxUmod32? || n.IxIdiv32? || n.IxImod32? || n.IxPf? || n.Helper?
  }

  /** The recovered direct-call targets inside `e`, or None if some call in it
      cannot be followed. */
  function ExprTargets(e: Expr, cx: Ctx): Option<seq<U64>>
    decreases e, 0
  {
    match e
    case Call(target, args) =>
      var first := (match target
        case Direct(t) =>
          if t in cx.intrinsics then Some([])
          else if t !in cx.funcs || t !in cx.retPops then None
          else Some([t])
        case Named(n) =>
          if !IsHelper(n) && !IsMemcall(n, |args|) && n !in cx.stubs then None else Some([])
        case Indirect(addr) => ExprTargets(addr, cx));
      Both(first, ArgsTargets(args, cx))
    case Unary(_, x) => ExprTargets(x, cx)
    case Cast(_, x) => ExprTargets(x, cx)
    case Binary(_, a, b) => Both(ExprTargets(a, cx), ExprTargets(b, cx))
    case Load(addr, _) => ExprTargets(addr, cx)
    case Select(c, t, f) => Both(Both(ExprTargets(c, cx), ExprTargets(t, cx)), ExprTargets(f, cx))
    case _ => Some([])
  }

  function ArgsTargets(args: seq<Expr>, cx: Ctx): Option<seq<U64>>
    decreases args, 1
  {
    if args == [] then Some([]) else Both(ExprTargets(args[0], cx), ArgsTargets(args[1..], cx))
  }

  function Both(a: Option<seq<U64>>, b: Option<seq<U64>>): Option<seq<U64>> {
    if a.None? || b.None? then None else Some(a.value + b.value)
  }

  function StmtTargets(st: Stmt, cx: Ctx): Option<seq<U64>> {
    match st
    case Switch(_) => None
    case Asm(_) => None
    case Return(Some(e)) =>
      if e.Call? && e.target.Direct? then
        if e.target.t in cx.intrinsics || e.target.t !in cx.funcs then None else Some([e.target.t])
      else ExprTargets(e, cx)
    case CallStmt(e) => ExprTargets(e, cx)
    case Set(_, e) => ExprTargets(e, cx)
    case Store(a, v, _) => Both(ExprTargets(a, cx), ExprTargets(v, cx))
    case Branch(c, _, _) => ExprTargets(c, cx)
    case _ => Some([])
  }

  function StmtsTargets(ss: seq<Stmt>, cx: Ctx): (r: Option<seq<U64>>)
    ensures r.Some? ==> forall st :: st in ss ==> StmtTargets(st, cx).Some?
    ensures r.Some? ==> forall st, t :: st in ss && t in StmtTargets(st, cx).value ==> t in r.value
  {
    if ss == [] then Some([]) else Both(StmtTargets(ss[0], cx), StmtsTargets(ss[1..], cx))
  }

  function BlocksTargets(bs: seq<Block>, cx: Ctx): (r: Option<seq<U64>>)
    ensures r.Some? ==> forall b :: b in bs ==> StmtsTargets(b.stmts, cx).Some?
    ensures r.Some? ==> forall b, t :: b in bs && t in StmtsTargets(b.stmts, cx).value ==> t in r.value
  {
    if bs == [] then Some([]) else Both(StmtsTargets(bs[0].stmts, cx), BlocksTargets(bs[1..], cx))
  }

  /** `fn_local_targets`. */
  function LocalTargets(f: IrFunction, cx: Ctx): Option<seq<U64>> {
    if f.blocks == [] then None else BlocksTargets(f.blocks, cx)
  }

  /** Recovered, and every construct in it can be followed. */
  predicate Modelable(a: U64, cx: Ctx) { a in cx.funcs && LocalTargets(cx.funcs[a], cx).Some? }

  predicate Calls(a: U64, b: U64, cx: Ctx) {
    Modelable(a, cx) && b in LocalTargets(cx.funcs[a], cx).value
  }

  ghost predicate IsPath(p: seq<U64>, cx: Ctx) {
    |p| > 0 && forall i :: 0 <= i < |p| - 1 ==> Calls(p[i], p[i + 1], cx)
  }

  ghost predicate Reachable(entry: U64, a: U64, cx: Ctx) {
    exists p :: IsPath(p, cx) && p[0] == entry && p[|p| - 1] == a
  }

  /** The gate's helpers are the ones evaluation knows. */
  lemma {:induction false} HelpersKnown(n: Name, a: seq<U64>, cx: Ctx)
    ensures HelperCall(n, a, cx).Some? ==> IsHelper(n)
    ensures IsHelper(n) ==> n.Helper? || exists b :: HelperCall(n, b, cx).Some?
  {
    if IsHelper(n) && !n.Helper? {
      var b: seq<U64> := [0, 1];
      assert HelperCall(n, b, cx).Some?;
    }
  }

  // ---- what the gate follows, statement by statement ------------------------------------------

  /** The calls inside an expression, its own and those of its parts, left to right. */
  function CallsIn(e: Expr): seq<Expr>
    decreases e, 0
  {
    match e
    case Call(target, args) => [e] + (if target.Indirect? then CallsIn(target.addr) else []) + CallsInAll(args)
    case Unary(_, x) => CallsIn(x)
    case Cast(_, x) => CallsIn(x)
    case Binary(_, a, b) => CallsIn(a) + CallsIn(b)
    case Load(addr, _) => CallsIn(addr)
    case Select(c, t, f) => CallsIn(c) + CallsIn(t) + CallsIn(f)
    case _ => []
  }

  function CallsInAll(args: seq<Expr>): seq<Expr>
    decreases args, 1
  {
    if args == [] then [] else CallsIn(args[0]) + CallsInAll(args[1..])
  }

  /** A call the interpreter can follow or run: host-backed, recovered with a known
      `ret N`, a modelled or stubbed name, or computed at run time. */
  predicate Followable(e: Expr, cx: Ctx) {
    e.Call? ==>
      match e.target
      case Direct(t) => t in cx.intrinsics || (t in cx.funcs && t in cx.retPops)
      case Named(n) => IsHelper(n) || IsMemcall(n, |e.args|) || n in cx.stubs
      case Indirect(_) => true
  }

  predicate Targets(e: Expr, t: U64, cx: Ctx) { e.Call? && e.target == Direct(t) && t !in cx.intrinsics }

  ghost predicate AllFollowable(cs: seq<Expr>, cx: Ctx) { forall c :: c in cs ==> Followable(c, cx) }

  ghost predicate SomeTargets(cs: seq<Expr>, t: U64, cx: Ctx) { exists c :: c in cs && Targets(c, t, cx) }

  lemma {:induction false} JoinCalls(a: seq<Expr>, b: seq<Expr>, t: U64, cx: Ctx)
    ensures AllFollowable(a + b, cx) <==> AllFollowable(a, cx) && AllFollowable(b, cx)
    ensures SomeTargets(a + b, t, cx) <==> SomeTargets(a, t, cx) || SomeTargets(b, t, cx)
  {
    hide Followable, Targets;
    forall c ensures c in a + b <==> c in a || c in b {}
  }

  /** An expression passes exactly when every call in it can be followed, and its targets
      are exactly the direct ones that are not host-backed. */
  ghost predicate TargetsExact(r: Option<seq<U64>>, cs: seq<Expr>, t: U64, cx: Ctx) {
    && (r.Some? <==> AllFollowable(cs, cx))
    && (r.Some? ==> (t in r.value <==> SomeTargets(cs, t, cx)))
  }

  lemma {:induction false} BothExact(a: Option<seq<U64>>, b: Option<seq<U64>>, ca: seq<Expr>, cb: seq<Expr>, t: U64, cx: Ctx)
    requires TargetsExact(a, ca, t, cx) && TargetsExact(b, cb, t, cx)
    ensures TargetsExact(Both(a, b), ca + cb, t, cx)
  {
    hide AllFollowable, SomeTargets;
    JoinCalls(ca, cb, t, cx);
  }

  lemma {:induction false} ExprExact(e: Expr, t: U64, cx: Ctx)
    ensures TargetsExact(ExprTargets(e, cx), CallsIn(e), t, cx)
    decreases e, 0
  {
    hide TargetsExact;
    NoCalls(t, cx);
    match e
    case Call(target, args) =>
      ArgsExact(args, t, cx);
      CallExact(e, t, cx);
      var own := OwnTarget(e, cx);
      if target.Indirect? {
        ExprExact(target.addr, t, cx);
        BothExact(own, ExprTargets(target.addr, cx), [e], CallsIn(target.addr), t, cx);
        BothUnit(ExprTargets(target.addr, cx));
        BothExact(ExprTargets(target.addr, cx), ArgsTargets(args, cx), [e] + CallsIn(target.addr), CallsInAll(args), t, cx);
      } else {
        BothExact(own, ArgsTargets(args, cx), [e], CallsInAll(args), t, cx);
        assert [e] + [] == [e];
      }
    case Unary(_, x) => ExprExact(x, t, cx);
    case Cast(_, x) => ExprExact(x, t, cx);
    case Binary(_, a, b) =>
      ExprExact(a, t, cx);
      ExprExact(b, t, cx);
      BothExact(ExprTargets(a, cx), ExprTargets(b, cx), CallsIn(a), CallsIn(b), t, cx);
    case Load(addr, _) => ExprExact(addr, t, cx);
    case Select(c, a, b) =>
      ExprExact(c, t, cx);
      ExprExact(a, t, cx);
      ExprExact(b, t, cx);
      BothExact(ExprTargets(c, cx), ExprTargets(a, cx), CallsIn(c), CallsIn(a), t, cx);
      BothExact(Both(ExprTargets(c, cx), ExprTargets(a, cx)), ExprTargets(b, cx), CallsIn(c) + CallsIn(a), CallsIn(b), t, cx);
    case _ =>
  }

  /** What a call contributes itself. */
  function OwnTarget(e: Expr, cx: Ctx): Option<seq<U64>>
    requires e.Call?
  {
    if !Followable(e, cx) then None
    else if e.target.Direct? && e.target.t !in cx.intrinsics then Some([e.target.t])
    else Some([])
  }

  lemma {:induction false} CallExact(e: Expr, t: U64, cx: Ctx)
    requires e.Call?
    ensures TargetsExact(OwnTarget(e, cx), [e], t, cx)
  {
    hide Followable;
    assert e in [e];
    assert SomeTargets([e], t, cx) <==> Targets(e, t, cx);
  }

  lemma {:induction false} NoCalls(t: U64, cx: Ctx)
    ensures TargetsExact(Some([]), [], t, cx)
  {}

  lemma {:induction false} ArgsExact(args: seq<Expr>, t: U64, cx: Ctx)
    ensures TargetsExact(ArgsTargets(args, cx), CallsInAll(args), t, cx)
    decreases args, 1
  {
    hide TargetsExact;
    NoCalls(t, cx);
    if args != [] {
      ExprExact(args[0], t, cx);
      ArgsExact(args[1..], t, cx);
      BothExact(ExprTargets(args[0], cx), ArgsTargets(args[1..], cx), CallsIn(args[0]), CallsInAll(args[1..]), t, cx);
    }
  }

  /** The calls a statement makes the gate look at. */
  function StmtCalls(st: Stmt): seq<Expr> {
    match st
    case Return(Some(e)) => CallsIn(e)
    case CallStmt(e) => CallsIn(e)
    case Set(_, e) => CallsIn(e)
    case Store(a, v, _) => CallsIn(a) + CallsIn(v)
    case Branch(c, _, _) => CallsIn(c)
    case _ => []
  }

  predicate IsTailCall(st: Stmt) { st.Return? && st.result.Some? && st.result.value.Call? && st.result.value.target.Direct? }

  /** A statement the gate lets pass: no switch, no `asm`, a tail call only to a recovered
      function that is not host-backed, and otherwise only calls that can be followed. */
  ghost predicate Passes(st: Stmt, cx: Ctx) {
    && !st.Switch? && !st.Asm?
    && (IsTailCall(st) ==> st.result.value.target.t in cx.funcs && st.result.value.target.t !in cx.intrinsics)
    && (!IsTailCall(st) ==> AllFollowable(StmtCalls(st), cx))
  }

  ghost predicate StmtLeads(st: Stmt, t: U64, cx: Ctx) {
    if IsTailCall(st) then st.result.value.target == Direct(t) else SomeTargets(StmtCalls(st), t, cx)
  }

  lemma {:induction false} StmtExact(st: Stmt, t: U64, cx: Ctx)
    ensures StmtTargets(st, cx).Some? <==> Passes(st, cx)
    ensures StmtTargets(st, cx).Some? ==> (t in StmtTargets(st, cx).value <==> StmtLeads(st, t, cx))
  {
    hide ExprTargets, CallsIn, AllFollowable, SomeTargets;
    NoCalls(t, cx);
    match st
    case Return(Some(e)) => ExprExact(e, t, cx);
    case CallStmt(e) => ExprExact(e, t, cx);
    case Set(_, e) => ExprExact(e, t, cx);
    case Store(a, v, _) =>
      ExprExact(a, t, cx);
      ExprExact(v, t, cx);
      BothExact(ExprTargets(a, cx), ExprTargets(v, cx), CallsIn(a), CallsIn(v), t, cx);
    case Branch(c, _, _) => ExprExact(c, t, cx);
    case _ =>
  }

  ghost predicate FunctionPasses(f: IrFunction, cx: Ctx) {
    f.blocks != [] && forall b, st :: b in f.blocks && st in b.stmts ==> Passes(st, cx)
  }

  /** The function-level gate, exactly: a function passes when it has blocks and every
      statement in them passes, and its targets are those its statements lead to. */
  lemma {:induction false} LocalTargetsExact(f: IrFunction, cx: Ctx, t: U64)
    ensures LocalTargets(f, cx).Some? <==> FunctionPasses(f, cx)
    ensures LocalTargets(f, cx).Some? ==>
              (t in LocalTargets(f, cx).value <==> exists b, st :: b in f.blocks && st in b.stmts && StmtLeads(st, t, cx))
  {
    hide Passes, StmtLeads;
    BlocksExact(f.blocks, cx, t);
  }

  lemma {:induction false} BlocksExact(bs: seq<Block>, cx: Ctx, t: U64)
    ensures BlocksTargets(bs, cx).Some? <==> forall b, st :: b in bs && st in b.stmts ==> Passes(st, cx)
    ensures BlocksTargets(bs, cx).Some? ==>
              (t in BlocksTargets(bs, cx).value <==> exists b, st :: b in bs && st in b.stmts && StmtLeads(st, t, cx))
    decreases |bs|
  {
    hide Passes, StmtLeads, StmtsTargets;
    if bs != [] {
      StmtsExact(bs[0].stmts, cx, t);
      BlocksExact(bs[1..], cx, t);
      assert bs == [bs[0]] + bs[1..];
      assert forall b :: b in bs <==> b == bs[0] || b in bs[1..];
    }
  }

  lemma {:induction false} StmtsExact(ss: seq<Stmt>, cx: Ctx, t: U64)
    ensures StmtsTargets(ss, cx).Some? <==> forall st :: st in ss ==> Passes(st, cx)
    ensures StmtsTargets(ss, cx).Some? ==> (t in StmtsTargets(ss, cx).value <==> exists st :: st in ss && StmtLeads(st, t, cx))
    decreases |ss|
  {
    hide Passes, StmtLeads, StmtTargets;
    if ss != [] {
      StmtExact(ss[0], t, cx);
      StmtsExact(ss[1..], cx, t);
      assert ss == [ss[0]] + ss[1..];
      assert forall st :: st in ss <==> st == ss[0] || st in ss[1..];
    }
  }

  // ---- targets are never host-backed --------------------------------------------------

  lemma {:induction false} ExprTargetsFollowable(e: Expr, cx: Ctx, t: U64)
    requires ExprTargets(e, cx).Some? && t in ExprTargets(e, cx).value
    ensures t in cx.funcs && t in cx.retPops && t !in cx.intrinsics
    decreases e, 0
  {
    match e
    case Call(target, args) =>
      var rest := ArgsTargets(args, cx);
      if t in rest.value { ArgsTargetsFollowable(args, cx, t); }
      else if target.Indirect? { ExprTargetsFollowable(target.addr, cx, t); }
    case Unary(_, x) => ExprTargetsFollowable(x, cx, t);
    case Cast(_, x) => ExprTargetsFollowable(x, cx, t);
    case Binary(_, a, b) =>
      if t in ExprTargets(a, cx).value { ExprTargetsFollowable(a, cx, t); } else { ExprTargetsFollowable(b, cx, t); }
    case Load(x, _) => ExprTargetsFollowable(x, cx, t);
    case Select(c, a, b) =>
      if t in ExprTargets(c, cx).value { ExprTargetsFollowable(c, cx, t); }
      else if t in ExprTargets(a, cx).value { ExprTargetsFollowable(a, cx, t); }
      else { ExprTargetsFollowable(b, cx, t); }
    case _ =>
  }

  lemma {:induction false} ArgsTargetsFollowable(args: seq<Expr>, cx: Ctx, t: U64)
    requires ArgsTargets(args, cx).Some? && t in ArgsTargets(args, cx).value
    ensures t in cx.funcs && t in cx.retPops && t !in cx.intrinsics
    decreases args, 1
  {
    if t in ExprTargets(args[0], cx).value { ExprTargetsFollowable(args[0], cx, t); }
    else { ArgsTargetsFollowable(args[1..], cx, t); }
  }

  lemma {:induction false} StmtTargetsFollowable(st: Stmt, cx: Ctx, t: U64)
    requires StmtTargets(st, cx).Some? && t in StmtTargets(st, cx).value
    ensures t in cx.funcs && t !in cx.intrinsics
  {
    hide ExprTargets;
    match st
    case Return(Some(e)) => if !(e.Call? && e.target.Direct?) { ExprTargetsFollowable(e, cx, t); }
    case CallStmt(e) => ExprTargetsFollowable(e, cx, t);
    case Set(_, e) => ExprTargetsFollowable(e, cx, t);
    case Store(a, v, _) =>
      if t in ExprTargets(a, cx).value { ExprTargetsFollowable(a, cx, t); } else { ExprTargetsFollowable(v, cx, t); }
    case Branch(c, _, _) => ExprTargetsFollowable(c, cx, t);
    case _ =>
  }

  lemma {:induction false} StmtsTargetsFollowable(ss: seq<Stmt>, cx: Ctx, t: U64)
    requires StmtsTargets(ss, cx).Some? && t in StmtsTargets(ss, cx).value
    ensures t in cx.funcs && t !in cx.intrinsics
  {
    hide StmtTargets;
    if t in StmtTargets(ss[0], cx).value { StmtTargetsFollowable(ss[0], cx, t); }
    else { StmtsTargetsFollowable(ss[1..], cx, t); }
  }

  lemma {:induction false} BlocksTargetsFollowable(bs: seq<Block>, cx: Ctx, t: U64)
    requires BlocksTargets(bs, cx).Some? && t in BlocksTargets(bs, cx).value
    ensures t in cx.funcs && t !in cx.intrinsics
  {
    hide StmtsTargets;
    if t in StmtsTargets(bs[0].stmts, cx).value { StmtsTargetsFollowable(bs[0].stmts, cx, t); }
    else { BlocksTargetsFollowable(bs[1..], cx, t); }
  }

  // ---- the worklist ----------------------------------------------------------------------

  lemma {:induction false} Extend(entry: U64, a: U64, b: U64, cx: Ctx)
    requires Reachable(entry, a, cx) && Calls(a, b, cx)
    ensures Reachable(entry, b, cx)
  {
    hide Calls;
    var p :| IsPath(p, cx) && p[0] == entry && p[|p| - 1] == a;
    var p' := p + [b];
    forall i | 0 <= i < |p'| - 1 ensures Calls(p'[i], p'[i + 1], cx) {
      if i < |p| - 1 { assert Calls(p[i], p[i + 1], cx); }
    }
    assert IsPath(p', cx);
  }

  lemma {:induction false} ReachSelf(entry: U64, cx: Ctx)
    ensures Reachable(entry, entry, cx)
  {
    assert IsPath([entry], cx);
  }

  /** A set closed under calls that holds the entry holds every reachable function. */
  lemma {:induction false} ClosedHoldsPath(seen: set<U64>, p: seq<U64>, cx: Ctx)
    requires IsPath(p, cx) && p[0] in seen
    requires forall a, b :: a in seen && Calls(a, b, cx) ==> b in seen
    ensures p[|p| - 1] in seen
    decreases |p|
  {
    hide Calls;
    if |p| > 1 {
      assert Calls(p[0], p[1], cx);
      forall i | 0 <= i < |p[1..]| - 1 ensures Calls(p[1..][i], p[1..][i + 1], cx) {
        assert Calls(p[i + 1], p[i + 2], cx);
      }
      ClosedHoldsPath(seen, p[1..], cx);
    }
  }

  /** The worklist decides: for an entry that is not host-backed, it accepts exactly
      when every function reachable through local targets is modelable; a
      host-backed entry is accepted unexamined. */
  method IsClosureModelable(entry: U64, cx: Ctx) returns (ok: bool)
    ensures entry !in cx.intrinsics ==>
              (ok <==> forall a :: Reachable(entry, a, cx) ==> Modelable(a, cx))
    ensures entry in cx.intrinsics ==> ok
  {
    hide LocalTargets, Modelable, Reachable, Calls;
    var seen: set<U64> := {};
    var stack := [entry];
    ReachSelf(entry, cx);
    while stack != []
      invariant entry in seen || entry in stack
      invariant forall a :: a in seen || a in stack ==> Reachable(entry, a, cx)
      invariant forall a :: a in stack ==> a == entry || a !in cx.intrinsics
      invariant forall a :: a in seen ==> a in cx.intrinsics || (a in cx.funcs && Modelable(a, cx))
      invariant forall a, b :: a in seen && a !in cx.intrinsics && Calls(a, b, cx) ==> b in seen || b in stack
      invariant entry in cx.intrinsics ==> seen <= {entry} && stack <= [entry]
      decreases (cx.funcs.Keys + cx.intrinsics.Keys) - seen, |stack|
    {
      var a := stack[|stack| - 1];
      var rest := stack[..|stack| - 1];
      assert stack == rest + [a];
      stack := rest;
      if a in seen {
        continue;
      }
      if a in cx.intrinsics {
        seen := seen + {a};
        continue;
      }
      if a !in cx.funcs {
        NotRecovered(a, cx);
        return false;
      }
      var ts := FnLocalTargets(cx.funcs[a], cx);
      TargetsOf(a, ts, cx);
      if ts.None? {
        return false;
      }
      seen := seen + {a};
      PushAll(entry, a, ts.value, cx);
      for i := 0 to |ts.value|
        invariant forall t :: t in stack <==> t in rest || (t in ts.value[..i] && t !in seen)
      {
        assert ts.value[..i + 1] == ts.value[..i] + [ts.value[i]];
        if ts.value[i] !in seen {
          stack := stack + [ts.value[i]];
        }
      }
      assert ts.value[..|ts.value|] == ts.value;
    }
    if entry !in cx.intrinsics {
      forall a | Reachable(entry, a, cx) ensures Modelable(a, cx) {
        ReachableSeen(entry, a, seen, cx);
      }
    }
    return true;
  }

  lemma {:induction false} NotRecovered(a: U64, cx: Ctx)
    requires a !in cx.funcs
    ensures !Modelable(a, cx)
  {}

  lemma {:induction false} TargetsOf(a: U64, ts: Option<seq<U64>>, cx: Ctx)
    requires a in cx.funcs && ts == LocalTargets(cx.funcs[a], cx)
    ensures ts.Some? <==> Modelable(a, cx)
    ensures ts.Some? ==> forall b :: b in ts.value <==> Calls(a, b, cx)
  {}

  /** `fn_local_targets`: walk the blocks and their statements, collecting targets,
      and give up at the first construct that cannot be followed. */
  method FnLocalTargets(f: IrFunction, cx: Ctx) returns (r: Option<seq<U64>>)
    ensures r == LocalTargets(f, cx)
  {
    if f.blocks == [] {
      return None;
    }
    var targets: seq<U64> := [];
    assert f.blocks[0..] == f.blocks;
    BothUnit(BlocksTargets(f.blocks, cx));
    for i := 0 to |f.blocks|
      invariant BlocksTargets(f.blocks, cx) == Both(Some(targets), BlocksTargets(f.blocks[i..], cx))
    {
      var b := f.blocks[i];
      assert f.blocks[i..][0] == b && f.blocks[i..][1..] == f.blocks[i + 1..];
      ghost var before, after := targets, BlocksTargets(f.blocks[i + 1..], cx);
      assert b.stmts[0..] == b.stmts;
      for j := 0 to |b.stmts|
        invariant Both(Some(before), StmtsTargets(b.stmts, cx))
                  == Both(Some(targets), StmtsTargets(b.stmts[j..], cx))
      {
        assert b.stmts[j..][0] == b.stmts[j] && b.stmts[j..][1..] == b.stmts[j + 1..];
        var ts := StmtTargets(b.stmts[j], cx);
        if ts.None? {
          return None;
        }
        BothAssoc(Some(targets), ts, StmtsTargets(b.stmts[j + 1..], cx));
        targets := targets + ts.value;
      }
      assert b.stmts[|b.stmts|..] == [];
      BothUnit(Some(targets));
      BothAssoc(Some(before), StmtsTargets(b.stmts, cx), after);
    }
    assert f.blocks[|f.blocks|..] == [];
    BothUnit(Some(targets));
    return Some(targets);
  }

  lemma {:induction false} BothUnit(a: Option<seq<U64>>)
    ensures Both(Some([]), a) == a && Both(a, Some([])) == a
  {
    if a.Some? { assert [] + a.value == a.value && a.value + [] == a.value; }
  }

  lemma {:induction false} BothAssoc(a: Option<seq<U64>>, b: Option<seq<U64>>, c: Option<seq<U64>>)
    ensures Both(a, Both(b, c)) == Both(Both(a, b), c)
  {
    if a.Some? && b.Some? && c.Some? {
      assert a.value + (b.value + c.value) == (a.value + b.value) + c.value;
    }
  }

  lemma {:induction false} PushAll(entry: U64, a: U64, ts: seq<U64>, cx: Ctx)
    requires Reachable(entry, a, cx) && forall t :: t in ts ==> Calls(a, t, cx)
    ensures forall t :: t in ts ==> Reachable(entry, t, cx) && t !in cx.intrinsics
  {
    hide Reachable, Calls;
    forall t | t in ts ensures Reachable(entry, t, cx) && t !in cx.intrinsics {
      Extend(entry, a, t, cx);
      NotHostBacked(a, t, cx);
    }
  }

  lemma {:induction false} NotHostBacked(a: U64, t: U64, cx: Ctx)
    requires Calls(a, t, cx)
    ensures t !in cx.intrinsics
  {
    hide BlocksTargets;
    BlocksTargetsFollowable(cx.funcs[a].blocks, cx, t);
  }

  lemma {:induction false} ReachableSeen(entry: U64, a: U64, seen: set<U64>, cx: Ctx)
    requires Reachable(entry, a, cx) && entry in seen && entry !in cx.intrinsics
    requires forall x, y :: x in seen && x !in cx.intrinsics && Calls(x, y, cx) ==> y in seen
    ensures a in seen && a !in cx.intrinsics
  {
    hide Calls;
    var p :| IsPath(p, cx) && p[0] == entry && p[|p| - 1] == a;
    var open := set x | x in seen && x !in cx.intrinsics;
    forall x, y | x in open && Calls(x, y, cx) ensures y in open { NotHostBacked(x, y, cx); }
    ClosedHoldsPath(open, p, cx);
  }

  // ---- runs of an accepted entry ------------------------------------------------------------

  ghost predicate Accepted(entry: U64, cx: Ctx) {
    entry !in cx.intrinsics && forall a :: Reachable(entry, a, cx) ==> Modelable(a, cx)
  }

  predicate NoIndirect(trace: seq<Event>) { forall e :: e in trace ==> !e.Indirectly? }

  ghost predicate Inside(trace: seq<Event>, entry: U64, cx: Ctx) {
    forall e :: e in trace && e.Enter? ==> Reachable(entry, e.t, cx)
  }

  /** Reasons that the gate rules out. */
  predicate RuledOut(why: Why) {
    why == SwitchOrAsm || why == UnknownCallee || why == UnknownPop || why == UnknownTailCallee || why == NoEntryBlock
  }

  ghost predicate Sound(o: Out, entry: U64, cx: Ctx) {
    NoIndirect(o.m.trace) ==> Inside(o.m.trace, entry, cx) && (o.Skip? ==> !RuledOut(o.why))
  }

  ghost predicate SoundFlow(r: Flow, entry: U64, cx: Ctx) {
    match r
    case Leave(o) => Sound(o, entry, cx)
    case Next(_, _, m) => NoIndirect(m.trace) ==> Inside(m.trace, entry, cx)
  }

  /** `a` is being run inside the closure of an accepted entry. */
  ghost predicate Running(a: U64, entry: U64, cx: Ctx) {
    Accepted(entry, cx) && Reachable(entry, a, cx)
  }

  ghost predicate Checked(ts: Option<seq<U64>>, a: U64, cx: Ctx) {
    ts.Some? && forall t :: t in ts.value ==> Calls(a, t, cx)
  }

  /** Gate soundness over runs: a run of an accepted entry that executes no indirect
      call enters functions of its closure only, and whatever makes it skip, it is
      never a switch, an `asm`, a missing function or a missing `ret N`. */
  lemma {:induction false} GateIsSound(entry: U64, s: State, cx: Ctx, budget: nat)
    requires Accepted(entry, cx)
    ensures entry in cx.funcs
    ensures Sound(RunClosure(cx.funcs[entry], s, cx, 0, Meter(budget, [])), entry, cx)
  {
    ReachSelf(entry, cx);
    GateClosure(entry, s, cx, 0, Meter(budget, []), entry);
  }

  lemma {:induction false} GateClosure(a: U64, s: State, cx: Ctx, depth: nat, m: Meter, entry: U64)
    requires Running(a, entry, cx) && (NoIndirect(m.trace) ==> Inside(m.trace, entry, cx))
    ensures a in cx.funcs && Sound(RunClosure(cx.funcs[a], s, cx, depth, m), entry, cx)
    decreases m.budget, 1, 0
  {
    hide Reachable, BlocksTargets;
    assert Modelable(a, cx);
    var f := cx.funcs[a];
    GateFrom(a, EntryId(f).value, s, cx, depth, m, entry);
  }

  lemma {:induction false} BlockChecked(a: U64, b: Block, cx: Ctx)
    requires Modelable(a, cx) && b in cx.funcs[a].blocks
    ensures forall st :: st in b.stmts ==> Checked(StmtTargets(st, cx), a, cx)
  {
    hide StmtTargets;
    forall st | st in b.stmts ensures Checked(StmtTargets(st, cx), a, cx) {}
  }

  lemma {:induction false} GateFrom(a: U64, cur: nat, s: State, cx: Ctx, depth: nat, m: Meter, entry: U64)
    requires Running(a, entry, cx) && (NoIndirect(m.trace) ==> Inside(m.trace, entry, cx))
    ensures a in cx.funcs && Sound(RunFrom(cx.funcs[a], cur, s, cx, depth, m), entry, cx)
    decreases m.budget, 0, 0
  {
    hide Reachable, StmtTargets, LocalTargets, Checked;
    assert Modelable(a, cx);
    var f := cx.funcs[a];
    if m.budget > 0 {
      var b := FindId(f.blocks, cur);
      if b.Some? {
        var m1 := m.Spend().Log(Ran(b.value.id));
        BlockChecked(a, b.value, cx);
        GateStmts(b.value.stmts, None, s, cx, depth, m1, a, entry);
        var r := RunStmts(b.value.stmts, None, s, cx, depth, m1);
        if r.Next? && r.to.Some? { GateFrom(a, r.to.value, r.s, cx, depth, r.m, entry); }
      }
    }
  }

  lemma {:induction false} GateStmts(ss: seq<Stmt>, next: Option<nat>, s: State, cx: Ctx, depth: nat, m: Meter,
                                     a: U64, entry: U64)
    requires Running(a, entry, cx) && (NoIndirect(m.trace) ==> Inside(m.trace, entry, cx))
    requires forall st :: st in ss ==> Checked(StmtTargets(st, cx), a, cx)
    ensures SoundFlow(RunStmts(ss, next, s, cx, depth, m), entry, cx)
    decreases m.budget, 6, |ss|
  {
    hide Reachable, StmtTargets, Checked, Running, Inside, NoIndirect;
    if ss != [] {
      GateStmt(ss[0], next, s, cx, depth, m, a, entry);
      var r := RunStmt(ss[0], next, s, cx, depth, m);
      if r.Next? { GateStmts(ss[1..], r.to, r.s, cx, depth, r.m, a, entry); }
    }
  }

  lemma {:induction false} GateStmt(st: Stmt, next: Option<nat>, s: State, cx: Ctx, depth: nat, m: Meter,
                                    a: U64, entry: U64)
    requires Running(a, entry, cx) && (NoIndirect(m.trace) ==> Inside(m.trace, entry, cx))
    requires Checked(StmtTargets(st, cx), a, cx)
    ensures SoundFlow(RunStmt(st, next, s, cx, depth, m), entry, cx)
    decreases m.budget, 5, 0
  {
    hide Reachable, Running, Inside, NoIndirect, Eval, Exec, WriteLoc, ExprTargets;
    match st
    case Return(Some(e)) => GateReturn(e, s, cx, depth, m, a, entry);
    case CallStmt(e) => GateEval(e, s, cx, depth, m, a, entry);
    case Set(_, e) => GateEval(e, s, cx, depth, m, a, entry);
    case _ =>
  }

  lemma {:induction false} GateReturn(e: Expr, s: State, cx: Ctx, depth: nat, m: Meter, a: U64, entry: U64)
    requires Running(a, entry, cx) && (NoIndirect(m.trace) ==> Inside(m.trace, entry, cx))
    requires Checked(StmtTargets(Return(Some(e)), cx), a, cx)
    ensures Sound(RunReturn(e, s, cx, depth, m), entry, cx)
    decreases m.budget, 4, 0
  {
    hide Reachable, ExprTargets;
    if e.Call? && e.target.Direct? {
      var t := e.target.t;
      assert t in StmtTargets(Return(Some(e)), cx).value;
      Extend(entry, a, t, cx);
      if depth == 0 { GateClosure(t, s, cx, 1, m.Log(Enter(t, 1)), entry); }
    } else {
      GateEval(e, s, cx, depth, m, a, entry);
    }
  }

  lemma {:induction false} GateEval(e: Expr, s: State, cx: Ctx, depth: nat, m: Meter, a: U64, entry: U64)
    requires Running(a, entry, cx) && (NoIndirect(m.trace) ==> Inside(m.trace, entry, cx))
    requires Checked(ExprTargets(e, cx), a, cx)
    ensures Sound(EvalOrCall(e, s, cx, depth, m), entry, cx)
    decreases m.budget, 3, 0
  {
    hide Reachable, Running, Eval, DoMemcall, StubImport;
    if e.Call? && e.target.Direct? {
      var t := e.target.t;
      if t !in cx.intrinsics { assert t in ExprTargets(e, cx).value; }
      GateCall(t, s, cx, depth, m, a, entry);
    } else if e.Call? && e.target.Indirect? {
      var t := Eval(e.target.addr, s, cx);
      if t.Ok? {
        var m1 := m.Log(Indirectly(t.v));
        assert m1.trace[|m.trace|] == Indirectly(t.v);
        var o := CallDirect(t.v, s, cx, depth, m1);
        assert o.m.trace[|m.trace|] == Indirectly(t.v);
        assert Indirectly(t.v) in o.m.trace;
      }
    }
  }

  lemma {:induction false} GateCall(t: U64, s: State, cx: Ctx, depth: nat, m: Meter, a: U64, entry: U64)
    requires Running(a, entry, cx) && (NoIndirect(m.trace) ==> Inside(m.trace, entry, cx))
    requires t in cx.intrinsics || (Calls(a, t, cx) && t in cx.retPops)
    ensures Sound(CallDirect(t, s, cx, depth, m), entry, cx)
    decreases m.budget, 2, 0
  {
    hide Reachable, CallMemIntrinsic, EnterCall, LeaveCall;
    if t !in cx.intrinsics {
      Extend(entry, a, t, cx);
      assert Modelable(t, cx);
      var s1 := EnterCall(s, cx);
      if depth < CLOSURE_DEPTH && s1.Ok? {
        GateClosure(t, s1.v, cx, depth + 1, m.Log(Enter(t, depth + 1)), entry);
      }
    }
  }

  // ---- closures without indirect calls ---------------------------------------------------------

  /** The statement does not make an indirect call of its own. */
  predicate StmtDirect(st: Stmt) {
    match st
    case CallStmt(e) => !(e.Call? && e.target.Indirect?)
    case Set(_, e) => !(e.Call? && e.target.Indirect?)
    case _ => true
  }

  predicate DirectOnly(f: IrFunction) { forall b, st :: b in f.blocks && st in b.stmts ==> StmtDirect(st) }

  ghost predicate ClosureDirect(entry: U64, cx: Ctx) {
    forall a :: Reachable(entry, a, cx) && a in cx.funcs ==> DirectOnly(cx.funcs[a])
  }

  lemma {:induction false} LogDirect(trace: seq<Event>, e: Event)
    requires NoIndirect(trace) && !e.Indirectly?
    ensures NoIndirect(trace + [e])
  {}

  /** The static form: when no function of an accepted closure makes an indirect call,
      no run of the entry does, so every run stays in the closure and never stops for a
      reason the gate rules out. */
  lemma {:induction false} GateIsSoundStatically(entry: U64, s: State, cx: Ctx, budget: nat)
    requires Accepted(entry, cx) && ClosureDirect(entry, cx)
    ensures entry in cx.funcs
    ensures var o := RunClosure(cx.funcs[entry], s, cx, 0, Meter(budget, []));
            && NoIndirect(o.m.trace) && Inside(o.m.trace, entry, cx) && (o.Skip? ==> !RuledOut(o.why))
  {
    GateIsSound(entry, s, cx, budget);
    ReachSelf(entry, cx);
    DirectClosure(entry, s, cx, 0, Meter(budget, []), entry);
  }

  lemma {:induction false} DirectClosure(a: U64, s: State, cx: Ctx, depth: nat, m: Meter, entry: U64)
    requires Running(a, entry, cx) && ClosureDirect(entry, cx) && NoIndirect(m.trace)
    ensures a in cx.funcs && NoIndirect(RunClosure(cx.funcs[a], s, cx, depth, m).m.trace)
    decreases m.budget, 1, 0
  {
    hide Reachable, BlocksTargets, NoIndirect, DirectOnly;
    assert Modelable(a, cx);
    DirectFrom(a, EntryId(cx.funcs[a]).value, s, cx, depth, m, entry);
  }

  lemma {:induction false} DirectFrom(a: U64, cur: nat, s: State, cx: Ctx, depth: nat, m: Meter, entry: U64)
    requires Running(a, entry, cx) && ClosureDirect(entry, cx) && NoIndirect(m.trace)
    ensures a in cx.funcs && NoIndirect(RunFrom(cx.funcs[a], cur, s, cx, depth, m).m.trace)
    decreases m.budget, 0, 0
  {
    hide Reachable, StmtTargets, LocalTargets, Checked, NoIndirect, StmtDirect;
    assert Modelable(a, cx);
    var f := cx.funcs[a];
    if m.budget > 0 {
      var b := FindId(f.blocks, cur);
      if b.Some? {
        var m1 := m.Spend().Log(Ran(b.value.id));
        LogDirect(m.trace, Ran(b.value.id));
        BlockChecked(a, b.value, cx);
        assert DirectOnly(f);
        DirectStmts(b.value.stmts, None, s, cx, depth, m1, a, entry);
        var r := RunStmts(b.value.stmts, None, s, cx, depth, m1);
        if r.Next? && r.to.Some? { DirectFrom(a, r.to.value, r.s, cx, depth, r.m, entry); }
      }
    }
  }

  lemma {:induction false} DirectStmts(ss: seq<Stmt>, next: Option<nat>, s: State, cx: Ctx, depth: nat, m: Meter,
                                       a: U64, entry: U64)
    requires Running(a, entry, cx) && ClosureDirect(entry, cx) && NoIndirect(m.trace)
    requires forall st :: st in ss ==> Checked(StmtTargets(st, cx), a, cx) && StmtDirect(st)
    ensures NoIndirect(FlowMeter(RunStmts(ss, next, s, cx, depth, m)).trace)
    decreases m.budget, 6, |ss|
  {
    hide Reachable, StmtTargets, Checked, Running, NoIndirect, StmtDirect, ClosureDirect;
    if ss != [] {
      DirectStmt(ss[0], next, s, cx, depth, m, a, entry);
      var r := RunStmt(ss[0], next, s, cx, depth, m);
      if r.Next? { DirectStmts(ss[1..], r.to, r.s, cx, depth, r.m, a, entry); }
    }
  }

  lemma {:induction false} DirectStmt(st: Stmt, next: Option<nat>, s: State, cx: Ctx, depth: nat, m: Meter,
                                      a: U64, entry: U64)
    requires Running(a, entry, cx) && ClosureDirect(entry, cx) && NoIndirect(m.trace)
    requires Checked(StmtTargets(st, cx), a, cx) && StmtDirect(st)
    ensures NoIndirect(FlowMeter(RunStmt(st, next, s, cx, depth, m)).trace)
    decreases m.budget, 5, 0
  {
    hide Reachable, Running, NoIndirect, Eval, Exec, WriteLoc, ExprTargets, ClosureDirect;
    match st
    case Return(Some(e)) => DirectReturn(e, s, cx, depth, m, a, entry);
    case CallStmt(e) => DirectEval(e, s, cx, depth, m, a, entry);
    case Set(_, e) => DirectEval(e, s, cx, depth, m, a, entry);
    case _ =>
  }

  lemma {:induction false} DirectReturn(e: Expr, s: State, cx: Ctx, depth: nat, m: Meter, a: U64, entry: U64)
    requires Running(a, entry, cx) && ClosureDirect(entry, cx) && NoIndirect(m.trace)
    requires Checked(StmtTargets(Return(Some(e)), cx), a, cx)
    ensures NoIndirect(RunReturn(e, s, cx, depth, m).m.trace)
    decreases m.budget, 4, 0
  {
    hide Reachable, ExprTargets, NoIndirect, ClosureDirect;
    if e.Call? && e.target.Direct? {
      var t := e.target.t;
      assert t in StmtTargets(Return(Some(e)), cx).value;
      Extend(entry, a, t, cx);
      if depth == 0 {
        LogDirect(m.trace, Enter(t, 1));
        DirectClosure(t, s, cx, 1, m.Log(Enter(t, 1)), entry);
      }
    } else if !(e.Call? && e.target.Indirect?) {
      DirectEval(e, s, cx, depth, m, a, entry);
    }
  }

  lemma {:induction false} DirectEval(e: Expr, s: State, cx: Ctx, depth: nat, m: Meter, a: U64, entry: U64)
    requires Running(a, entry, cx) && ClosureDirect(entry, cx) && NoIndirect(m.trace)
    requires Checked(ExprTargets(e, cx), a, cx) && !(e.Call? && e.target.Indirect?)
    ensures NoIndirect(EvalOrCall(e, s, cx, depth, m).m.trace)
    decreases m.budget, 3, 0
  {
    hide Reachable, Running, Eval, DoMemcall, StubImport, NoIndirect, ClosureDirect;
    if e.Call? && e.target.Direct? {
      var t := e.target.t;
      if t !in cx.intrinsics { assert t in ExprTargets(e, cx).value; }
      DirectCall(t, s, cx, depth, m, a, entry);
    }
  }

  lemma {:induction false} DirectCall(t: U64, s: State, cx: Ctx, depth: nat, m: Meter, a: U64, entry: U64)
    requires Running(a, entry, cx) && ClosureDirect(entry, cx) && NoIndirect(m.trace)
    requires t in cx.intrinsics || (Calls(a, t, cx) && t in cx.retPops)
    ensures NoIndirect(CallDirect(t, s, cx, depth, m).m.trace)
    decreases m.budget, 2, 0
  {
    hide Reachable, CallMemIntrinsic, EnterCall, LeaveCall, NoIndirect, ClosureDirect;
    if t !in cx.intrinsics {
      Extend(entry, a, t, cx);
      assert Modelable(t, cx);
      var s1 := EnterCall(s, cx);
      if depth < CLOSURE_DEPTH && s1.Ok? {
        LogDirect(m.trace, Enter(t, depth + 1));
        DirectClosure(t, s1.v, cx, depth + 1, m.Log(Enter(t, depth + 1)), entry);
      }
    }
  }

  // ---- the premise is needed --------------------------------------------------------------------

  /** One indirect call to a constant address. */
  function Jumper(t: U64): IrFunction {
    IrFunction(0, [], [Block(0, 0, [CallStmt(Call(Indirect(Const(t, Unknown)), []))], [])])
  }

  const SWITCHER: IrFunction := IrFunction(0, [], [Block(0, 0, [Switch(Undef)], [])])

  lemma {:induction false} SwitcherStops(s: State, cx: Ctx, depth: nat, m: Meter)
    requires m.budget > 0
    ensures RunClosure(SWITCHER, s, cx, depth, m) == Skip(SwitchOrAsm, m.Spend().Log(Ran(0)))
  {
    var b := SWITCHER.blocks[0];
    assert EntryId(SWITCHER) == Some(0) && FindId(SWITCHER.blocks, 0) == Some(b);
    var m1 := m.Spend().Log(Ran(0));
    assert RunStmt(b.stmts[0], None, s, cx, depth, m1) == Leave(Skip(SwitchOrAsm, m1));
    assert RunStmts(b.stmts, None, s, cx, depth, m1) == Leave(Skip(SwitchOrAsm, m1));
  }

  /** Wherever the push succeeds, an accepted entry with one indirect call runs into a
      switch outside its closure. */
  lemma {:induction false} IndirectCallEscapes(entry: U64, t: U64, s: State, cx: Ctx, budget: nat)
    requires entry in cx.funcs && cx.funcs[entry] == Jumper(t) && entry !in cx.intrinsics
    requires t in cx.funcs && cx.funcs[t] == SWITCHER && t in cx.retPops && t !in cx.intrinsics
    requires budget >= 2 && PushReturn(s, cx).Ok?
    ensures Accepted(entry, cx)
    ensures var o := RunClosure(cx.funcs[entry], s, cx, 0, Meter(budget, [])); o.Skip? && o.why == SwitchOrAsm
  {
    JumperAccepted(entry, t, cx);
    var f, m := Jumper(t), Meter(budget, []);
    var b := f.blocks[0];
    assert EntryId(f) == Some(0) && FindId(f.blocks, 0) == Some(b);
    var m1 := m.Spend().Log(Ran(0));
    JumperCalls(t, s, cx, m1);
    hide PushReturn, RunStmt, Accepted;
    assert RunStmts(b.stmts, None, s, cx, 0, m1) == RunStmt(b.stmts[0], None, s, cx, 0, m1);
  }

  lemma {:induction false} JumperCalls(t: U64, s: State, cx: Ctx, m: Meter)
    requires t in cx.funcs && cx.funcs[t] == SWITCHER && t in cx.retPops && t !in cx.intrinsics
    requires m.budget > 0 && PushReturn(s, cx).Ok?
    ensures var r := RunStmt(CallStmt(Call(Indirect(Const(t, Unknown)), [])), None, s, cx, 0, m);
            r.Leave? && r.o.Skip? && r.o.why == SwitchOrAsm
  {
    hide PushReturn, RunClosure;
    var e := Call(Indirect(Const(t, Unknown)), []);
    assert Eval(e.target.addr, s, cx) == Ok(t);
    var m1 := m.Log(Indirectly(t));
    SwitcherStops(EnterCall(s, cx).v, cx, 1, m1.Log(Enter(t, 1)));
    assert CallDirect(t, s, cx, 0, m1).Skip?;
    assert EvalOrCall(e, s, cx, 0, m) == CallDirect(t, s, cx, 0, m1);
  }

  lemma {:induction false} JumperAccepted(entry: U64, t: U64, cx: Ctx)
    requires entry in cx.funcs && cx.funcs[entry] == Jumper(t) && entry !in cx.intrinsics
    ensures Accepted(entry, cx)
  {
    var f := Jumper(t);
    var st := f.blocks[0].stmts[0];
    assert ExprTargets(st.call.target.addr, cx) == Some([]);
    assert ArgsTargets([], cx) == Some([]);
    BothUnit(Some([]));
    assert ExprTargets(st.call, cx) == Both(Some([]), Some([]));
    assert StmtTargets(st, cx) == Some([]);
    assert f.blocks[0].stmts[1..] == [] && f.blocks[1..] == [];
    assert StmtsTargets(f.blocks[0].stmts, cx) == Some([]);
    assert BlocksTargets(f.blocks, cx) == Some([]);
    hide BlocksTargets;
    assert forall b :: !Calls(entry, b, cx);
    hide Calls;
    forall a | Reachable(entry, a, cx) ensures a == entry { NowhereElse(entry, a, cx); }
  }

  lemma {:induction false} NowhereElse(entry: U64, a: U64, cx: Ctx)
    requires Reachable(entry, a, cx)
    ensures a == entry || exists b :: Calls(entry, b, cx)
  {
    hide Calls;
    var p :| IsPath(p, cx) && p[0] == entry && p[|p| - 1] == a;
    if |p| > 1 { assert Calls(p[0], p[1], cx); }
  }
}
