/** The post-optimisation interpreter over φ form: `run_ssa`
    (src/cpudiff.rs:690-754), and when running a block's φs one after another is
    the simultaneous assignment that SSA form means. */
module Ssa {
  import opened Basics
  import opened Ir
  import opened Memory
  import opened Machine
  import opened StringOps
  import opened Closure

  type Vids = map<nat, U64>

  /** Position of `p` in the predecessor list. */
  function PredIndex(pred: seq<nat>, p: nat): (r: Option<nat>)
    ensures r.Some? ==> r.value < |pred| && pred[r.value] == p && forall j :: 0 <= j < r.value ==> pred[j] != p
    ensures r.None? ==> p !in pred
  {
    if pred == [] then None
    else if pred[0] == p then Some(0)
    else
      match PredIndex(pred[1..], p)
      case None => None
      case Some(i) => assert forall j :: 0 < j <= i ==> pred[j] == pred[1..][j - 1]; Some(i + 1)
  }

  /** The φ argument for the edge we arrived by. */
  function PhiArg(args: seq<nat>, pred: seq<nat>, prev: Option<nat>): Option<nat> {
    match prev
    case None => None
    case Some(p) =>
      match PredIndex(pred, p)
      case None => None
      case Some(i) => if i < |args| then Some(args[i]) else None
  }

  predicate IsMemcallExpr(e: Expr) { e.Call? && e.target.Named? && IsMemcall(e.target.n, |e.args|) }

  function Bind(s: State, dst: nat, v: U64): State { s.(vids := s.vids[dst := v]) }

  function SsaAssign(dst: nat, e: Expr, pred: seq<nat>, s: State, cx: Ctx): Res<State> {
    if e.Phi? then
      match PhiArg(e.vids, pred, s.prev)
      case Some(a) => if a in s.vids then Ok(Bind(s, dst, s.vids[a])) else Fail(Unmodelled)
      case None => Fail(Unmodelled)
    else if IsMemcallExpr(e) then
      var s' :- DoMemcall(e.target.n, e.args, s, cx);
      Ok(Bind(s', dst, 0))
    else
      var v :- Eval(e, s, cx);
      Ok(Bind(s, dst, v))
  }

  function SsaStmt(st: Stmt, pred: seq<nat>, next: Option<nat>, s: State, cx: Ctx, m: Meter): (r: Flow)
    ensures FlowMeter(r) == m
  {
    match st
    case Assign(dst, e) => GoOn(SsaAssign(dst, e, pred, s, cx), next, m)
    case Store(a, v, ty) => GoOn(ExecStore(a, v, ty, s, cx), next, m)
    case Branch(cond, taken, fallthrough) =>
      (match Eval(cond, s, cx)
       case Ok(c) => Next(Some(if c != 0 then taken else fallthrough), s, m)
       case Fail(why) => Leave(Skip(Inner(why), m)))
    case Jump(to) => Next(Some(to), s, m)
    case Return(Some(e)) => Leave(Lift(Eval(e, s, cx), s, m))
    case Return(None) => Leave(Skip(NoReturnValue, m))
    case Nop => Next(next, s, m)
    case CallStmt(e) =>
      if IsMemcallExpr(e) then GoOn(DoMemcall(e.target.n, e.args, s, cx), next, m)
      else Leave(Skip(SwitchOrAsm, m))
    case _ => Leave(Skip(SwitchOrAsm, m))
  }

  function SsaStmts(ss: seq<Stmt>, pred: seq<nat>, next: Option<nat>, s: State, cx: Ctx, m: Meter): (r: Flow)
    ensures FlowMeter(r) == m
  {
    if ss == [] then Next(next, s, m)
    else
      match SsaStmt(ss[0], pred, next, s, cx, m)
      case Leave(o) => Leave(o)
      case Next(next', s', m') => SsaStmts(ss[1..], pred, next', s', cx, m')
  }

  function SsaFrom(f: IrFunction, cur: nat, s: State, cx: Ctx, m: Meter): Out
    decreases m.budget
  {
    if m.budget == 0 then Skip(OutOfBudget, m)
    else
      match FindId(f.blocks, cur)
      case None => Skip(NoBlock, m.Spend())
      case Some(b) =>
        match SsaStmts(b.stmts, b.pred, None, s, cx, m.Spend().Log(Ran(b.id)))
        case Leave(o) => o
        case Next(None, _, m') => Skip(NoTerminator, m')
        case Next(Some(id), s', m') => SsaFrom(f, id, s'.(prev := Some(cur)), cx, m')
  }

  function RunSsa(f: IrFunction, s: State, cx: Ctx, m: Meter): Out {
    match EntryId(f)
    case None => Skip(NoEntryBlock, m)
    case Some(id) => SsaFrom(f, id, s.(prev := None), cx, m)
  }

  // ---- φs on one edge ---------------------------------------------------------------

  /** A φ on a fixed incoming edge: target and argument. */
  datatype Move = Move(dst: nat, arg: nat)

  /** One after another, each reading the store as left by the ones before. */
  function Sequential(ms: seq<Move>, v: Vids): Option<Vids> {
    if ms == [] then Some(v)
    else if ms[0].arg !in v then None
    else Sequential(ms[1..], v[ms[0].dst := v[ms[0].arg]])
  }

  /** All arguments read from `v` before anything is assigned. */
  function Simultaneous(ms: seq<Move>, v: Vids): Option<Vids> { Assigned(ms, v, v) }

  function Assigned(ms: seq<Move>, v: Vids, acc: Vids): Option<Vids> {
    if ms == [] then Some(acc)
    else if ms[0].arg !in v then None
    else Assigned(ms[1..], v, acc[ms[0].dst := v[ms[0].arg]])
  }

  function Lookup(env: map<nat, nat>, x: nat): nat { if x in env then env[x] else x }

  /** The value each sequential φ really reads: its argument traced back through
      the earlier φs that overwrote it. */
  function Sourced(ms: seq<Move>, env: map<nat, nat>): (r: seq<Move>)
    ensures |r| == |ms| && forall i :: 0 <= i < |ms| ==> r[i].dst == ms[i].dst
  {
    if ms == [] then []
    else
      var src := Lookup(env, ms[0].arg);
      [Move(ms[0].dst, src)] + Sourced(ms[1..], env[ms[0].dst := src])
  }

  /** Exact meaning of the sequential loop: a simultaneous assignment of the
      sources, whatever the store, bound or not. */
  lemma {:induction false} SequentialIsSourced(ms: seq<Move>, v: Vids)
    ensures Sequential(ms, v) == Simultaneous(Sourced(ms, map[]), v)
  {
    SequentialFrom(ms, map[], v, v);
  }

  lemma {:induction false} SequentialFrom(ms: seq<Move>, env: map<nat, nat>, v: Vids, acc: Vids)
    requires forall x :: x in acc <==> Lookup(env, x) in v
    requires forall x :: x in acc ==> acc[x] == v[Lookup(env, x)]
    ensures Sequential(ms, acc) == Assigned(Sourced(ms, env), v, acc)
    decreases |ms|
  {
    if ms != [] {
      var d, a := ms[0].dst, ms[0].arg;
      var src := Lookup(env, a);
      var tail := Sourced(ms[1..], env[d := src]);
      assert Sourced(ms, env)[1..] == tail;
      if a in acc { SequentialFrom(ms[1..], env[d := src], v, acc[d := acc[a]]); }
    }
  }

  /** No φ's argument is the target of an earlier φ. */
  predicate NoOverwrite(ms: seq<Move>) {
    forall i, j :: 0 <= i < j < |ms| ==> ms[j].arg != ms[i].dst
  }

  predicate DistinctTargets(ms: seq<Move>) {
    forall i, j :: 0 <= i < j < |ms| ==> ms[j].dst != ms[i].dst
  }

  lemma {:induction false} NoOverwriteSourced(ms: seq<Move>, env: map<nat, nat>)
    requires NoOverwrite(ms) && forall i :: 0 <= i < |ms| ==> ms[i].arg !in env
    ensures Sourced(ms, env) == ms
    decreases |ms|
  {
    if ms != [] {
      assert NoOverwrite(ms[1..]) by {
        forall i, j | 0 <= i < j < |ms[1..]| ensures ms[1..][j].arg != ms[1..][i].dst {
          assert ms[j + 1].arg != ms[i + 1].dst;
        }
      }
      NoOverwriteSourced(ms[1..], env[ms[0].dst := Lookup(env, ms[0].arg)]);
      assert ms == [ms[0]] + ms[1..];
    }
  }

  /** φ resolution: sequential and simultaneous agree on every store when no φ
      reads an earlier φ's target. */
  lemma {:induction false} PhisAreSimultaneous(ms: seq<Move>, v: Vids)
    requires NoOverwrite(ms)
    ensures Sequential(ms, v) == Simultaneous(ms, v)
  {
    SequentialIsSourced(ms, v);
    NoOverwriteSourced(ms, map[]);
  }

  /** An earlier target may be read only if that φ copied it to itself. */
  predicate RereadsSelfCopiesOnly(ms: seq<Move>) {
    forall i, j :: 0 <= i < j < |ms| && ms[j].arg == ms[i].dst ==> ms[i].arg == ms[i].dst
  }

  /** With distinct targets, as SSA form has them, the two agree on every store if and
      only if every φ that reads an earlier φ's target reads a self-copy. */
  lemma {:induction false} PhisExact(ms: seq<Move>)
    requires DistinctTargets(ms)
    ensures (forall v :: Sequential(ms, v) == Simultaneous(ms, v)) <==> RereadsSelfCopiesOnly(ms)
  {
    SourcedFixed(ms, map[]);
    hide Sequential, Assigned, Sourced, DistinctTargets, RereadsSelfCopiesOnly;
    var src := Sourced(ms, map[]);
    if src == ms {
      forall v ensures Sequential(ms, v) == Simultaneous(ms, v) { SequentialIsSourced(ms, v); }
    } else {
      var k :| 0 <= k < |ms| && src[k] != ms[k];
      var v := Distinguish(ms, src, k);
      SequentialIsSourced(ms, v);
    }
  }

  /** Tracing back changes nothing exactly when no argument is renamed by `env` and
      earlier targets are re-read as self-copies only. */
  lemma {:induction false} SourcedFixed(ms: seq<Move>, env: map<nat, nat>)
    requires DistinctTargets(ms) && forall i :: 0 <= i < |ms| ==> ms[i].dst !in env
    ensures Sourced(ms, env) == ms <==>
            RereadsSelfCopiesOnly(ms) && forall j :: 0 <= j < |ms| ==> Lookup(env, ms[j].arg) == ms[j].arg
    decreases |ms|
  {
    if ms != [] {
      var rest, env' := ms[1..], env[ms[0].dst := Lookup(env, ms[0].arg)];
      TailDistinct(ms);
      assert forall i :: 0 <= i < |rest| ==> rest[i] == ms[i + 1];
      SourcedFixed(rest, env');
      SourcedTail(ms, env);
      RereadsTail(ms);
      if Lookup(env, ms[0].arg) == ms[0].arg { LookupTail(ms, env); }
      hide Sourced, RereadsSelfCopiesOnly, DistinctTargets;
    }
  }

  lemma {:induction false} TailDistinct(ms: seq<Move>)
    requires ms != [] && DistinctTargets(ms)
    ensures DistinctTargets(ms[1..]) && forall i :: 0 <= i < |ms| - 1 ==> ms[1..][i].dst != ms[0].dst
  {
    var rest := ms[1..];
    forall i, j | 0 <= i < j < |rest| ensures rest[j].dst != rest[i].dst { assert ms[j + 1].dst != ms[i + 1].dst; }
    forall i | 0 <= i < |rest| ensures rest[i].dst != ms[0].dst { assert ms[i + 1].dst != ms[0].dst; }
  }

  lemma {:induction false} SourcedTail(ms: seq<Move>, env: map<nat, nat>)
    requires ms != []
    ensures var src := Lookup(env, ms[0].arg);
            Sourced(ms, env) == ms <==> src == ms[0].arg && Sourced(ms[1..], env[ms[0].dst := src]) == ms[1..]
  {
    var src := Lookup(env, ms[0].arg);
    var tail := Sourced(ms[1..], env[ms[0].dst := src]);
    assert Sourced(ms, env) == [Move(ms[0].dst, src)] + tail;
    hide Sourced;
    assert ms == [ms[0]] + ms[1..];
    assert ([Move(ms[0].dst, src)] + tail)[1..] == tail;
  }

  /** Recording an unrenamed φ renames an argument only if it re-reads that φ. */
  lemma {:induction false} LookupTail(ms: seq<Move>, env: map<nat, nat>)
    requires ms != [] && ms[0].dst !in env && Lookup(env, ms[0].arg) == ms[0].arg
    ensures (forall j :: 0 <= j < |ms| - 1 ==> Lookup(env[ms[0].dst := ms[0].arg], ms[1..][j].arg) == ms[1..][j].arg) <==>
            (forall j :: 0 <= j < |ms| ==> Lookup(env, ms[j].arg) == ms[j].arg)
            && forall j :: 0 <= j < |ms| - 1 && ms[1..][j].arg == ms[0].dst ==> ms[0].arg == ms[0].dst
  {
    var env', rest := env[ms[0].dst := ms[0].arg], ms[1..];
    forall j | 0 <= j < |rest|
      ensures Lookup(env', rest[j].arg) == rest[j].arg <==>
              Lookup(env, rest[j].arg) == rest[j].arg && (rest[j].arg == ms[0].dst ==> ms[0].arg == ms[0].dst)
      ensures rest[j] == ms[j + 1]
    {}
    hide Lookup;
    if forall j :: 0 <= j < |rest| ==> Lookup(env', rest[j].arg) == rest[j].arg {
      forall j | 0 <= j < |ms| ensures Lookup(env, ms[j].arg) == ms[j].arg {
        if j > 0 { assert rest[j - 1] == ms[j]; }
      }
    }
  }

  lemma {:induction false} RereadsTail(ms: seq<Move>)
    requires ms != []
    ensures RereadsSelfCopiesOnly(ms) <==>
            RereadsSelfCopiesOnly(ms[1..])
            && forall j :: 0 <= j < |ms| - 1 && ms[1..][j].arg == ms[0].dst ==> ms[0].arg == ms[0].dst
  {
    var rest := ms[1..];
    assert forall i :: 0 <= i < |rest| ==> rest[i] == ms[i + 1];
    if RereadsSelfCopiesOnly(rest) && forall j :: 0 <= j < |rest| && rest[j].arg == ms[0].dst ==> ms[0].arg == ms[0].dst {
      forall i, j | 0 <= i < j < |ms| && ms[j].arg == ms[i].dst ensures ms[i].arg == ms[i].dst {
        assert rest[j - 1] == ms[j];
        if i > 0 { assert rest[i - 1] == ms[i]; }
      }
    }
    if RereadsSelfCopiesOnly(ms) {
      forall i, j | 0 <= i < j < |rest| && rest[j].arg == rest[i].dst ensures rest[i].arg == rest[i].dst {
        assert ms[j + 1].arg == ms[i + 1].dst;
      }
      forall j | 0 <= j < |rest| && rest[j].arg == ms[0].dst ensures ms[0].arg == ms[0].dst {
        assert ms[j + 1].arg == ms[0].dst;
      }
    }
  }

  lemma {:induction false} Distinguish(ms: seq<Move>, src: seq<Move>, k: nat) returns (v: Vids)
    requires k < |ms| == |src| && DistinctTargets(ms) && src[k].arg != ms[k].arg
    requires forall i :: 0 <= i < |ms| ==> src[i].dst == ms[i].dst
    ensures Simultaneous(ms, v) != Simultaneous(src, v)
  {
    hide Assigned;
    var names := (set x | x in ms :: x.arg) + (set x | x in src :: x.arg);
    v := map x | x in names :: if x == ms[k].arg then 1 else 0;
    assert DistinctTargets(src);
    assert ms[k] in ms && src[k] in src;
    AssignedAt(ms, v, v, k);
    AssignedAt(src, v, v, k);
  }

  lemma {:induction false} AssignedAt(ms: seq<Move>, v: Vids, acc: Vids, k: nat)
    requires k < |ms| && DistinctTargets(ms) && forall x :: x in ms ==> x.arg in v
    ensures Assigned(ms, v, acc).Some? && ms[k].dst in Assigned(ms, v, acc).value
    ensures Assigned(ms, v, acc).value[ms[k].dst] == v[ms[k].arg]
    decreases |ms|
  {
    var acc' := acc[ms[0].dst := v[ms[0].arg]];
    assert forall i :: 0 <= i < |ms| - 1 ==> ms[1..][i] == ms[i + 1];
    if k > 0 {
      AssignedAt(ms[1..], v, acc', k - 1);
    } else {
      AssignedKeeps(ms[1..], v, acc', ms[0].dst);
    }
  }

  lemma {:induction false} AssignedKeeps(ms: seq<Move>, v: Vids, acc: Vids, d: nat)
    requires d in acc && (forall x :: x in ms ==> x.arg in v && x.dst != d)
    ensures Assigned(ms, v, acc).Some? && d in Assigned(ms, v, acc).value
    ensures Assigned(ms, v, acc).value[d] == acc[d]
    decreases |ms|
  {
    if ms != [] { AssignedKeeps(ms[1..], v, acc[ms[0].dst := v[ms[0].arg]], d); }
  }

  /** The classic swap is one of the excluded edges. */
  lemma {:induction false} SwapIsNotSimultaneous(x: nat, y: nat)
    requires x != y
    ensures exists v :: Sequential([Move(x, y), Move(y, x)], v) != Simultaneous([Move(x, y), Move(y, x)], v)
  {
    var ms := [Move(x, y), Move(y, x)];
    assert ms[1].arg == ms[0].dst && ms[0].arg != ms[0].dst;
    PhisExact(ms);
  }

  // ---- φs inside a block -----------------------------------------------------------------

  /** The block's φ statements on the edge from `prev`, where it resolves. */
  function Moves(ss: seq<Stmt>, pred: seq<nat>, prev: Option<nat>): Option<seq<Move>>
    requires forall st :: st in ss ==> st.Assign? && st.vexpr.Phi?
  {
    if ss == [] then Some([])
    else
      match (PhiArg(ss[0].vexpr.vids, pred, prev), Moves(ss[1..], pred, prev))
      case (Some(a), Some(rest)) => Some([Move(ss[0].vdst, a)] + rest)
      case _ => None
  }

  /** A block that starts with φs none of which reads an earlier one's target runs
      them as one simultaneous assignment, or skips where that is undefined. */
  lemma {:induction false} BlockPhis(phis: seq<Stmt>, rest: seq<Stmt>, pred: seq<nat>, next: Option<nat>, s: State, cx: Ctx, m: Meter)
    requires forall st :: st in phis ==> st.Assign? && st.vexpr.Phi?
    requires Moves(phis, pred, s.prev).Some? ==> NoOverwrite(Moves(phis, pred, s.prev).value)
    ensures SsaStmts(phis + rest, pred, next, s, cx, m) ==
            match Moves(phis, pred, s.prev)
            case None => Leave(Skip(Inner(Unmodelled), m))
            case Some(ms) =>
              match Simultaneous(ms, s.vids)
              case None => Leave(Skip(Inner(Unmodelled), m))
              case Some(v) => SsaStmts(rest, pred, next, s.(vids := v), cx, m)
  {
    PhisRun(phis, rest, pred, next, s, cx, m);
    var ms := Moves(phis, pred, s.prev);
    if ms.Some? { PhisAreSimultaneous(ms.value, s.vids); }
  }

  /** Any φs, run as the loop runs them. */
  lemma {:induction false} PhisRun(phis: seq<Stmt>, rest: seq<Stmt>, pred: seq<nat>, next: Option<nat>, s: State, cx: Ctx, m: Meter)
    requires forall st :: st in phis ==> st.Assign? && st.vexpr.Phi?
    ensures SsaStmts(phis + rest, pred, next, s, cx, m) ==
            match Moves(phis, pred, s.prev)
            case None => Leave(Skip(Inner(Unmodelled), m))
            case Some(ms) =>
              match Sequential(ms, s.vids)
              case None => Leave(Skip(Inner(Unmodelled), m))
              case Some(v) => SsaStmts(rest, pred, next, s.(vids := v), cx, m)
    decreases |phis|
  {
    hide Eval, DoMemcall, PredIndex, ExecStore;
    var all := phis + rest;
    if phis == [] {
      assert all == rest;
      assert s == s.(vids := s.vids);
    } else {
      assert all[0] == phis[0] && all[1..] == phis[1..] + rest;
      var a := PhiArg(phis[0].vexpr.vids, pred, s.prev);
      if a.Some? && a.value in s.vids {
        var s' := Bind(s, phis[0].vdst, s.vids[a.value]);
        PhisRun(phis[1..], rest, pred, next, s', cx, m);
        var ms := Moves(phis[1..], pred, s.prev);
        if ms.Some? { assert ([Move(phis[0].vdst, a.value)] + ms.value)[1..] == ms.value; }
      }
    }
  }
}
