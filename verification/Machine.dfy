/** Interpreter state and expression evaluation: `eval`, `write_loc` and
    `exec` (src/cpudiff.rs:297-433). */
module Machine {
  import opened Basics
  import opened Ir
  import opened Memory
  import Word

  type Regs = s: seq<U64> | |s| == 8 witness [0, 0, 0, 0, 0, 0, 0, 0]

  datatype State = State(
    regs: Regs,
    flags: map<FlagKind, U64>,
    temps: map<nat, U64>,
    xmmLo: Regs,
    xmmHi: Regs,
    ram: Ram,
    retSlots: seq<U64>,
    vids: map<nat, U64>,
    prev: Option<nat>)

  /** What a run is given besides the state: the recovered functions, their
      `ret N` counts, the host-backed intrinsics, the stubbed imports and the
      value helpers not modelled here (`helper`, any deterministic function).
      `ra` gives the return address pushed by the k-th recorded push; the source
      always pushes FN_RET_SENTINEL. `monitor` turns the leak monitor on. */
  datatype Ctx = Ctx(
    funcs: map<U64, IrFunction>,
    retPops: map<U64, int>,
    intrinsics: map<U64, MemIntrin>,
    stubs: set<Name>,
    helper: (string, seq<U64>) -> Option<U64>,
    ra: nat -> U64,
    monitor: bool)

  function TyBytes(ty: Ty): Option<nat> {
    match ty
    case Int(bits, _) => Some((bits + 7) / 8)
    case Bool => Some(1)
    case _ => None
  }

  /** Access width of a load or store; wider than 8 bytes overflows the shifts of
      `mem_read`/`mem_write` and gives no value. */
  function AccessBytes(ty: Ty): (r: Res<nat>)
    ensures r.Ok? ==> r.v <= 8
  {
    match TyBytes(ty)
    case Some(n) => if n <= 8 then Ok(n) else Fail(Unmodelled)
    case None => Fail(Unmodelled)
  }

  function ReadLoc(loc: Location, s: State): Res<U64> {
    match loc
    case Reg(r) =>
      if r < 8 then Ok(s.regs[r])
      else if 16 <= r < 24 then Ok(s.xmmLo[r - 16])
      else if 64 <= r < 72 then Ok(s.xmmHi[r - 64])
      else Fail(Unmodelled)
    case Flag(f) => Ok(if f in s.flags then s.flags[f] else 0)
    case Temp(t) => Ok(if t in s.temps then s.temps[t] else 0)
    case _ => Fail(Unmodelled)
  }

  function WriteLoc(loc: Location, v: U64, s: State): Res<State> {
    match loc
    case Reg(r) =>
      if r < 8 then Ok(s.(regs := s.regs[r := v]))
      else if 16 <= r < 24 then Ok(s.(xmmLo := s.xmmLo[r - 16 := v]))
      else if 64 <= r < 72 then Ok(s.(xmmHi := s.xmmHi[r - 64 := v]))
      else Fail(Unmodelled)
    case Flag(f) => Ok(s.(flags := s.flags[f := v % 2]))
    case Temp(t) => Ok(s.(temps := s.temps[t := v]))
    case _ => Fail(Unmodelled)
  }

  function EvenParity(b: nat): bool
    decreases b
  {
    if b == 0 then true else (b % 2 == 0) == EvenParity(b / 2)
  }

  function HelperCall(n: Name, a: seq<U64>, cx: Ctx): Option<U64> {
    match n
    case IxUdiv32 => if |a| < 2 then None else Word.UDivHelper(a[0], a[1])
    case IxUmod32 => if |a| < 2 then None else Word.UModHelper(a[0], a[1])
    case IxIdiv32 => if |a| < 2 then None else Word.IDivHelper(a[0], a[1], true)
    case IxImod32 => if |a| < 2 then None else Word.IDivHelper(a[0], a[1], false)
    case IxPf => if |a| < 1 then None else Some(Word.OfBool(EvenParity(a[0] % 256)))
    case Helper(text) => cx.helper(text, a)
    case _ => None
  }

  function CastTo(ty: Ty, v: U64): Res<U64> {
    match ty
    case Int(bits, _) => Ok(if bits >= 64 then v else Word.Wrap(v % Word.Pow2(bits)))
    case Bool => Ok(v % 2)
    case _ => Fail(Unmodelled)
  }

  function UnaryOp(op: UnOp, a: U64): Res<U64> {
    match op
    case Neg => Ok(Word.Wrap(0 - a))
    case Not => Ok(TWO64 - 1 - a)
    case _ => Fail(Unmodelled)
  }

  /** `Sar`, `SDiv` and `SMod` sign-extend each operand from its inferred width. */
  function BinaryOp(op: BinOp, a: Expr, x: U64, b: Expr, y: U64): Res<U64> {
    match op
    case Sar => FromOption(Word.Bin(Sar, Word.Sext(x, Word.SignedWidth(a)), y))
    case SDiv => FromOption(Word.Bin(SDiv, Word.Sext(x, Word.SignedWidth(a)), Word.Sext(y, Word.SignedWidth(b))))
    case SMod => FromOption(Word.Bin(SMod, Word.Sext(x, Word.SignedWidth(a)), Word.Sext(y, Word.SignedWidth(b))))
    case _ => FromOption(Word.Bin(op, x, y))
  }

  function Eval(e: Expr, s: State, cx: Ctx): Res<U64>
    decreases e, 0
  {
    match e
    case Const(v, _) => Ok(Word.Wrap(v))
    case Use(v) => if v in s.vids then Ok(s.vids[v]) else Fail(Unmodelled)
    case Read(loc) => ReadLoc(loc, s)
    case Load(addr, ty) =>
      var a :- Eval(addr, s, cx);
      var n :- AccessBytes(ty);
      RamLoad(s.ram, a, n, cx.monitor)
    case Unary(op, x) =>
      var a :- Eval(x, s, cx);
      UnaryOp(op, a)
    case Binary(op, a, b) =>
      var x :- Eval(a, s, cx);
      var y :- Eval(b, s, cx);
      BinaryOp(op, a, x, b, y)
    case Cast(to, x) =>
      var v :- Eval(x, s, cx);
      CastTo(to, v)
    case Select(cond, t, f) =>
      var c :- Eval(cond, s, cx);
      if c != 0 then Eval(t, s, cx) else Eval(f, s, cx)
    case Call(target, args) =>
      (match target
       case Named(n) =>
         if n in cx.stubs then Ok(0)
         else
           var vs :- EvalArgs(args, s, cx);
           FromOption(HelperCall(n, vs, cx))
       case _ => Fail(Unmodelled))
    case _ => Fail(Unmodelled)
  }

  function EvalArgs(args: seq<Expr>, s: State, cx: Ctx): (r: Res<seq<U64>>)
    ensures r.Ok? ==> |r.v| == |args|
    decreases args, 1
  {
    if args == [] then Ok([])
    else
      var v :- Eval(args[0], s, cx);
      var vs :- EvalArgs(args[1..], s, cx);
      Ok([v] + vs)
  }

  /** `Store`: address first, then value. */
  function ExecStore(addr: Expr, value: Expr, ty: Ty, s: State, cx: Ctx): Res<State> {
    var a :- Eval(addr, s, cx);
    var v :- Eval(value, s, cx);
    var n :- AccessBytes(ty);
    var r :- RamWrite(s.ram, a, n, v);
    Ok(s.(ram := r))
  }

  function Exec(st: Stmt, s: State, cx: Ctx): Res<State> {
    match st
    case Store(addr, value, ty) => ExecStore(addr, value, ty, s, cx)
    case Nop => Ok(s)
    case Set(dst, e) =>
      var v :- Eval(e, s, cx);
      WriteLoc(dst, v, s)
    case _ => Fail(Unmodelled)
  }

  /** The state without its monitor. */
  function Bare(s: State): State { s.(ram := s.ram.(taint := {})) }

  /** With the monitor off, evaluation does not see the record of pushed bytes. */
  lemma {:induction false} EvalBare(e: Expr, s: State, cx: Ctx)
    requires !cx.monitor
    ensures Eval(e, s, cx) == Eval(e, Bare(s), cx)
    decreases e, 0
  {
    match e
    case Load(addr, ty) => EvalBare(addr, s, cx);
    case Unary(op, x) => EvalBare(x, s, cx);
    case Binary(op, a, b) => EvalBare(a, s, cx); EvalBare(b, s, cx);
    case Cast(to, x) => EvalBare(x, s, cx);
    case Select(c, t, f) => EvalBare(c, s, cx); EvalBare(t, s, cx); EvalBare(f, s, cx);
    case Call(target, args) => EvalArgsBare(args, s, cx);
    case _ =>
  }

  lemma {:induction false} EvalArgsBare(args: seq<Expr>, s: State, cx: Ctx)
    requires !cx.monitor
    ensures EvalArgs(args, s, cx) == EvalArgs(args, Bare(s), cx)
    decreases args, 1
  {
    if args != [] {
      EvalBare(args[0], s, cx);
      EvalArgsBare(args[1..], s, cx);
    }
  }
}
