/** The intermediate representation that the differential interpreter runs
    (src/ir/types.rs), restricted to what src/cpudiff.rs inspects. */
module Ir {
  import opened Basics

  const TWO32: int := 0x1_0000_0000
  const TWO63: int := 0x8000_0000_0000_0000
  const TWO64: int := 0x1_0000_0000_0000_0000

  type U64 = x: int | 0 <= x < 0x1_0000_0000_0000_0000

  datatype FlagKind = Zf | Sf | Of | Cf | Pf | Af | Df

  datatype Location = Reg(id: nat) | Flag(f: FlagKind) | Frame(disp: int) | MemLoc | Temp(t: nat)

  datatype Ty =
    | Unknown
    | Int(bits: nat, signed: Option<bool>)
    | Ptr(to: Ty)
    | Float(fbits: nat)
    | Aggregate(id: nat)
    | Code
    | Bool

  datatype UnOp = Neg | Not | SignExtend | ZeroExtend | Truncate

  datatype BinOp =
    | Add | Sub | Mul | UDiv | SDiv | UMod | SMod
    | And | Or | Xor | Shl | Shr | Sar
    | Eq | Ne | Ult | Ule | Ugt | Uge | Slt | Sle | Sgt | Sge

  /** The name of a named call, after the recognition that `helper_call`,
      `is_modeled_helper` and `is_modeled_memcall` perform on it. `Helper` is any
      other name with one of the modelled helper prefixes; `Import` is the rest. */
  datatype Name =
    | Memcpy | Memmove
    | RepMovs(elem: Width) | RepStos(elem: Width)
    | IxUdiv32 | IxUmod32 | IxIdiv32 | IxImod32 | IxPf
    | Helper(text: string)
    | Import(text: string)

  datatype Width = W1 | W2 | W4 | W8 {
    function Bytes(): (n: nat)
      ensures n == 1 || n == 2 || n == 4 || n == 8
    {
      match this case W1 => 1 case W2 => 2 case W4 => 4 case W8 => 8
    }
  }

  datatype CallTarget = Direct(t: U64) | Indirect(addr: Expr) | Named(n: Name)

  datatype Expr =
    | Const(v: int, ty: Ty)
    | Read(loc: Location)
    | Use(vid: nat)
    | Load(addr: Expr, lty: Ty)
    | Unary(uop: UnOp, x: Expr)
    | Binary(op: BinOp, a: Expr, b: Expr)
    | Cast(to: Ty, e: Expr)
    | Addr(of: Location)
    | Call(target: CallTarget, args: seq<Expr>)
    | Select(cond: Expr, then_: Expr, else_: Expr)
    | Phi(vids: seq<nat>)
    | Undef

  datatype Stmt =
    | Set(dst: Location, expr: Expr)
    | Assign(vdst: nat, vexpr: Expr)
    | Store(addr: Expr, value: Expr, ty: Ty)
    | Branch(cond: Expr, taken: nat, fallthrough: nat)
    | Jump(to: nat)
    | Switch(value: Expr)
    | Return(result: Option<Expr>)
    | CallStmt(call: Expr)
    | Asm(text: string)
    | Nop

  datatype Block = Block(id: nat, addr: U64, stmts: seq<Stmt>, pred: seq<nat>)

  datatype IrFunction = IrFunction(entry: U64, entryValues: seq<(Location, nat)>, blocks: seq<Block>)

  datatype MemIntrin = IntrinMemmove | IntrinMemcpy
}
