/** The interpreter object of src/cpudiff.rs (`struct Interp`): its methods
    change the state in place, with the source's loops, and are proved to do what
    the functions of Memory, StringOps, Closure and Ssa say. On a skip the source
    drops the object, so nothing is promised about its state then. */
module Interpreter {
  import opened Basics
  import opened Ir
  import opened Memory
  import opened Machine
  import opened StringOps
  import opened Closure
  import opened Ssa
  import Word

  /** The context as the source has it: one sentinel for every push, no monitor. */
  ghost predicate SourceCtx(cx: Ctx) {
    !cx.monitor && forall k :: cx.ra(k) == FN_RET_SENTINEL
  }

  lemma {:induction false} LeAppend(bs: seq<Byte>, b: Byte)
    ensures LeValue(bs + [b]) == LeValue(bs) + b * Pow256(|bs|)
  {
    if bs == [] {
      assert LeValue([b][1..]) == 0;
    } else {
      assert (bs + [b])[1..] == bs[1..] + [b];
      LeAppend(bs[1..], b);
      assert 256 * (b * Pow256(|bs| - 1)) == b * Pow256(|bs|);
    }
  }

  lemma {:induction false} LeBytesAppend(v: int, n: nat)
    requires v >= 0
    ensures LeBytes(v, n + 1) == LeBytes(v, n) + [(v / Pow256(n)) % 256]
  {
    if n == 0 {
      assert LeBytes(v / 256, 0) == [];
    } else {
      LeBytesAppend(v / 256, n - 1);
      assert v / Pow256(n) == (v / 256) / Pow256(n - 1) by { DivDiv(v, Pow256(n - 1)); }
    }
  }

  lemma {:induction false} DivDiv(v: int, p: int)
    requires v >= 0 && p > 0
    ensures v / (256 * p) == (v / 256) / p
  {
    var a, b := v / 256, v % 256;
    var q, r := a / p, a % p;
    assert v == 256 * a + b && a == q * p + r;
    assert v == q * (256 * p) + (256 * r + b) by { assert 256 * (q * p) == q * (256 * p); }
    Word.DivisionUnique(v, 256 * p, q, 256 * r + b);
  }

  /** The source's answer: the value, or None for any reason. */
  ghost predicate Gives<T>(r: Option<T>, spec: Res<T>) {
    match spec case Ok(v) => r == Some(v) case Fail(_) => r == None
  }

  /** The little-endian accumulation loop of `mem_read`. */
  method Assemble(buf: seq<Byte>, off: nat, n: nat) returns (v: U64)
    requires off + n <= |buf| && n <= 8
    ensures v == LeValue(buf[off..off + n])
  {
    var acc: int, unit: int := 0, 1;
    for i := 0 to n
      invariant acc == LeValue(buf[off..off + i]) && unit == Pow256(i)
    {
      LeAppend(buf[off..off + i], buf[off + i]);
      assert buf[off..off + i + 1] == buf[off..off + i] + [buf[off + i]];
      acc, unit := acc + buf[off + i] * unit, 256 * unit;
    }
    Pow256Bound(n);
    return acc;
  }

  /** The byte loop of `mem_write`. */
  method Patch(buf: seq<Byte>, off: nat, n: nat, val: U64) returns (out: seq<Byte>)
    requires off + n <= |buf|
    ensures out == buf[..off] + LeBytes(val, n) + buf[off + n..]
  {
    out := buf;
    for i := 0 to n
      invariant |out| == |buf| && out == buf[..off] + LeBytes(val, i) + buf[off + i..]
    {
      LeBytesAppend(val, i);
      out := out[off + i := (val / Pow256(i)) % 256];
    }
  }

  class Interp {
    var regs: Regs
    var flags: map<FlagKind, U64>
    var temps: map<nat, U64>
    var page: seq<Byte>
    var xmmLo: Regs
    var xmmHi: Regs
    var regions: seq<Region>
    var retSlots: seq<U64>
    var vids: map<nat, U64>
    var prevBlock: Option<nat>
    ghost var taint: set<Place>

    constructor (regs: Regs, flags: map<FlagKind, U64>, xmmLo: Regs, xmmHi: Regs, page: seq<Byte>, regions: seq<Region>)
      ensures View() == State(regs, flags, map[], xmmLo, xmmHi, Ram(MemOf(page, regions), {}), [], map[], None)
    {
      this.regs, this.flags, this.xmmLo, this.xmmHi := regs, flags, xmmLo, xmmHi;
      this.page, this.regions := page, regions;
      temps, retSlots, vids, prevBlock, taint := map[], [], map[], None, {};
    }

    /** Whole-function mode when regions are mapped, else the scratch page. */
    static function MemOf(page: seq<Byte>, regions: seq<Region>): Mem {
      if regions == [] then Mem([Region(DATA_ADDR, page, true)], false) else Mem(regions, true)
    }

    ghost function View(): State
      reads this
    {
      State(regs, flags, temps, xmmLo, xmmHi, Ram(MemOf(page, regions), taint), retSlots, vids, prevBlock)
    }

    /** The executable part of the state. */
    function Plain(): State
      reads this
    {
      State(regs, flags, temps, xmmLo, xmmHi, Ram(MemOf(page, regions), {}), retSlots, vids, prevBlock)
    }

    method Evaluate(e: Expr, cx: Ctx) returns (r: Option<U64>)
      requires !cx.monitor
      ensures Gives(r, Eval(e, View(), cx))
    {
      EvalBare(e, View(), cx);
      assert Bare(View()) == Plain();
      match Eval(e, Plain(), cx)
      case Ok(v) => return Some(v);
      case Fail(_) => return None;
    }

    method RegionIndex(a: U64, n: nat) returns (r: Option<nat>)
      ensures r == RegionOf(regions, a, n)
    {
      for i := 0 to |regions|
        invariant forall j :: 0 <= j < i ==> !Fits(regions[j], a, n)
      {
        if Fits(regions[i], a, n) {
          return Some(i);
        }
      }
      return None;
    }

    method Read(addr: U64, n: nat) returns (r: Option<U64>)
      requires n <= 8
      ensures r == MemRead(MemOf(page, regions), addr, n)
    {
      hide Key, LeValue;
      var buf, off;
      if regions != [] {
        var ri := RegionIndex(Key(MemOf(page, regions), addr), n);
        if ri.None? {
          return None;
        }
        buf, off := regions[ri.value].data, Key(MemOf(page, regions), addr) - regions[ri.value].base;
      } else {
        ScratchPlace(page, addr, n);
        if addr < DATA_ADDR || addr - DATA_ADDR + n > |page| {
          return None;
        }
        buf, off := page, addr - DATA_ADDR;
      }
      var v := Assemble(buf, off, n);
      return Some(v);
    }

    method Write(addr: U64, n: nat, val: U64) returns (ok: bool)
      modifies this`page, this`regions, this`taint
      ensures var w := RamWrite(old(View()).ram, addr, n, val);
              && (ok <==> w.Ok?)
              && View() == if ok then old(View()).(ram := w.v) else old(View())
    {
      hide Key;
      var a := Key(MemOf(page, regions), addr);
      if regions != [] {
        var at := RegionIndex(a, n);
        if at.None? || !regions[at.value].writable {
          return false;
        }
        var r := regions[at.value];
        var data := Patch(r.data, a - r.base, n, val);
        taint := taint - Span(Place(at.value, a - r.base), n);
        regions := regions[at.value := r.(data := data)];
      } else {
        ScratchPlace(page, addr, n);
        if addr < DATA_ADDR || addr - DATA_ADDR + n > |page| {
          return false;
        }
        page := Patch(page, addr - DATA_ADDR, n, val);
        taint := taint - Span(Place(0, addr - DATA_ADDR), n);
      }
      return true;
    }

    /** Forward byte copy, one byte read and written at a time. */
    method ForwardCopy(dst: U64, src: U64, n: nat) returns (ok: bool)
      modifies this`page, this`regions, this`taint
      ensures var w := CopyLoop(old(View()).ram, dst, src, 0, n, false);
              ok == w.Ok? && (ok ==> View() == old(View()).(ram := w.v))
    {
      hide RamWrite, MemRead, MemOf;
      for i := 0 to n
        invariant View() == old(View()).(ram := View().ram)
        invariant CopyLoop(old(View()).ram, dst, src, 0, n, false) == CopyLoop(View().ram, dst, src, i, n, false)
      {
        ghost var r := View().ram;
        var b := Read(Off(src, i), 1);
        LoadIsRead(r, Off(src, i), 1);
        if b.None? {
          return false;
        }
        var wrote := Write(Off(dst, i), 1, b.value);
        if !wrote {
          return false;
        }
      }
      return true;
    }

    method Fill(dst: U64, val: U64, elem: nat, n: nat) returns (ok: bool)
      requires elem > 0
      modifies this`page, this`regions, this`taint
      ensures var w := FillLoop(old(View()).ram, dst, val, elem, 0, n);
              ok == w.Ok? && (ok ==> View() == old(View()).(ram := w.v))
    {
      hide RamWrite, MemOf;
      for i := 0 to n
        invariant View() == old(View()).(ram := View().ram)
        invariant FillLoop(old(View()).ram, dst, val, elem, 0, n) == FillLoop(View().ram, dst, val, elem, i, n)
      {
        var wrote := Write(Off(dst, i), 1, FillByte(val, elem, i));
        if !wrote {
          return false;
        }
      }
      return true;
    }

    method EvaluateAll(args: seq<Expr>, cx: Ctx) returns (r: Option<seq<U64>>)
      requires !cx.monitor
      ensures Gives(r, EvalArgs(args, View(), cx))
    {
      EvalArgsBare(args, View(), cx);
      assert Bare(View()) == Plain();
      match EvalArgs(args, Plain(), cx)
      case Ok(v) => return Some(v);
      case Fail(_) => return None;
    }

    method DoMemcall(n: Name, args: seq<Expr>, cx: Ctx) returns (ok: bool)
      requires !cx.monitor && IsMemcall(n, |args|)
      modifies this`page, this`regions, this`taint
      ensures var w := StringOps.DoMemcall(n, args, old(View()), cx);
              ok == w.Ok? && (ok ==> View() == w.v)
    {
      hide EvalArgs, CopyLoop, FillLoop, MemOf;
      var values := EvaluateAll(args, cx);
      if values.None? {
        return false;
      }
      var vs := values.value;
      var count := vs[2] % 0x1_0000_0000;
      if |vs| == 3 {
        if count > CAP {
          return false;
        }
        ok := ForwardCopy(vs[0], vs[1], count);
      } else {
        var total := count * n.elem.Bytes();
        if vs[3] != 0 || total > CAP {
          return false;
        }
        if n.RepMovs? {
          ok := ForwardCopy(vs[0], vs[1], total);
        } else {
          ok := Fill(vs[0], vs[1], n.elem.Bytes(), total);
        }
      }
    }

    /** Write the sentinel below esp and record the slot. */
    method Push(cx: Ctx) returns (ok: bool)
      requires SourceCtx(cx)
      modifies this`page, this`regions, this`taint, this`retSlots
      ensures var w := PushReturn(old(View()), cx);
              ok == w.Ok? && (ok ==> View() == w.v)
    {
      hide MemOf, RamWrite, RamPush;
      var esp: int := regs[4];
      var slot := Word.Wrap(esp - 4);
      ghost var r := View().ram;
      PushIsWrite(r, slot, FN_RET_SENTINEL);
      ok := Write(slot, 4, FN_RET_SENTINEL);
      if ok {
        retSlots := retSlots + [slot];
        taint := RamPush(r, slot, FN_RET_SENTINEL).v.taint;
      }
    }

    method CallMemIntrinsic(kind: MemIntrin, cx: Ctx) returns (r: Option<U64>)
      requires SourceCtx(cx)
      modifies this`page, this`regions, this`taint, this`retSlots, this`regs
      ensures var w := StringOps.CallMemIntrinsic(kind, old(View()), cx);
              match w
              case Ok(sv) => r == Some(sv.1) && View() == sv.0
              case Fail(_) => r == None
    {
      hide MemOf, MemRead, RamWrite, RamPush, PushReturn, Overlapping;
      ghost var s0 := View();
      var esp := regs[4];
      LoadIsRead(s0.ram, esp, 4);
      LoadIsRead(s0.ram, Off(esp, 4), 4);
      LoadIsRead(s0.ram, Off(esp, 8), 4);
      var dst := Read(esp, 4);
      if dst.None? { return None; }
      var src := Read(Off(esp, 4), 4);
      if src.None? { return None; }
      var len := Read(Off(esp, 8), 4);
      if len.None? { return None; }
      var n := len.value;
      if n > CAP || (kind.IntrinMemcpy? && Overlapping(dst.value, src.value, n)) {
        return None;
      }
      var copied := CopyBuffered(dst.value, src.value, n);
      if !copied { return None; }
      var pushed := Push(cx);
      if !pushed { return None; }
      regs := regs[0 := dst.value];
      return dst;
    }

    /** Read all bytes into a buffer, then write them. */
    method CopyBuffered(dst: U64, src: U64, n: nat) returns (ok: bool)
      modifies this`page, this`regions, this`taint
      ensures var w := BufferedCopy(old(View()).ram, dst, src, n, false);
              ok == w.Ok? && (ok ==> View() == old(View()).(ram := w.v))
    {
      hide RamWrite, MemRead, MemOf, Gather, Scatter;
      var buf := ReadAll(src, n);
      if buf.None? {
        return false;
      }
      ok := WriteAll(dst, buf.value);
    }

    method ReadAll(src: U64, n: nat) returns (r: Option<seq<Byte>>)
      ensures Gives(r, Gather(View().ram, src, 0, n, false))
    {
      hide MemRead, MemOf, RamLoad;
      ghost var ram := View().ram;
      var buf: seq<Byte> := [];
      PrependNil(Gather(ram, src, 0, n, false));
      for i := 0 to n
        invariant |buf| == i
        invariant Gather(ram, src, 0, n, false) == Prepend(buf, Gather(ram, src, i, n, false))
      {
        var b := Read(Off(src, i), 1);
        LoadIsRead(ram, Off(src, i), 1);
        if b.None? {
          return None;
        }
        PrependStep(buf, b.value % 256, Gather(ram, src, i + 1, n, false));
        buf := buf + [b.value % 256];
      }
      assert buf + [] == buf;
      return Some(buf);
    }

    method WriteAll(dst: U64, buf: seq<Byte>) returns (ok: bool)
      modifies this`page, this`regions, this`taint
      ensures var w := Scatter(old(View()).ram, dst, buf, 0);
              ok == w.Ok? && (ok ==> View() == old(View()).(ram := w.v))
    {
      hide RamWrite, MemOf;
      for i := 0 to |buf|
        invariant View() == old(View()).(ram := View().ram)
        invariant Scatter(old(View()).ram, dst, buf, 0) == Scatter(View().ram, dst, buf, i)
      {
        var wrote := Write(Off(dst, i), 1, buf[i]);
        if !wrote {
          return false;
        }
      }
      return true;
    }

    method SetLocation(dst: Location, v: U64) returns (ok: bool)
      modifies this`regs, this`flags, this`temps, this`xmmLo, this`xmmHi
      ensures var w := WriteLoc(dst, v, old(View()));
              ok == w.Ok? && (ok ==> View() == w.v)
    {
      match dst
      case Reg(r) =>
        if r < 8 { regs := regs[r := v]; }
        else if 16 <= r < 24 { xmmLo := xmmLo[r - 16 := v]; }
        else if 64 <= r < 72 { xmmHi := xmmHi[r - 64 := v]; }
        else { return false; }
        return true;
      case Flag(f) => flags := flags[f := v % 2]; return true;
      case Temp(t) => temps := temps[t := v]; return true;
      case _ => return false;
    }

    method StoreTo(addr: Expr, value: Expr, ty: Ty, cx: Ctx) returns (ok: bool)
      requires !cx.monitor
      modifies this`page, this`regions, this`taint
      ensures var w := ExecStore(addr, value, ty, old(View()), cx);
              ok == w.Ok? && (ok ==> View() == w.v)
    {
      hide Eval, RamWrite, MemOf;
      var a := Evaluate(addr, cx);
      if a.None? { return false; }
      var v := Evaluate(value, cx);
      if v.None? { return false; }
      var n := AccessBytes(ty);
      if n.Fail? { return false; }
      ok := Write(a.value, n.v, v.value);
    }

    /** `exec`: one statement outside control flow. */
    method Execute(st: Stmt, cx: Ctx) returns (ok: bool)
      requires !cx.monitor
      modifies this
      ensures var w := Exec(st, old(View()), cx);
              ok == w.Ok? && (ok ==> View() == w.v)
    {
      hide Eval, WriteLoc, MemOf;
      match st
      case Set(dst, e) =>
        var v := Evaluate(e, cx);
        if v.None? { return false; }
        ok := SetLocation(dst, v.value);
      case Store(addr, value, ty) => ok := StoreTo(addr, value, ty, cx);
      case Nop => ok := true;
      case _ => ok := false;
    }

    method RunClosure(f: IrFunction, cx: Ctx, depth: nat, budget: nat, ghost trace: seq<Event>)
      returns (r: Option<U64>, left: nat, ghost trace': seq<Event>)
      requires SourceCtx(cx)
      modifies this
      ensures Matches(r, left, trace', Closure.RunClosure(f, old(View()), cx, depth, Meter(budget, trace)), View())
      decreases budget, 1, 0
    {
      hide MemOf, SourceCtx;
      r, left, trace' := None, budget, trace;
      var entry := EntryId(f);
      if entry.None? {
        return;
      }
      var cur := entry.value;
      while true
        invariant r == None && left <= budget
        invariant Closure.RunClosure(f, old(View()), cx, depth, Meter(budget, trace))
                  == RunFrom(f, cur, View(), cx, depth, Meter(left, trace'))
        decreases left
      {
        if left == 0 {
          return;
        }
        left := left - 1;
        var blk := FindId(f.blocks, cur);
        if blk.None? {
          return;
        }
        trace' := trace' + [Ran(blk.value.id)];
        var leave, next;
        leave, next, r, left, trace' := RunBlock(blk.value.stmts, cx, depth, left, trace');
        if leave || next.None? {
          return;
        }
        cur := next.value;
      }
    }

    method RunBlock(stmts: seq<Stmt>, cx: Ctx, depth: nat, budget: nat, ghost trace: seq<Event>)
      returns (leave: bool, next: Option<nat>, r: Option<U64>, left: nat, ghost trace': seq<Event>)
      requires SourceCtx(cx)
      modifies this
      ensures MatchesFlow(leave, next, r, left, trace',
                          RunStmts(stmts, None, old(View()), cx, depth, Meter(budget, trace)), View())
      decreases budget, 6, 0
    {
      hide MemOf, SourceCtx;
      leave, next, r, left, trace' := false, None, None, budget, trace;
      assert stmts[0..] == stmts;
      for i := 0 to |stmts|
        invariant !leave && r == None && left <= budget
        invariant RunStmts(stmts, None, old(View()), cx, depth, Meter(budget, trace))
                  == RunStmts(stmts[i..], next, View(), cx, depth, Meter(left, trace'))
      {
        assert stmts[i..][0] == stmts[i] && stmts[i..][1..] == stmts[i + 1..];
        leave, next, r, left, trace' := RunStatement(stmts[i], next, cx, depth, left, trace');
        if leave {
          return;
        }
      }
    }

    method RunStatement(st: Stmt, next: Option<nat>, cx: Ctx, depth: nat, budget: nat, ghost trace: seq<Event>)
      returns (leave: bool, next': Option<nat>, r: Option<U64>, left: nat, ghost trace': seq<Event>)
      requires SourceCtx(cx)
      modifies this
      ensures MatchesFlow(leave, next', r, left, trace',
                          RunStmt(st, next, old(View()), cx, depth, Meter(budget, trace)), View())
      decreases budget, 5, 0
    {
      hide MemOf, Eval, Exec, WriteLoc, Closure.RunClosure, Closure.EvalOrCall;
      leave, next', r, left, trace' := false, next, None, budget, trace;
      match st
      case Branch(cond, taken, fallthrough) =>
        var c := Evaluate(cond, cx);
        if c.None? {
          leave := true;
        } else {
          next' := Some(if c.value != 0 then taken else fallthrough);
        }
      case Jump(to) => next' := Some(to);
      case Return(None) => leave := true;
      case Return(Some(e)) =>
        leave := true;
        if e.Call? && e.target.Direct? {
          var t := e.target.t;
          if depth == 0 && t in cx.funcs {
            r, left, trace' := RunClosure(cx.funcs[t], cx, 1, budget, trace + [Enter(t, 1)]);
          }
        } else if e.Call? && e.target.Indirect? {
          return;
        } else {
          r, left, trace' := EvalOrCall(e, cx, depth, budget, trace);
        }
      case CallStmt(e) =>
        var v;
        v, left, trace' := EvalOrCall(e, cx, depth, budget, trace);
        leave := v.None?;
      case Set(dst, e) =>
        if !e.Undef? {
          var v;
          v, left, trace' := EvalOrCall(e, cx, depth, budget, trace);
          if v.None? {
            leave := true;
          } else {
            var ok := SetLocation(dst, v.value);
            leave := !ok;
          }
        }
      case Switch(_) => leave := true;
      case Asm(_) => leave := true;
      case _ =>
        var ok := Execute(st, cx);
        leave := !ok;
    }

    method EvalOrCall(e: Expr, cx: Ctx, depth: nat, budget: nat, ghost trace: seq<Event>)
      returns (r: Option<U64>, left: nat, ghost trace': seq<Event>)
      requires SourceCtx(cx)
      modifies this
      ensures Matches(r, left, trace', Closure.EvalOrCall(e, old(View()), cx, depth, Meter(budget, trace)), View())
      decreases budget, 3, 0
    {
      hide MemOf, Eval, StringOps.DoMemcall, Closure.CallDirect;
      left, trace' := budget, trace;
      if e.Call? {
        match e.target
        case Direct(t) =>
          r, left, trace' := CallDirect(t, cx, depth, budget, trace);
          return;
        case Named(n) =>
          if IsMemcall(n, |e.args|) {
            var ok := DoMemcall(n, e.args, cx);
            r := if ok then Some(0) else None;
            return;
          } else if n in cx.stubs {
            var esp: int := regs[4];
            retSlots := retSlots + [Word.Wrap(esp - 4)];
            regs := regs[0 := 0][2 := 0];
            r := Some(0);
            return;
          }
        case Indirect(addr) =>
          var t := Evaluate(addr, cx);
          if t.None? {
            r := None;
            return;
          }
          r, left, trace' := CallDirect(t.value, cx, depth, budget, trace + [Indirectly(t.value)]);
          return;
      }
      r := Evaluate(e, cx);
    }

    method CallDirect(t: U64, cx: Ctx, depth: nat, budget: nat, ghost trace: seq<Event>)
      returns (r: Option<U64>, left: nat, ghost trace': seq<Event>)
      requires SourceCtx(cx)
      modifies this
      ensures Matches(r, left, trace', Closure.CallDirect(t, old(View()), cx, depth, Meter(budget, trace)), View())
      decreases budget, 2, 0
    {
      hide MemOf, StringOps.CallMemIntrinsic, PushReturn, Closure.RunClosure;
      left, trace' := budget, trace;
      if t in cx.intrinsics {
        r := CallMemIntrinsic(cx.intrinsics[t], cx);
        return;
      }
      if depth >= CLOSURE_DEPTH || t !in cx.funcs || t !in cx.retPops {
        r := None;
        return;
      }
      var esp: int := regs[4];
      var pushed := Push(cx);
      if !pushed {
        r := None;
        return;
      }
      regs := regs[4 := Word.Wrap(esp - 4)];
      r, left, trace' := RunClosure(cx.funcs[t], cx, depth + 1, budget, trace + [Enter(t, depth + 1)]);
      if r.Some? {
        regs := regs[4 := Word.Wrap(esp + cx.retPops[t])];
      }
    }

    // ---- the SSA interpreter ------------------------------------------------------------

    method RunSsa(f: IrFunction, cx: Ctx, budget: nat)
      returns (r: Option<U64>, left: nat, ghost trace: seq<Event>)
      requires !cx.monitor
      modifies this
      ensures Matches(r, left, trace, Ssa.RunSsa(f, old(View()), cx, Meter(budget, [])), View())
    {
      hide MemOf, SsaStmt, Eval, ReadLoc;
      r, left, trace := None, budget, [];
      var entry := EntryId(f);
      if entry.None? {
        return;
      }
      var cur := entry.value;
      prevBlock := None;
      while true
        invariant r == None && left <= budget
        invariant Ssa.RunSsa(f, old(View()), cx, Meter(budget, [])) == SsaFrom(f, cur, View(), cx, Meter(left, trace))
        decreases left
      {
        if left == 0 {
          return;
        }
        left := left - 1;
        var blk := FindId(f.blocks, cur);
        if blk.None? {
          return;
        }
        trace := trace + [Ran(blk.value.id)];
        ghost var before := View();
        var next: Option<nat> := None;
        var stmts, pred := blk.value.stmts, blk.value.pred;
        assert stmts[0..] == stmts;
        for i := 0 to |stmts|
          invariant r == None
          invariant SsaStmts(stmts, pred, None, before, cx, Meter(left, trace))
                    == SsaStmts(stmts[i..], pred, next, View(), cx, Meter(left, trace))
        {
          assert stmts[i..][0] == stmts[i] && stmts[i..][1..] == stmts[i + 1..];
          var leave;
          leave, next, r := SsaStatement(stmts[i], pred, next, cx, left, trace);
          if leave {
            return;
          }
        }
        if next.None? {
          return;
        }
        prevBlock := Some(cur);
        cur := next.value;
      }
    }

    method SsaStatement(st: Stmt, pred: seq<nat>, next: Option<nat>, cx: Ctx, ghost left: nat, ghost trace: seq<Event>)
      returns (leave: bool, next': Option<nat>, r: Option<U64>)
      requires !cx.monitor
      modifies this
      ensures MatchesFlow(leave, next', r, left, trace, SsaStmt(st, pred, next, old(View()), cx, Meter(left, trace)), View())
    {
      hide MemOf, Eval, StringOps.DoMemcall, ExecStore;
      leave, next', r := false, next, None;
      match st
      case Assign(dst, e) =>
        if e.Phi? {
          var a := PhiArg(e.vids, pred, prevBlock);
          if a.Some? && a.value in vids {
            vids := vids[dst := vids[a.value]];
          } else {
            leave := true;
          }
        } else if IsMemcallExpr(e) {
          var ok := DoMemcall(e.target.n, e.args, cx);
          if ok { vids := vids[dst := 0]; } else { leave := true; }
        } else {
          var v := Evaluate(e, cx);
          if v.Some? { vids := vids[dst := v.value]; } else { leave := true; }
        }
      case Store(a, v, ty) =>
        var ok := StoreTo(a, v, ty, cx);
        leave := !ok;
      case Branch(cond, taken, fallthrough) =>
        var c := Evaluate(cond, cx);
        if c.None? { leave := true; } else { next' := Some(if c.value != 0 then taken else fallthrough); }
      case Jump(to) => next' := Some(to);
      case Return(Some(e)) =>
        leave := true;
        r := Evaluate(e, cx);
      case Nop =>
      case CallStmt(e) =>
        if IsMemcallExpr(e) {
          var ok := DoMemcall(e.target.n, e.args, cx);
          leave := !ok;
        } else {
          leave := true;
        }
      case _ => leave := true;
    }
  }

  /** The answer, the remaining budget and, on success, the state. */
  ghost predicate Matches(r: Option<U64>, left: nat, trace: seq<Event>, o: Out, s: State) {
    && o.m == Meter(left, trace)
    && match o
       case Done(v, s', _) => r == Some(v) && s == s'
       case Skip(_, _) => r == None
  }

  ghost predicate MatchesFlow(leave: bool, next: Option<nat>, r: Option<U64>, left: nat, trace: seq<Event>,
                              f: Flow, s: State) {
    match f
    case Leave(o) => leave && Matches(r, left, trace, o, s)
    case Next(to, s', m) => !leave && r == None && next == to && s == s' && m == Meter(left, trace)
  }

  lemma {:induction false} PrependNil(rest: Res<seq<Byte>>)
    ensures Prepend([], rest) == rest
  {
    if rest.Ok? { assert [] + rest.v == rest.v; }
  }

  function Prepend(buf: seq<Byte>, rest: Res<seq<Byte>>): Res<seq<Byte>> {
    match rest case Ok(bs) => Ok(buf + bs) case Fail(why) => Fail(why)
  }

  lemma {:induction false} PrependStep(buf: seq<Byte>, b: Byte, rest: Res<seq<Byte>>)
    ensures Prepend(buf, Prepend([b], rest)) == Prepend(buf + [b], rest)
  {
    if rest.Ok? { assert buf + ([b] + rest.v) == (buf + [b]) + rest.v; }
  }

  /** A push stores like a write; only the monitor's record differs. */
  lemma {:induction false} PushIsWrite(r: Ram, a: U64, v: U64)
    ensures RamPush(r, a, v).Ok? <==> RamWrite(r, a, 4, v).Ok?
    ensures RamPush(r, a, v).Ok? ==> RamPush(r, a, v).v.mem == RamWrite(r, a, 4, v).v.mem
  {}

  lemma {:induction false} LoadIsRead(r: Ram, addr: U64, n: nat)
    requires n <= 8
    ensures RamLoad(r, addr, n, false) == FromOption(MemRead(r.mem, addr, n))
  {}

  lemma {:induction false} ScratchPlace(page: seq<Byte>, addr: U64, n: nat)
    ensures Locate(Interp.MemOf(page, []), addr, n) ==
            if DATA_ADDR <= addr && addr - DATA_ADDR + n <= |page| then Some(Place(0, addr - DATA_ADDR)) else None
  {}
}
