/** What evaluating and executing mean (`eval`, `write_loc`, `exec`,
    src/cpudiff.rs:300-433), as laws between operations: arms of a select, low bits of
    a cast, reads after writes, the operators on values, the helpers' arguments. */
module EvalLaws {
  import opened Basics
  import opened Ir
  import opened Memory
  import opened Machine
  import opened Word
  import opened WordLaws

  predicate Gives(e: Expr, s: State, cx: Ctx, v: U64) { Eval(e, s, cx) == Ok(v) }

  // ---- choosing and casting ---------------------------------------------------------------

  /** A select is its first arm on a non-zero condition and its second on zero; the other
      arm is not evaluated. */
  lemma {:induction false} SelectArms(c: Expr, t: Expr, u: Expr, s: State, cx: Ctx, v: U64)
    requires Gives(c, s, cx, v)
    ensures v != 0 ==> Eval(Select(c, t, u), s, cx) == Eval(t, s, cx)
    ensures v == 0 ==> Eval(Select(c, t, u), s, cx) == Eval(u, s, cx)
  {}

  /** A cast to an integer type keeps the low bits and clears the others. */
  lemma {:induction false} CastBits(bits: nat, sign: Option<bool>, e: Expr, s: State, cx: Ctx, v: U64, i: nat)
    requires Gives(e, s, cx, v) && i < 64
    ensures Eval(Cast(Int(bits, sign), e), s, cx).Ok?
    ensures Bit(Eval(Cast(Int(bits, sign), e), s, cx).v, i) <==> i < bits && Bit(v, i)
  {
    if bits < 64 {
      Pow2Mono(bits, 63);
      Pow2At63();
      hide Pow2;
      var low := v % Pow2(bits);
      WrapSmall(low);
      LowBits(v, bits, i);
    }
  }

  lemma {:induction false} LowBits(v: nat, w: nat, i: nat)
    ensures Bit(v % Pow2(w), i) <==> i < w && Bit(v, i)
    decreases i
  {
    if w == 0 {
      assert Pow2(0) == 1;
      DivisionUnique(0, Pow2(i), 0, 0);
    } else {
      HalfPower(w);
      var r := v % Pow2(w);
      HalfRemainder(v, Pow2(w - 1));
      assert r % 2 == v % 2 && r / 2 == (v / 2) % Pow2(w - 1);
      if i == 0 {
        assert Pow2(0) == 1;
      } else {
        hide Pow2, Bit;
        LowBits(v / 2, w - 1, i - 1);
        BitTail(v, i);
        BitTail(r, i);
      }
    }
  }

  /** A cast to a boolean is the lowest bit. */
  lemma {:induction false} CastBool(e: Expr, s: State, cx: Ctx, v: U64)
    requires Gives(e, s, cx, v)
    ensures Eval(Cast(Bool, e), s, cx) == Eval(Cast(Int(1, None), e), s, cx)
  {
    assert Pow2(1) == 2;
  }

  // ---- operators on values -----------------------------------------------------------------

  /** Negation is subtraction from zero; complement is subtraction from all ones, so
      negation is complement plus one. */
  lemma {:induction false} UnaryMeanings(e: Expr, s: State, cx: Ctx, v: U64)
    requires Gives(e, s, cx, v)
    ensures Eval(Unary(Neg, e), s, cx) == FromOption(Bin(Sub, 0, v))
    ensures Eval(Unary(Not, e), s, cx) == FromOption(Bin(Sub, TWO64 - 1, v))
    ensures Eval(Unary(Neg, e), s, cx) == Eval(Binary(Add, Unary(Not, e), Const(1, Unknown)), s, cx)
  {
    NegArithmetic(v);
    hide Wrap, Bin;
    assert Eval(Unary(Not, e), s, cx) == Ok(TWO64 - 1 - v);
    assert Eval(Unary(Neg, e), s, cx) == Ok(Wrap(0 - v));
    hide Eval;
    Increment(Unary(Not, e), s, cx, TWO64 - 1 - v);
  }

  lemma {:induction false} NegArithmetic(v: U64)
    ensures Bin(Sub, 0, v) == Some(Wrap(0 - v)) && Bin(Sub, TWO64 - 1, v) == Some(TWO64 - 1 - v)
    ensures Wrap((TWO64 - 1 - v) + 1) == Wrap(0 - v)
  {
    hide Combine, Pow2;
  }

  lemma {:induction false} Increment(e: Expr, s: State, cx: Ctx, v: U64)
    requires Gives(e, s, cx, v)
    ensures Eval(Binary(Add, e, Const(1, Unknown)), s, cx) == Ok(Wrap(v + 1))
  {
    hide Combine;
    assert Eval(Const(1, Unknown), s, cx) == Ok(1);
  }

  /** Operands keep their sides: subtracting and adding back on the same side. */
  lemma {:induction false} SidesKept(a: Expr, b: Expr, s: State, cx: Ctx, x: U64, y: U64)
    requires Gives(a, s, cx, x) && Gives(b, s, cx, y)
    ensures Eval(Binary(Add, Binary(Sub, a, b), b), s, cx) == Ok(x)
    ensures Gives(Binary(Ult, a, b), s, cx, 1) <==> x < y
    ensures Gives(Binary(Slt, a, b), s, cx, 1) <==> Signed(x) < Signed(y)
  {
    var d := Bin(Sub, x, y).value;
    SubUndoesAdd(x, y, d);
    assert Eval(Binary(Sub, a, b), s, cx) == Ok(d);
  }

  /** The low w bits of a word. */
  function Low(v: U64, w: nat): U64 {
    QuotientShrinks(v, Pow2(w));
    v % Pow2(w)
  }

  /** The operand masked to its low w bits, as the lifter writes it. */
  function Masked(e: Expr, w: nat): Expr { Binary(And, e, Const(Pow2(w) - 1, Unknown)) }

  lemma {:induction false} SmallPowers()
    ensures Pow2(8) == 0x100 && Pow2(16) == 0x1_0000 && Pow2(32) == 0x1_0000_0000
  {
    assert Pow2(8) == 0x100;
    Pow2Add(8, 8);
    Pow2Add(16, 16);
  }

  lemma {:induction false} MaskedValue(e: Expr, w: nat, s: State, cx: Ctx, v: U64)
    requires w in {8, 16, 32} && Gives(e, s, cx, v)
    ensures SignedWidth(Masked(e, w)) == w
    ensures Gives(Masked(e, w), s, cx, Low(v, w))
  {
    SmallPowers();
    hide Pow2, Eval, Wrap, Combine, Bitwise, Low;
    MaskIsLow(v, w);
    AndValue(e, Pow2(w) - 1, s, cx, v);
  }

  lemma {:induction false} MaskIsLow(v: U64, w: nat)
    requires w <= 64 && Pow2(w) <= TWO64
    ensures Bitwise(And, v, Pow2(w) - 1) == Low(v, w)
  {
    LowMask(v, w, 64);
    hide Combine, Pow2;
  }

  lemma {:induction false} AndValue(e: Expr, c: U64, s: State, cx: Ctx, v: U64)
    requires Gives(e, s, cx, v)
    ensures Gives(Binary(And, e, Const(c, Unknown)), s, cx, Bitwise(And, v, c))
  {
    hide Bitwise;
    assert Eval(Const(c, Unknown), s, cx) == Ok(c);
  }

  /** The signed w-bit reading. */
  function SignedLow(v: U64, w: nat): int
    requires w > 0
  {
    var low := Low(v, w);
    if low < Pow2(w - 1) then low else low - Pow2(w)
  }

  /** The masked value sign-extended from its width. */
  function LowSext(v: U64, w: nat): U64
    requires w > 0
  {
    Sext(Low(v, w), w)
  }

  lemma {:induction false} SextIsSignedLow(v: U64, w: nat)
    requires w in {8, 16, 32}
    ensures Signed(LowSext(v, w)) == SignedLow(v, w)
  {
    SmallPowers();
    HalfPower(w);
    hide Pow2, Wrap, Signed;
    LowSign(Low(v, w), Pow2(w), Pow2(w - 1));
  }

  lemma {:induction false} LowSign(low: nat, p: nat, h: nat)
    requires h > 0 && p == 2 * h && low < p <= TWO32
    ensures low % p == low && ((low / h) % 2 == 1 <==> low >= h)
    ensures Signed(Wrap(low - p)) == low - p && Signed(Wrap(low)) == low
  {
    hide Pow2;
    SignedMeaning(Wrap(low - p), low - p);
    SignedMeaning(Wrap(low), low);
    hide Wrap, Signed;
    DivisionUnique(low, p, 0, low);
    if low >= h { DivisionUnique(low, h, 1, low - h); } else { DivisionUnique(low, h, 0, low); }
  }

  /** Division of operands masked to a width divides their signed readings at that
      width, truncating; it is undefined exactly for a zero divisor at that width. */
  lemma {:induction false} MaskedDivision(a: Expr, b: Expr, w: nat, s: State, cx: Ctx, x: U64, y: U64)
    requires w in {8, 16, 32} && Gives(a, s, cx, x) && Gives(b, s, cx, y)
    ensures var q, r := Eval(Binary(SDiv, Masked(a, w), Masked(b, w)), s, cx), Eval(Binary(SMod, Masked(a, w), Masked(b, w)), s, cx);
            var n, d := SignedLow(x, w), SignedLow(y, w);
            && (q.Ok? <==> d != 0) && (r.Ok? <==> d != 0)
            && (d != 0 ==>
                  && n == Signed(q.v) * d + Signed(r.v)
                  && Abs(Signed(r.v)) < Abs(d) && (Signed(r.v) == 0 || (Signed(r.v) < 0) == (n < 0)))
  {
    MaskedValue(a, w, s, cx, x);
    MaskedValue(b, w, s, cx, y);
    SextIsSignedLow(x, w);
    SextIsSignedLow(y, w);
    SmallReading(x, w);
    SmallReading(y, w);
    hide Eval, Pow2, Low, LowSext, SignedLow, SignedWidth, Masked, Signed;
    var u, v := LowSext(x, w), LowSext(y, w);
    SignedQuotient(u, v);
    SignedMeaning(u, SignedLow(x, w));
    SignedMeaning(v, SignedLow(y, w));
    hide Bin;
    BinaryValue(SDiv, a, b, w, s, cx, x, y);
    BinaryValue(SMod, a, b, w, s, cx, x, y);
  }

  lemma {:induction false} SmallReading(v: U64, w: nat)
    requires w in {8, 16, 32}
    ensures -TWO32 <= SignedLow(v, w) < TWO32
  {
    SmallPowers();
    hide Pow2;
  }

  lemma {:induction false} BinaryValue(op: BinOp, a: Expr, b: Expr, w: nat, s: State, cx: Ctx, x: U64, y: U64)
    requires (op == SDiv || op == SMod) && w in {8, 16, 32} && Gives(a, s, cx, x) && Gives(b, s, cx, y)
    ensures Eval(Binary(op, Masked(a, w), Masked(b, w)), s, cx) == FromOption(Bin(op, LowSext(x, w), LowSext(y, w)))
  {
    MaskedValue(a, w, s, cx, x);
    MaskedValue(b, w, s, cx, y);
    hide Bin, Pow2, Sext, SignedWidth, Masked, Low, Eval;
    SignedOperands(op, Masked(a, w), Masked(b, w), s, cx, Low(x, w), Low(y, w));
  }

  lemma {:induction false} SignedOperands(op: BinOp, a: Expr, b: Expr, s: State, cx: Ctx, x: U64, y: U64)
    requires (op == SDiv || op == SMod) && Gives(a, s, cx, x) && Gives(b, s, cx, y)
    ensures Eval(Binary(op, a, b), s, cx) == FromOption(Bin(op, Sext(x, SignedWidth(a)), Sext(y, SignedWidth(b))))
  {
    hide Bin, Sext, SignedWidth;
  }

  /** The arithmetic shift of a masked operand floors its signed reading. */
  lemma {:induction false} MaskedShift(a: Expr, b: Expr, w: nat, s: State, cx: Ctx, x: U64, y: U64)
    requires w in {8, 16, 32} && Gives(a, s, cx, x) && Gives(b, s, cx, y)
    ensures var r, p := Eval(Binary(Sar, Masked(a, w), b), s, cx), Pow2(if y >= 64 then 63 else y);
            r.Ok? && Signed(r.v) * p <= SignedLow(x, w) < Signed(r.v) * p + p
  {
    MaskedValue(a, w, s, cx, x);
    SextIsSignedLow(x, w);
    hide Pow2, Sext, SignedLow, SignedWidth, Masked, Signed, Low, Eval, Bin;
    SarFloors(LowSext(x, w), y);
    ShiftOperand(Masked(a, w), b, s, cx, Low(x, w), y);
  }

  lemma {:induction false} ShiftOperand(a: Expr, b: Expr, s: State, cx: Ctx, x: U64, y: U64)
    requires Gives(a, s, cx, x) && Gives(b, s, cx, y)
    ensures Eval(Binary(Sar, a, b), s, cx) == FromOption(Bin(Sar, Sext(x, SignedWidth(a)), y))
  {
    hide Bin, Sext, SignedWidth;
  }

  // ---- locations -----------------------------------------------------------------------------

  /** A location holds what was last written to it, a flag its lowest bit, and every
      other location is as before. */
  lemma {:induction false} ReadAfterSet(dst: Location, e: Expr, s: State, cx: Ctx, v: U64, other: Location)
    requires Gives(e, s, cx, v) && Exec(Set(dst, e), s, cx).Ok?
    ensures var s' := Exec(Set(dst, e), s, cx).v;
            && Eval(Read(dst), s', cx) == Ok(if dst.Flag? then v % 2 else v)
            && (other != dst ==> Eval(Read(other), s', cx) == Eval(Read(other), s, cx))
            && s'.ram == s.ram && s'.retSlots == s.retSlots && s'.vids == s.vids
  {}

  /** The locations that can be written are those that can be read: the eight general
      registers, the xmm lanes, flags and temporaries. */
  lemma {:induction false} WritableLocations(dst: Location, e: Expr, s: State, cx: Ctx, v: U64)
    requires Gives(e, s, cx, v)
    ensures Exec(Set(dst, e), s, cx).Ok? <==>
            || dst.Flag? || dst.Temp?
            || (dst.Reg? && (dst.id < 8 || 16 <= dst.id < 24 || 64 <= dst.id < 72))
    ensures Eval(Read(dst), s, cx).Ok? <==> Exec(Set(dst, e), s, cx).Ok?
  {}

  /** What was never written reads as 0; a constant is itself modulo 2^64. */
  lemma {:induction false} UnsetReads(f: FlagKind, t: nat, c: int, s: State, cx: Ctx)
    ensures f !in s.flags ==> Gives(Read(Flag(f)), s, cx, 0)
    ensures t !in s.temps ==> Gives(Read(Temp(t)), s, cx, 0)
    ensures Eval(Const(c, Unknown), s, cx).Ok? && (Eval(Const(c, Unknown), s, cx).v - c) % TWO64 == 0
  {}

  // ---- memory ----------------------------------------------------------------------------------

  /** A load of the address and type of a store gives the stored value, truncated to the
      type's bytes; registers and slots are untouched. */
  lemma {:induction false} LoadAfterStore(a: Expr, e: Expr, ty: Ty, s: State, cx: Ctx, x: U64, v: U64)
    requires Gives(a, s, cx, x) && Gives(e, s, cx, v) && !cx.monitor && Exec(Store(a, e, ty), s, cx).Ok?
    ensures TyBytes(ty).Some? && TyBytes(ty).value <= 8
    ensures var s' := Exec(Store(a, e, ty), s, cx).v;
            && s' == s.(ram := s'.ram)
            && Eval(Load(Const(x, Unknown), ty), s', cx) == Ok(v % Pow256(TyBytes(ty).value))
  {
    hide MemWrite, MemRead, Locate, Eval, Pow256;
    var n, s' := TyBytes(ty).value, Exec(Store(a, e, ty), s, cx).v;
    ReadAfterWrite(s.ram.mem, x, n, v);
    LoadIs(x, ty, s', cx);
  }

  lemma {:induction false} LoadIs(x: U64, ty: Ty, s: State, cx: Ctx)
    requires !cx.monitor && TyBytes(ty).Some? && TyBytes(ty).value <= 8
    ensures Eval(Load(Const(x, Unknown), ty), s, cx) == FromOption(MemRead(s.ram.mem, x, TyBytes(ty).value))
  {
    hide MemRead, Locate;
    Located(s.ram.mem, x, TyBytes(ty).value);
    assert Eval(Const(x, Unknown), s, cx) == Ok(x);
  }

  lemma {:induction false} Located(m: Mem, a: U64, n: nat)
    requires n <= 8
    ensures MemRead(m, a, n).Some? <==> Locate(m, a, n).Some?
  {}

  /** The bytes of a type: a boolean one, an integer its bits rounded up. */
  lemma {:induction false} TypeBytes(bits: nat, sign: Option<bool>)
    ensures TyBytes(Bool) == Some(1)
    ensures TyBytes(Int(bits, sign)).Some?
    ensures 8 * (TyBytes(Int(bits, sign)).value - 1) < bits || TyBytes(Int(bits, sign)).value == 0
    ensures bits <= 8 * TyBytes(Int(bits, sign)).value
  {}

  // ---- helpers -----------------------------------------------------------------------------------

  function Help(n: Name, args: seq<Expr>): Expr { Call(Named(n), args) }

  /** The division helpers divide their first argument by their second. */
  lemma {:induction false} DivisionArguments(a: Expr, b: Expr, s: State, cx: Ctx, n: U64, d: U64)
    requires Gives(a, s, cx, n) && Gives(b, s, cx, d)
    requires IxUdiv32 !in cx.stubs && IxUmod32 !in cx.stubs
    ensures var q, r := Eval(Help(IxUdiv32, [a, b]), s, cx), Eval(Help(IxUmod32, [a, b]), s, cx);
            && (q.Ok? <==> r.Ok?)
            && (q.Ok? <==> d % TWO32 != 0 && n < TWO32 * (d % TWO32))
            && (q.Ok? ==> n == q.v * (d % TWO32) + r.v && r.v < d % TWO32)
  {
    ArgumentsInOrder([a, b], [n, d], s, cx);
    hide EvalArgs;
    UnsignedDivision(n, d);
    if d % TWO32 != 0 { QuotientBelow(n, d % TWO32, TWO32); }
  }

  /** And so do the signed ones, quotient and remainder each under its own name. */
  lemma {:induction false} SignedDivisionArguments(a: Expr, b: Expr, s: State, cx: Ctx, n: U64, d: U64)
    requires Gives(a, s, cx, n) && Gives(b, s, cx, d)
    requires IxIdiv32 !in cx.stubs && IxImod32 !in cx.stubs
    ensures var q, r := Eval(Help(IxIdiv32, [a, b]), s, cx), Eval(Help(IxImod32, [a, b]), s, cx);
            && (q.Ok? <==> r.Ok?)
            && (q.Ok? ==> Signed(n) == Signed(q.v) * Signed32(d) + Signed(r.v) && Abs(Signed(r.v)) < Abs(Signed32(d)))
  {
    ArgumentsInOrder([a, b], [n, d], s, cx);
    hide EvalArgs;
    SignedDivision(n, d);
  }

  /** Arguments are evaluated in order. */
  lemma {:induction false} ArgumentsInOrder(args: seq<Expr>, vs: seq<U64>, s: State, cx: Ctx)
    requires |vs| == |args| && forall i :: 0 <= i < |args| ==> Eval(args[i], s, cx) == Ok(vs[i])
    ensures EvalArgs(args, s, cx) == Ok(vs)
    decreases |args|
  {
    hide Eval;
    if args == [] {
      assert vs == [];
    } else {
      assert forall i :: 0 <= i < |args| - 1 ==> args[1..][i] == args[i + 1] && vs[1..][i] == vs[i + 1];
      ArgumentsInOrder(args[1..], vs[1..], s, cx);
      assert vs == [vs[0]] + vs[1..];
    }
  }

  /** The number of set bits among the lowest n. */
  function Ones(b: int, n: nat): nat {
    if n == 0 then 0 else Ones(b, n - 1) + if Bit(b, n - 1) then 1 else 0
  }

  /** The parity helper: 1 exactly when the low byte has an even number of set bits. */
  lemma {:induction false} ParityCounts(a: Expr, s: State, cx: Ctx, v: U64)
    requires Gives(a, s, cx, v) && IxPf !in cx.stubs
    ensures Eval(Help(IxPf, [a]), s, cx) == Ok(if Ones(v % 256, 8) % 2 == 0 then 1 else 0)
  {
    ArgumentsInOrder([a], [v], s, cx);
    hide EvalArgs;
    assert Pow2(8) == 256;
    EvenOnes(v % 256, 8);
    hide EvenParity, Ones;
  }

  lemma {:induction false} EvenOnes(b: nat, n: nat)
    requires b < Pow2(n)
    ensures EvenParity(b) <==> Ones(b, n) % 2 == 0
    decreases n
  {
    if n == 0 {
      assert Pow2(0) == 1;
      assert b == 0;
    } else {
      HalfPower(n);
      OnesTail(b, n);
      ParityTail(b);
      ParitySum(b % 2, Ones(b / 2, n - 1));
      Halve(b, Pow2(n - 1));
      hide Pow2, Ones, EvenParity;
      EvenOnes(b / 2, n - 1);
    }
  }

  lemma {:induction false} Halve(b: nat, p: nat)
    requires b < 2 * p
    ensures 0 <= b / 2 < p && 0 <= b % 2 <= 1
  {}

  lemma {:induction false} ParitySum(x: nat, y: nat)
    requires x <= 1
    ensures (x + y) % 2 == 0 <==> (x == 0) == (y % 2 == 0)
  {}

  lemma {:induction false} ParityTail(b: nat)
    ensures EvenParity(b) <==> (b % 2 == 0) == EvenParity(b / 2)
  {}

  lemma {:induction false} OnesTail(b: nat, n: nat)
    requires n > 0
    ensures Ones(b, n) == b % 2 + Ones(b / 2, n - 1)
    decreases n
  {
    if n == 1 {
      assert Pow2(0) == 1;
    } else {
      hide Bit, Pow2;
      OnesTail(b, n - 1);
      BitTail(b, n - 1);
    }
  }

  /** A stubbed import evaluates to 0 whatever its arguments. */
  lemma {:induction false} StubValue(n: Name, args: seq<Expr>, s: State, cx: Ctx)
    requires n in cx.stubs
    ensures Eval(Help(n, args), s, cx) == Ok(0)
  {}
}
