/** 64-bit machine arithmetic: `bin`, `sext`, `signed_width` and the 32-bit
    division helpers of src/cpudiff.rs. */
module Word {
  import opened Basics
  import opened Ir

  function Pow2(n: nat): (r: int)
    ensures r > 0
  {
    if n == 0 then 1 else 2 * Pow2(n - 1)
  }

  function Wrap(x: int): U64 { x % 0x1_0000_0000_0000_0000 }

  /** Two's-complement reading of a 64-bit word (`as i64`). */
  function Signed(x: U64): int { if x < 0x8000_0000_0000_0000 then x else x - 0x1_0000_0000_0000_0000 }

  /** `as u32 as i32 as i64`. */
  function Signed32(x: U64): int {
    var low := x % 0x1_0000_0000;
    if low < 0x8000_0000 then low else low - TWO32
  }

  function Abs(x: int): nat { if x < 0 then -x else x }

  /** Division truncated toward zero, as Rust's `/` on signed integers. */
  function TruncDiv(n: int, d: int): int
    requires d != 0
  {
    var q := Abs(n) / Abs(d);
    if (n < 0) == (d < 0) then q else -q
  }

  function TruncRem(n: int, d: int): int
    requires d != 0
  {
    var r := Abs(n) % Abs(d);
    if n < 0 then -r else r
  }

  function OfBool(b: bool): U64 { if b then 1 else 0 }

  /** One bit of a bitwise operator. */
  function BitOp(op: BinOp, p: bool, q: bool): bool {
    match op
    case And => p && q
    case Or => p || q
    case _ => p != q
  }

  /** The lowest `n` bits, combined bit by bit. */
  function Combine(op: BinOp, a: nat, b: nat, n: nat): (r: nat)
    ensures r < Pow2(n)
    decreases n
  {
    if n == 0 then 0
    else (if BitOp(op, a % 2 == 1, b % 2 == 1) then 1 else 0) + 2 * Combine(op, a / 2, b / 2, n - 1)
  }

  function Bitwise(op: BinOp, a: U64, b: U64): U64 {
    Pow2At64();
    Combine(op, a, b, 64)
  }

  lemma {:induction false} Pow2At64()
    ensures Pow2(64) == 0x1_0000_0000_0000_0000
  {
    Pow2At63();
  }

  function Bin(op: BinOp, a: U64, b: U64): Option<U64> {
    match op
    case Add => Some(Wrap(a + b))
    case Sub => Some(Wrap(a - b))
    case Mul => Some(Wrap(a * b))
    case UDiv => if b == 0 then None else Some(Wrap(a / b))
    case UMod => if b == 0 then None else Some(Wrap(a % b))
    case SDiv => if b == 0 then None else Some(Wrap(TruncDiv(Signed(a), Signed(b))))
    case SMod => if b == 0 then None else Some(Wrap(TruncRem(Signed(a), Signed(b))))
    case And => Some(Bitwise(And, a, b))
    case Or => Some(Bitwise(Or, a, b))
    case Xor => Some(Bitwise(Xor, a, b))
    case Shl => Some(if b >= 64 then 0 else Wrap(a * Pow2(b)))
    case Shr => Some(if b >= 64 then 0 else Wrap(a / Pow2(b)))
    case Sar => Some(Wrap(Signed(a) / Pow2(if b >= 64 then 63 else b)))
    case Eq => Some(OfBool(a == b))
    case Ne => Some(OfBool(a != b))
    case Ult => Some(OfBool(a < b))
    case Ule => Some(OfBool(a <= b))
    case Ugt => Some(OfBool(a > b))
    case Uge => Some(OfBool(a >= b))
    case Slt => Some(OfBool(Signed(a) < Signed(b)))
    case Sle => Some(OfBool(Signed(a) <= Signed(b)))
    case Sgt => Some(OfBool(Signed(a) > Signed(b)))
    case Sge => Some(OfBool(Signed(a) >= Signed(b)))
  }

  /** The operand width the interpreter infers from an `And(x, mask)` wrapper. */
  function SignedWidth(e: Expr): nat {
    if e.Binary? && e.op.And? && e.b.Const? then
      if e.b.v == 0xff then 8
      else if e.b.v == 0xffff then 16
      else if e.b.v == 0xffff_ffff then 32
      else 64
    else 64
  }

  /** Sign-extend the low `w` bits to 64 (the identity from 64 on). */
  function Sext(v: U64, w: nat): U64
    requires w > 0
  {
    if w >= 64 then v
    else
      var low := v % Pow2(w);
      if (v / Pow2(w - 1)) % 2 == 1 then Wrap(low - Pow2(w)) else Wrap(low)
  }

  // ---- the 32-bit division helpers -------------------------------------

  function UDivHelper(n: U64, divisor: U64): Option<U64> {
    var d := divisor % 0x1_0000_0000;
    if d == 0 then None
    else
      var q: int := n / d;
      if q > 0xffff_ffff then None else Some(Wrap(q))
  }

  function UModHelper(n: U64, divisor: U64): Option<U64> {
    var d := divisor % 0x1_0000_0000;
    if d == 0 || n / d > 0xffff_ffff then None else Some(Wrap(n % d))
  }

  /** `__ix_idiv32` when `quotient`, `__ix_imod32` otherwise: one shared body. */
  function IDivHelper(dividend: U64, divisor: U64, quotient: bool): Option<U64> {
    var d := Signed32(divisor);
    if d == 0 || (d == -1 && dividend == TWO63) then None
    else
      var n := Signed(dividend);
      var q := TruncDiv(n, d);
      if q > 0x7fff_ffff || q < -0x8000_0000 then None
      else Some(Wrap(if quotient then q else TruncRem(n, d)))
  }

  lemma {:induction false} TruncDivRem(n: int, d: int)
    requires d != 0
    ensures n == TruncDiv(n, d) * d + TruncRem(n, d)
    ensures Abs(TruncRem(n, d)) < Abs(d)
    ensures TruncRem(n, d) == 0 || (TruncRem(n, d) < 0) == (n < 0)
  {
    var q, r := Abs(n) / Abs(d), Abs(n) % Abs(d);
    assert Abs(n) == q * Abs(d) + r;
    assert TruncDiv(n, d) * d == if n < 0 then -(q * Abs(d)) else q * Abs(d) by {
      if d < 0 {
        assert q * d == -(q * Abs(d));
        assert (-q) * d == q * Abs(d);
      } else {
        assert (-q) * d == -(q * Abs(d));
      }
    }
  }

  /** Division with remainder is unique: the hardware's defining equations
      leave no choice of quotient. */
  lemma {:induction false} DivisionUnique(n: nat, d: nat, q: int, r: int)
    requires d > 0 && n == q * d + r && 0 <= r < d
    ensures q == n / d && r == n % d
  {
    var q', r' := n / d, n % d;
    assert n == q' * d + r';
    assert (q - q') * d == r' - r by { assert (q - q') * d == q * d - q' * d; }
    if q > q' {
      assert (q - q') * d >= d by { MulAtLeast(q - q', d); }
    } else if q < q' {
      assert (q - q') * d == -((q' - q) * d);
      MulAtLeast(q' - q, d);
    }
  }

  lemma {:induction false} MulAtLeast(k: int, d: nat)
    requires k >= 1
    ensures k * d >= d
  {
    assert k * d == (k - 1) * d + d;
    assert (k - 1) * d >= 0;
  }

  /** DIV: the quotient and the remainder helper fault on the same inputs, and
      otherwise satisfy (and are determined by) the division equation. */
  lemma {:induction false} UnsignedDivision(n: U64, divisor: U64)
    ensures UDivHelper(n, divisor).Some? <==> UModHelper(n, divisor).Some?
    ensures UDivHelper(n, divisor).Some? <==>
            divisor % TWO32 != 0 && n < TWO32 * (divisor % TWO32)
    ensures UDivHelper(n, divisor).Some? ==>
              var d, q, r := divisor % TWO32, UDivHelper(n, divisor).value, UModHelper(n, divisor).value;
              n == q * d + r && r < d && q < TWO32
  {
    hide Wrap;
    var d := divisor % 0x1_0000_0000;
    if d != 0 {
      QuotientBelow(n, d, 0x1_0000_0000);
      WrapSmall(n % d);
      if n / d <= 0xffff_ffff { WrapSmall(n / d); }
    }
  }

  lemma {:induction false} WrapSmall(x: int)
    requires 0 <= x < TWO64
    ensures Wrap(x) == x
  {}

  lemma {:induction false} QuotientBelow(n: nat, d: nat, k: nat)
    requires d > 0
    ensures n / d < k <==> n < k * d
    ensures n == (n / d) * d + n % d && 0 <= n % d < d
  {
    var q, r := n / d, n % d;
    assert n == q * d + r;
    if q < k { MulMono(q + 1, k, d); assert (q + 1) * d == q * d + d; }
    else { MulMono(k, q, d); }
  }

  lemma {:induction false} MulMono(a: int, b: int, d: nat)
    requires a <= b
    ensures a * d <= b * d
  {
    assert b * d == a * d + (b - a) * d;
    assert (b - a) * d >= 0;
  }

  /** IDIV: both helpers are defined exactly when the divisor is non-zero and the
      truncated quotient fits 32 bits (the separate INT64_MIN / -1 guard is
      subsumed), and then, read as two's complement, they are quotient and
      remainder with the remainder zero or of the dividend's sign. */
  lemma {:induction false} SignedDivision(n64: U64, divisor: U64)
    ensures IDivHelper(n64, divisor, true).Some? <==> IDivHelper(n64, divisor, false).Some?
    ensures IDivHelper(n64, divisor, true).Some? <==>
            var n, d := Signed(n64), Signed32(divisor);
            d != 0 && -0x8000_0000 <= TruncDiv(n, d) <= 0x7fff_ffff
    ensures IDivHelper(n64, divisor, true).Some? ==>
              var n, d := Signed(n64), Signed32(divisor);
              var q := Signed(IDivHelper(n64, divisor, true).value);
              var r := Signed(IDivHelper(n64, divisor, false).value);
              n == q * d + r && Abs(r) < Abs(d) && (r == 0 || (r < 0) == (n < 0))
              && -0x8000_0000 <= q <= 0x7fff_ffff
  {
    var n, d := Signed(n64), Signed32(divisor);
    if d != 0 {
      TruncDivRem(n, d);
      SignedWrap(TruncRem(n, d));
      if -0x8000_0000 <= TruncDiv(n, d) <= 0x7fff_ffff {
        SignedWrap(TruncDiv(n, d));
      }
    }
  }

  lemma {:induction false} SignedWrap(x: int)
    requires -TWO63 <= x < TWO63
    ensures Signed(Wrap(x)) == x
  {
    if x < 0 { assert (x + TWO64) % TWO64 == x % TWO64; }
  }

  /** `sext` keeps the low `w` bits and reads them as a signed `w`-bit number. */
  lemma {:induction false} SextMeaning(v: U64, w: nat)
    requires 0 < w <= 64
    ensures Signed(Sext(v, w)) % Pow2(w) == v % Pow2(w)
    ensures -Pow2(w - 1) <= Signed(Sext(v, w)) < Pow2(w - 1)
  {
    Pow2At63();
    if w < 64 {
      Pow2Mono(w, 63);
      Pow2Mono(w - 1, 63);
      SextParts(v, Pow2(w), Pow2(w - 1));
    } else {
      SextParts(v, TWO64, TWO63);
    }
  }

  lemma {:induction false} SextParts(v: U64, p: int, h: int)
    requires 0 < h <= TWO63 && p == 2 * h
    ensures var low := v % p;
            var r := if (v / h) % 2 == 1 then low - p else low;
            Signed(Wrap(r)) == r && r % p == low && -h <= r < h
  {
    TopBit(v, p, h);
    ResidueSigned(v % p, p, h);
  }

  lemma {:induction false} ResidueSigned(low: int, p: int, h: int)
    requires 0 < h <= TWO63 && p == 2 * h && 0 <= low < p
    ensures var r := if low >= h then low - p else low;
            Signed(Wrap(r)) == r && r % p == low && -h <= r < h
  {
    if low >= h {
      ModMinus(low, p);
      SignedWrap(low - p);
    } else {
      DivisionUnique(low, p, 0, low);
      SignedWrap(low);
    }
  }

  /** Bit `w - 1` of `v`, with `h = 2^(w-1)` and `p = 2^w`. */
  lemma {:induction false} TopBit(v: nat, p: nat, h: nat)
    requires h > 0 && p == 2 * h
    ensures 0 <= v % p < p
    ensures (v / h) % 2 == 1 <==> v % p >= h
  {
    var k, low := v / p, v % p;
    assert v == k * p + low;
    assert k * p == (k * 2) * h by { MulTwo(k, h); }
    if low < h {
      DivisionUnique(v, h, k * 2, low);
    } else {
      assert v == (k * 2 + 1) * h + (low - h);
      DivisionUnique(v, h, k * 2 + 1, low - h);
    }
  }

  lemma {:induction false} MulTwo(a: int, h: int)
    ensures a * (2 * h) == (a * 2) * h
  {}

  lemma {:induction false} ModMinus(x: nat, p: nat)
    requires 0 <= x < p
    ensures (x - p) % p == x
  {
    assert x - p == (-1) * p + x;
  }

  lemma {:induction false} Pow2Mono(a: nat, b: nat)
    requires a <= b
    ensures Pow2(a) <= Pow2(b)
    decreases b
  {
    if a < b { Pow2Mono(a, b - 1); }
  }

  lemma {:induction false} Pow2At63()
    ensures Pow2(63) == TWO63 && Pow2(64) == TWO64
  {
    assert Pow2(8) == 256;
    assert Pow2(16) == 0x1_0000;
    assert Pow2(24) == 0x100_0000;
    assert Pow2(32) == TWO32;
    assert Pow2(40) == 0x100_0000_0000;
    assert Pow2(48) == 0x1_0000_0000_0000;
    assert Pow2(56) == 0x100_0000_0000_0000;
    assert Pow2(63) == TWO63;
  }

}
