/** What the operators of `bin` (src/cpudiff.rs:779-828) mean, said without their
    definitions: carries and borrows, orders, bits, floor division. */
module WordLaws {
  import opened Basics
  import opened Ir
  import opened Word

  // ---- sums -----------------------------------------------------------------------------

  /** Addition with carry: the carry out is what comparing the result with an operand
      tells. */
  lemma {:induction false} AddCarry(a: U64, b: U64)
    ensures Bin(Add, a, b).Some?
    ensures var r := Bin(Add, a, b).value; a + b == r + (if r < a then TWO64 else 0)
  {}

  /** Subtraction is the one inverse of addition. */
  lemma {:induction false} SubUndoesAdd(a: U64, b: U64, x: U64)
    ensures Bin(Sub, a, b) == Some(x) <==> Bin(Add, x, b) == Some(a)
  {}

  /** Multiplication by counting up: nothing, then one more summand each time. */
  lemma {:induction false} MulCounts(a: U64, b: U64)
    requires b < TWO64 - 1
    ensures Bin(Mul, a, 0) == Some(0)
    ensures Bin(Mul, a, b).Some? && Bin(Mul, a, b + 1) == Bin(Add, Bin(Mul, a, b).value, a)
  {
    var x: int := a * b;
    assert a * (b + 1) == x + a;
    WrapAdd(x, a);
  }

  lemma {:induction false} WrapAdd(x: int, y: int)
    ensures Wrap(Wrap(x) + y) == Wrap(x + y)
  {}

  // ---- quotients ------------------------------------------------------------------------

  lemma {:induction false} UnsignedQuotient(a: U64, b: U64)
    ensures Bin(UDiv, a, b).Some? <==> b != 0
    ensures Bin(UMod, a, b).Some? <==> b != 0
    ensures b != 0 ==>
              var q, r := Bin(UDiv, a, b).value, Bin(UMod, a, b).value; a == q * b + r && r < b
  {
    if b != 0 {
      QuotientShrinks(a, b);
      WrapSmall(a / b);
      WrapSmall(a % b);
      Recombine(a, b);
    }
  }

  /** The word read as a signed number is the one number in the signed range that wraps
      to it. */
  lemma {:induction false} SignedMeaning(x: U64, n: int)
    ensures Signed(x) == n <==> Wrap(n) == x && -TWO63 <= n < TWO63
  {}

  /** Signed division truncates, and only the smallest number divided by -1 wraps. */
  lemma {:induction false} SignedQuotient(a: U64, b: U64)
    ensures Bin(SDiv, a, b).Some? <==> b != 0
    ensures Bin(SMod, a, b).Some? <==> b != 0
    ensures b != 0 && !(a == TWO63 && b == TWO64 - 1) ==>
              var n, d, q, r := Signed(a), Signed(b), Signed(Bin(SDiv, a, b).value), Signed(Bin(SMod, a, b).value);
              n == q * d + r && Abs(r) < Abs(d) && (r == 0 || (r < 0) == (n < 0))
    ensures a == TWO63 && b == TWO64 - 1 ==> Bin(SDiv, a, b) == Some(a) && Bin(SMod, a, b) == Some(0)
  {
    if b != 0 {
      var n, d := Signed(a), Signed(b);
      TruncDivRem(n, d);
      QuotientSize(n, d);
      if !(n == -TWO63 && d == -1) {
        SignedWrapped(TruncDiv(n, d));
        SignedWrapped(TruncRem(n, d));
      }
    }
  }

  lemma {:induction false} SignedWrapped(n: int)
    requires -TWO63 <= n < TWO63
    ensures Signed(Wrap(n)) == n
  {}

  lemma {:induction false} QuotientSize(n: int, d: int)
    requires -TWO63 <= n < TWO63 && d != 0
    ensures Abs(TruncDiv(n, d)) <= Abs(n) && Abs(TruncRem(n, d)) <= Abs(n)
    ensures n == -TWO63 && d != -1 ==> TruncDiv(n, d) < TWO63
    ensures d == -1 ==> TruncDiv(n, d) == -n && TruncRem(n, d) == 0
  {
    var p, m := Abs(n), Abs(d);
    QuotientShrinks(p, m);
  }

  lemma {:induction false} Recombine(p: nat, m: nat)
    requires m > 0
    ensures p == (p / m) * m + p % m
  {}

  lemma {:induction false} QuotientShrinks(p: nat, m: nat)
    requires m > 0
    ensures p / m <= p && p % m <= p
    ensures m >= 2 && p > 0 ==> p / m < p
    ensures m == 1 ==> p / m == p && p % m == 0
  {
    var q := p / m;
    assert p == q * m + p % m;
    if m >= 2 { MulMono(2, m, q); }
    if m >= 1 { MulMono(1, m, q); }
  }

  // ---- orders ----------------------------------------------------------------------------

  predicate Holds(op: BinOp, a: U64, b: U64) { Bin(op, a, b) == Some(1) }

  /** Every comparison answers 0 or 1; exactly one of less, equal and greater holds; the
      other comparisons follow; unsigned less is the sign of the exact difference. */
  lemma {:induction false} UnsignedOrder(a: U64, b: U64)
    ensures forall op :: op in {Eq, Ne, Ult, Ule, Ugt, Uge} ==> Holds(op, a, b) || Bin(op, a, b) == Some(0)
    ensures Holds(Ult, a, b) <==> a - b < 0
    ensures Holds(Eq, a, b) <==> Bin(Sub, a, b) == Some(0)
    ensures Holds(Ult, a, b) <==> !Holds(Eq, a, b) && !Holds(Ult, b, a)
    ensures Holds(Ne, a, b) <==> !Holds(Eq, a, b)
    ensures Holds(Ugt, a, b) <==> Holds(Ult, b, a)
    ensures Holds(Ule, a, b) <==> !Holds(Ult, b, a)
    ensures Holds(Uge, a, b) <==> !Holds(Ult, a, b)
  {}

  lemma {:induction false} SignedOrder(a: U64, b: U64)
    ensures forall op :: op in {Slt, Sle, Sgt, Sge} ==> Holds(op, a, b) || Bin(op, a, b) == Some(0)
    ensures Holds(Slt, a, b) <==> Signed(a) - Signed(b) < 0
    ensures Holds(Slt, a, b) <==> !Holds(Eq, a, b) && !Holds(Slt, b, a)
    ensures Holds(Sgt, a, b) <==> Holds(Slt, b, a)
    ensures Holds(Sle, a, b) <==> !Holds(Slt, b, a)
    ensures Holds(Sge, a, b) <==> !Holds(Slt, a, b)
    ensures (a < TWO63) == (b < TWO63) ==> (Holds(Slt, a, b) <==> Holds(Ult, a, b))
  {}

  // ---- bits -------------------------------------------------------------------------------

  predicate Bit(x: int, i: nat) { (x / Pow2(i)) % 2 == 1 }

  lemma {:induction false} Pow2Add(i: nat, j: nat)
    ensures Pow2(i + j) == Pow2(i) * Pow2(j)
    decreases i
  {
    if i > 0 {
      Pow2Add(i - 1, j);
      HalfPower(i);
      HalfPower(i + j);
      hide Pow2;
      assert (2 * Pow2(i - 1)) * Pow2(j) == 2 * (Pow2(i - 1) * Pow2(j));
    }
  }

  /** x / (p * q) in two steps. */
  lemma {:induction false} DivTwice(x: nat, p: nat, q: nat)
    requires p > 0 && q > 0
    ensures p * q > 0 && x / (p * q) == (x / p) / q
  {
    MulMono(1, p, q);
    var y, r := x / p, x % p;
    var z, s := y / q, y % q;
    assert x == p * y + r && y == q * z + s;
    assert p * y == p * (q * z) + p * s;
    assert p * (q * z) == (p * q) * z;
    assert p * s + r < p * q by { MulMono(s + 1, q, p); assert (s + 1) * p == p * s + p; }
    assert p * s >= 0 by { MulMono(0, s, p); }
    DivisionUnique(x, p * q, z, p * s + r);
  }

  lemma {:induction false} BitShift(x: nat, i: nat, b: nat)
    ensures Bit(x / Pow2(b), i) == Bit(x, b + i)
  {
    Pow2Add(b, i);
    DivTwice(x, Pow2(b), Pow2(i));
  }

  lemma {:induction false} HighBitsZero(x: U64, i: nat)
    requires i >= 64
    ensures !Bit(x, i)
  {
    Pow2At64();
    Pow2Mono(64, i);
    DivisionUnique(x, Pow2(i), 0, x);
  }

  /** And, Or and Xor act on each bit by itself. */
  lemma {:induction false} BitwiseBits(a: U64, b: U64, i: nat)
    requires i < 64
    ensures Bin(And, a, b).Some? && (Bit(Bin(And, a, b).value, i) <==> Bit(a, i) && Bit(b, i))
    ensures Bin(Or, a, b).Some? && (Bit(Bin(Or, a, b).value, i) <==> Bit(a, i) || Bit(b, i))
    ensures Bin(Xor, a, b).Some? && (Bit(Bin(Xor, a, b).value, i) <==> Bit(a, i) != Bit(b, i))
  {
    hide Combine, Pow2, Bit;
    CombineBits(And, a, b, 64, i);
    CombineBits(Or, a, b, 64, i);
    CombineBits(Xor, a, b, 64, i);
  }

  lemma {:induction false} CombineBits(op: BinOp, a: nat, b: nat, n: nat, i: nat)
    requires i < n
    ensures Bit(Combine(op, a, b, n), i) == BitOp(op, Bit(a, i), Bit(b, i))
    decreases n
  {
    var r := Combine(op, a, b, n);
    var rest := Combine(op, a / 2, b / 2, n - 1);
    var low := if BitOp(op, a % 2 == 1, b % 2 == 1) then 1 else 0;
    assert r == low + 2 * rest && r / 2 == rest && r % 2 == low;
    if i == 0 {
      assert Pow2(0) == 1;
    } else {
      CombineBits(op, a / 2, b / 2, n - 1, i - 1);
      BitTail(a, i);
      BitTail(b, i);
      BitTail(r, i);
    }
  }

  lemma {:induction false} BitTail(x: nat, i: nat)
    requires i > 0
    ensures Bit(x, i) == Bit(x / 2, i - 1)
  {
    assert Pow2(1) == 2;
    BitShift(x, i - 1, 1);
  }

  /** A mask of low bits is a remainder. */
  lemma {:induction false} LowMask(v: nat, w: nat, n: nat)
    requires w <= n
    ensures Combine(And, v, Pow2(w) - 1, n) == v % Pow2(w)
    decreases n
  {
    if w == 0 {
      AndZero(v, n);
      assert Pow2(0) == 1;
    } else {
      var p := Pow2(w - 1);
      assert Pow2(w) == 2 * p;
      LowMask(v / 2, w - 1, n - 1);
      CombineOdd(v, p - 1, n);
      hide Combine, Pow2;
      HalfRemainder(v, p);
    }
  }

  /** And with an odd number. */
  lemma {:induction false} CombineOdd(v: nat, m: nat, n: nat)
    requires n > 0
    ensures Combine(And, v, 2 * m + 1, n) == v % 2 + 2 * Combine(And, v / 2, m, n - 1)
  {
    assert (2 * m + 1) % 2 == 1 && (2 * m + 1) / 2 == m;
  }

  lemma {:induction false} HalfRemainder(v: nat, p: nat)
    requires p > 0
    ensures v % (2 * p) == v % 2 + 2 * ((v / 2) % p)
  {
    var q, r := (v / 2) / p, (v / 2) % p;
    assert v / 2 == q * p + r;
    assert q * (2 * p) == 2 * (q * p);
    DivisionUnique(v, 2 * p, q, 2 * r + v % 2);
  }

  lemma {:induction false} AndZero(v: nat, n: nat)
    ensures Combine(And, v, 0, n) == 0
    decreases n
  {
    if n > 0 { AndZero(v / 2, n - 1); }
  }

  /** Shifting left by b moves bit i - b to i and brings in zeros. */
  lemma {:induction false} ShlBits(a: U64, b: U64, i: nat)
    requires i < 64
    ensures Bin(Shl, a, b).Some?
    ensures Bit(Bin(Shl, a, b).value, i) <==> b <= i && Bit(a, i - b)
  {
    if b >= 64 {
      DivisionUnique(0, Pow2(i), 0, 0);
    } else {
      ProductBits(a, b, i);
      hide Bit, Pow2;
      WrapBits(a * Pow2(b), i);
    }
  }

  /** Wrapping keeps the low 64 bits. */
  lemma {:induction false} WrapBits(x: nat, i: nat)
    requires i < 64
    ensures Bit(Wrap(x), i) == Bit(x, i)
  {
    Pow2At64();
    Pow2Add(i, 64 - i);
    HalfPower(64 - i);
    var p, h := Pow2(i), Pow2(63 - i);
    Recombine(x, TWO64);
    assert TWO64 == p * (2 * h);
    var w := Wrap(x);
    assert w == x % TWO64;
    hide Pow2, Wrap, Bit;
    Dropped(x, w, x / TWO64, p, h);
    BitAt(x, i);
    BitAt(w, i);
  }

  lemma {:induction false} BitAt(x: int, i: nat)
    ensures Bit(x, i) == ((x / Pow2(i)) % 2 == 1)
  {}

  lemma {:induction false} Dropped(x: nat, r: nat, k: nat, p: nat, h: nat)
    requires p > 0 && x == k * (p * (2 * h)) + r
    ensures (x / p) % 2 == (r / p) % 2
  {
    Peel(x, r, k, p, 2 * h);
    var a, b := k * h, r / p;
    assert k * (2 * h) == 2 * a;
    SameParity(a, b);
  }

  lemma {:induction false} SameParity(a: int, b: int)
    ensures (2 * a + b) % 2 == b % 2
  {}

  lemma {:induction false} HalfPower(n: nat)
    requires n > 0
    ensures Pow2(n) == 2 * Pow2(n - 1)
  {}

  /** The bits of a * 2^b before wrapping. */
  lemma {:induction false} ProductBits(a: nat, b: nat, i: nat)
    ensures a * Pow2(b) >= 0 && (Bit(a * Pow2(b), i) <==> b <= i && Bit(a, i - b))
  {
    var x := a * Pow2(b);
    MulMono(0, a, Pow2(b));
    BitAt(x, i);
    if b <= i {
      BitAt(a, i - b);
      Pow2Add(i - b, b);
      hide Pow2, Bit;
      Cancel(a, Pow2(i - b), Pow2(b));
    } else {
      Pow2Add(b - i, i);
      HalfPower(b - i);
      hide Pow2, Bit;
      EvenQuotient(a, Pow2(b - i - 1), Pow2(i), x);
    }
  }

  lemma {:induction false} EvenQuotient(a: nat, d: nat, p: nat, x: nat)
    requires p > 0 && x == a * ((2 * d) * p)
    ensures (x / p) % 2 == 0
  {
    var c := a * (2 * d);
    assert c >= 0 by { MulMono(0, a, 2 * d); }
    assert x == c * p;
    DivisionUnique(x, p, c, 0);
    Even(a, d);
  }

  lemma {:induction false} Even(a: nat, p: nat)
    ensures (a * (2 * p)) % 2 == 0
  {
    assert a * (2 * p) == 2 * (a * p);
  }

  /** Dropping k * (p * h) from x changes x / p by k * h. */
  lemma {:induction false} Peel(x: nat, r: nat, k: nat, p: nat, h: nat)
    requires p > 0 && x == k * (p * h) + r
    ensures x / p == k * h + r / p
  {
    var q, s := r / p, r % p;
    assert r == q * p + s;
    assert k * (p * h) == (k * h) * p;
    assert x == (k * h + q) * p + s;
    DivisionUnique(x, p, k * h + q, s);
  }

  lemma {:induction false} Cancel(a: nat, p: nat, q: nat)
    requires p > 0 && q > 0
    ensures p * q > 0 && (a * q) / (p * q) == a / p
  {
    MulMono(1, p, q);
    var z, r := a / p, a % p;
    assert a == z * p + r;
    assert a * q == z * (p * q) + r * q;
    assert r * q < p * q by { MulMono(r + 1, p, q); assert (r + 1) * q == r * q + q; }
    assert r * q >= 0 by { MulMono(0, r, q); }
    assert a * q >= 0 by { MulMono(0, a, q); }
    DivisionUnique(a * q, p * q, z, r * q);
  }

  /** Shifting right by b moves bit i + b to i and brings in zeros. */
  lemma {:induction false} ShrBits(a: U64, b: U64, i: nat)
    requires i < 64
    ensures Bin(Shr, a, b).Some?
    ensures Bit(Bin(Shr, a, b).value, i) <==> i + b < 64 && Bit(a, i + b)
  {
    if b >= 64 {
      DivisionUnique(0, Pow2(i), 0, 0);
    } else {
      QuotientShrinks(a, Pow2(b));
      WrapSmall(a / Pow2(b));
      BitShift(a, i, b);
      if i + b >= 64 { HighBitsZero(a, i + b); }
    }
  }

  /** The arithmetic shift is floor division of the signed reading. */
  lemma {:induction false} SarFloors(a: U64, b: U64)
    ensures Bin(Sar, a, b).Some?
    ensures var q, p := Signed(Bin(Sar, a, b).value), Pow2(if b >= 64 then 63 else b);
            q * p <= Signed(a) < q * p + p
  {
    hide Pow2;
    var n, p := Signed(a), Pow2(if b >= 64 then 63 else b);
    FloorSize(n, p);
    SignedWrapped(n / p);
  }

  lemma {:induction false} FloorSize(n: int, p: nat)
    requires p > 0 && -TWO63 <= n < TWO63
    ensures -TWO63 <= n / p < TWO63
    ensures (n / p) * p <= n < (n / p) * p + p
  {
    var q := n / p;
    assert n == q * p + n % p;
    if q >= 0 { MulMono(1, p, q); } else { MulMono(1, p, -q); assert (-q) * p == -(q * p); }
  }
}
