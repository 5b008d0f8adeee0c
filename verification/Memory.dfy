/** Mapped memory of the interpreter: `region_of`, `mem_read`, `mem_write`
    (src/cpudiff.rs:153-209), and a monitor recording which bytes were last
    written by a return-address push. */
module Memory {
  import opened Basics
  import opened Ir
  import Word

  const DATA_ADDR: U64 := 0x30_0000

  /** Why an evaluation or an access gives no value. The source answers `None`;
      `Leak` is raised by the monitor only. */
  datatype Trouble = Unmodelled | Leak

  datatype Res<+T> = Ok(v: T) | Fail(why: Trouble) {
    predicate IsFailure() { Fail? }
    function PropagateFailure<U>(): Res<U> requires Fail? { Fail(why) }
    function Extract(): T requires Ok? { v }
  }

  function FromOption<T>(o: Option<T>): Res<T> {
    match o case Some(x) => Ok(x) case None => Fail(Unmodelled)
  }

  datatype Region = Region(base: U64, data: seq<Byte>, writable: bool)

  /** In whole-function mode (`whole`) effective addresses wrap at 2^32; the
      single-instruction scratch page is one writable region without that wrap. */
  datatype Mem = Mem(regions: seq<Region>, whole: bool)

  /** One mapped byte: a region and an offset in it. */
  datatype Place = Place(buf: nat, off: nat)

  function Modulus(m: Mem): (k: int)
    ensures k > 0
  {
    if m.whole then 0x1_0000_0000 else 0x1_0000_0000_0000_0000
  }

  function Key(m: Mem, a: int): (k: U64)
    ensures 0 <= k < Modulus(m)
  {
    if m.whole then a % 0x1_0000_0000 else a % 0x1_0000_0000_0000_0000
  }

  predicate Fits(r: Region, a: int, n: nat) {
    r.base <= a && a - r.base + n <= |r.data|
  }

  /** The first region holding all of `[a, a+n)`. */
  function RegionOf(rs: seq<Region>, a: int, n: nat): (r: Option<nat>)
    ensures r.Some? ==> r.value < |rs| && Fits(rs[r.value], a, n)
    ensures r.Some? ==> forall j :: 0 <= j < r.value ==> !Fits(rs[j], a, n)
    ensures r.None? ==> forall j :: 0 <= j < |rs| ==> !Fits(rs[j], a, n)
  {
    if rs == [] then None
    else if Fits(rs[0], a, n) then Some(0)
    else
      var rest := RegionOf(rs[1..], a, n);
      match rest
      case None =>
        assert forall j :: 0 < j < |rs| ==> rs[j] == rs[1..][j - 1];
        None
      case Some(i) =>
        assert forall j :: 0 < j < |rs| ==> rs[j] == rs[1..][j - 1];
        Some(i + 1)
  }

  function Locate(m: Mem, addr: U64, n: nat): (p: Option<Place>)
    ensures p.Some? ==> p.value.buf < |m.regions| && p.value.off + n <= |m.regions[p.value.buf].data|
    ensures p.Some? ==> m.regions[p.value.buf].base + p.value.off == Key(m, addr)
  {
    match RegionOf(m.regions, Key(m, addr), n)
    case None => None
    case Some(i) => Some(Place(i, Key(m, addr) - m.regions[i].base))
  }

  predicate Mapped(m: Mem, p: Place) {
    p.buf < |m.regions| && p.off < |m.regions[p.buf].data|
  }

  function At(m: Mem, p: Place): Byte
    requires Mapped(m, p)
  {
    m.regions[p.buf].data[p.off]
  }

  // ---- little-endian bytes ----------------------------------------------

  function Pow256(n: nat): (r: int)
    ensures r > 0
  {
    if n == 0 then 1 else 256 * Pow256(n - 1)
  }

  function LeValue(bs: seq<Byte>): (v: int)
    ensures 0 <= v < Pow256(|bs|)
  {
    if bs == [] then 0 else bs[0] + 256 * LeValue(bs[1..])
  }

  function LeBytes(v: int, n: nat): (bs: seq<Byte>)
    requires v >= 0
    ensures |bs| == n
  {
    if n == 0 then [] else [v % 256] + LeBytes(v / 256, n - 1)
  }

  lemma {:induction false} Pow256Bound(n: nat)
    requires n <= 8
    ensures Pow256(n) <= TWO64
  {
    assert Pow256(4) == TWO32;
    assert Pow256(8) == TWO64;
    Pow256Mono(n, 8);
  }

  lemma {:induction false} Pow256Mono(n: nat, k: nat)
    requires n <= k
    ensures Pow256(n) <= Pow256(k)
    decreases k
  {
    if n < k { Pow256Mono(n, k - 1); }
  }

  /** Writing a value and reading it back truncates it to the written width. */
  lemma {:induction false} LeRoundTrip(v: int, n: nat)
    requires v >= 0
    ensures LeValue(LeBytes(v, n)) == v % Pow256(n)
  {
    if n > 0 {
      LeRoundTrip(v / 256, n - 1);
      assert LeBytes(v, n)[1..] == LeBytes(v / 256, n - 1);
      ModSplit(v, Pow256(n - 1));
    }
  }

  lemma {:induction false} ModSplit(v: int, p: int)
    requires v >= 0 && p > 0
    ensures v % (256 * p) == v % 256 + 256 * ((v / 256) % p)
  {
    var a, b := v / 256, v % 256;
    var q, r := a / p, a % p;
    assert v == 256 * a + b && a == q * p + r;
    assert v == q * (256 * p) + (256 * r + b) by {
      assert 256 * (q * p) == q * (256 * p);
    }
    Word.DivisionUnique(v, 256 * p, q, 256 * r + b);
  }

  // ---- reads and writes --------------------------------------------------

  function MemRead(m: Mem, addr: U64, n: nat): Option<U64>
    requires n <= 8
  {
    match Locate(m, addr, n)
    case None => None
    case Some(p) =>
      Pow256Bound(n);
      Some(LeValue(m.regions[p.buf].data[p.off..p.off + n]))
  }

  function PutBytes(m: Mem, p: Place, bs: seq<Byte>): (m': Mem)
    requires p.buf < |m.regions| && p.off + |bs| <= |m.regions[p.buf].data|
    ensures SameShape(m, m')
  {
    var r := m.regions[p.buf];
    m.(regions := m.regions[p.buf := r.(data := r.data[..p.off] + bs + r.data[p.off + |bs|..])])
  }

  function MemWrite(m: Mem, addr: U64, n: nat, v: U64): (r: Option<Mem>)
    ensures r.Some? ==> SameShape(m, r.value)
  {
    match Locate(m, addr, n)
    case None => None
    case Some(p) =>
      if m.regions[p.buf].writable then Some(PutBytes(m, p, LeBytes(v, n))) else None
  }

  /** Same mapping, possibly different bytes. */
  ghost predicate SameShape(m: Mem, m': Mem) {
    && m.whole == m'.whole
    && |m.regions| == |m'.regions|
    && forall i :: 0 <= i < |m.regions| ==>
         && m.regions[i].base == m'.regions[i].base
         && |m.regions[i].data| == |m'.regions[i].data|
         && m.regions[i].writable == m'.regions[i].writable
  }

  lemma {:induction false} LocateSameShape(m: Mem, m': Mem, addr: U64, n: nat)
    requires SameShape(m, m')
    ensures Locate(m, addr, n) == Locate(m', addr, n)
  {
    var a := Key(m, addr);
    assert forall i :: 0 <= i < |m.regions| ==> Fits(m.regions[i], a, n) == Fits(m'.regions[i], a, n);
    var r, r' := RegionOf(m.regions, a, n), RegionOf(m'.regions, a, n);
    if r.Some? && r'.Some? {
      assert r.value == r'.value;
    }
  }

  lemma {:induction false} PutBytesAt(m: Mem, p: Place, bs: seq<Byte>, q: Place)
    requires p.buf < |m.regions| && p.off + |bs| <= |m.regions[p.buf].data|
    requires Mapped(m, q)
    ensures At(PutBytes(m, p, bs), q) ==
            if q.buf == p.buf && p.off <= q.off < p.off + |bs| then bs[q.off - p.off] else At(m, q)
  {}

  lemma {:induction false} MemExtensional(m: Mem, m': Mem)
    requires SameShape(m, m')
    requires forall q :: Mapped(m, q) ==> At(m, q) == At(m', q)
    ensures m == m'
  {
    forall i | 0 <= i < |m.regions|
      ensures m.regions[i] == m'.regions[i]
    {
      forall k | 0 <= k < |m.regions[i].data|
        ensures m.regions[i].data[k] == m'.regions[i].data[k]
      {
        assert Mapped(m, Place(i, k));
        assert At(m, Place(i, k)) == At(m', Place(i, k));
      }
      assert m.regions[i].data == m'.regions[i].data;
    }
    assert m.regions == m'.regions;
  }

  /** Read-after-write: reading the written span gives the value truncated to
      its width, and the access stays mapped. */
  lemma {:induction false} ReadAfterWrite(m: Mem, addr: U64, n: nat, v: U64)
    requires n <= 8 && MemWrite(m, addr, n, v).Some?
    ensures MemRead(MemWrite(m, addr, n, v).value, addr, n) == Some(v % Pow256(n))
  {
    var m' := MemWrite(m, addr, n, v).value;
    LocateSameShape(m, m', addr, n);
    var p := Locate(m, addr, n).value;
    assert m'.regions[p.buf].data[p.off..p.off + n] == LeBytes(v, n);
    LeRoundTrip(v, n);
  }

  /** Framing: a write leaves every read of an address range that does not meet
      the written one as it was. */
  lemma {:induction false} WriteFrame(m: Mem, addr: U64, n: nat, v: U64, other: U64, k: nat)
    requires k <= 8 && MemWrite(m, addr, n, v).Some?
    requires Key(m, addr) + n <= Key(m, other) || Key(m, other) + k <= Key(m, addr)
    ensures MemRead(MemWrite(m, addr, n, v).value, other, k) == MemRead(m, other, k)
  {
    hide LeBytes, LeValue;
    var m' := MemWrite(m, addr, n, v).value;
    LocateSameShape(m, m', other, k);
    var p, q := Locate(m, addr, n).value, Locate(m, other, k);
    if q.Some? {
      var q := q.value;
      var before, after := m.regions[q.buf].data, m'.regions[q.buf].data;
      forall i | q.off <= i < q.off + k
        ensures before[i] == after[i]
      {
        PutBytesAt(m, p, LeBytes(v, n), Place(q.buf, i));
      }
      assert before[q.off..q.off + k] == after[q.off..q.off + k];
    }
  }

  // ---- single bytes by address -------------------------------------------

  predicate Readable(m: Mem, a: U64) { Locate(m, a, 1).Some? }

  predicate Writable(m: Mem, a: U64) {
    Locate(m, a, 1).Some? && m.regions[Locate(m, a, 1).value.buf].writable
  }

  function Peek(m: Mem, a: U64): Byte
    requires Readable(m, a)
  {
    At(m, Locate(m, a, 1).value)
  }

  lemma {:induction false} MemReadByte(m: Mem, a: U64)
    ensures MemRead(m, a, 1) == if Readable(m, a) then Some(Peek(m, a)) else None
  {
    if Readable(m, a) {
      var p := Locate(m, a, 1).value;
      var bs := m.regions[p.buf].data[p.off..p.off + 1];
      assert bs == [At(m, p)];
      assert bs[1..] == [];
      assert LeValue(bs) == bs[0];
    }
  }

  /** A one-byte store: where it succeeds, and the byte at every place after it. */
  lemma {:induction false} MemWriteByte(m: Mem, a: U64, b: Byte)
    ensures MemWrite(m, a, 1, b).Some? <==> Writable(m, a)
    ensures Writable(m, a) ==>
              var m' := MemWrite(m, a, 1, b).value;
              SameShape(m, m') &&
              forall q :: Mapped(m, q) ==> At(m', q) == if q == Locate(m, a, 1).value then b else At(m, q)
  {
    if Writable(m, a) {
      var p := Locate(m, a, 1).value;
      assert LeBytes(b, 1) == [b] by { assert LeBytes(b / 256, 0) == []; }
      forall q | Mapped(m, q)
        ensures At(MemWrite(m, a, 1, b).value, q) == if q == p then b else At(m, q)
      {
        PutBytesAt(m, p, [b], q);
      }
    }
  }

  /** The place of a byte determines its address. */
  lemma {:induction false} LocateInjective(m: Mem, a: U64, b: U64)
    requires Readable(m, a) && Readable(m, b)
    ensures Locate(m, a, 1) == Locate(m, b, 1) <==> Key(m, a) == Key(m, b)
  {}

  // ---- the monitored store -------------------------------------------------

  /** Memory together with the bytes last written by a return-address push. */
  datatype Ram = Ram(mem: Mem, taint: set<Place>)

  function Shift(p: Place, i: nat): Place { Place(p.buf, p.off + i) }

  predicate InSpan(p: Place, n: nat, q: Place) { q.buf == p.buf && p.off <= q.off < p.off + n }

  function Span(p: Place, n: nat): (s: set<Place>)
    ensures forall q :: q in s <==> InSpan(p, n, q)
  {
    var s := set i | 0 <= i < n :: Shift(p, i);
    assert forall q :: InSpan(p, n, q) ==> q == Shift(p, q.off - p.off);
    s
  }

  predicate Touches(st: Ram, p: Place, n: nat) {
    exists q :: q in st.taint && InSpan(p, n, q)
  }

  /** A load; under the monitor, one covering a pushed byte stops the run. */
  function RamLoad(st: Ram, addr: U64, n: nat, monitor: bool): Res<U64>
    requires n <= 8
  {
    match Locate(st.mem, addr, n)
    case None => Fail(Unmodelled)
    case Some(p) =>
      if monitor && Touches(st, p, n) then Fail(Leak) else FromOption(MemRead(st.mem, addr, n))
  }

  function RamWrite(st: Ram, addr: U64, n: nat, v: U64): Res<Ram> {
    match MemWrite(st.mem, addr, n, v)
    case None => Fail(Unmodelled)
    case Some(m') => Ok(Ram(m', st.taint - Span(Locate(st.mem, addr, n).value, n)))
  }

  /** Push of a 4-byte return address. */
  function RamPush(st: Ram, addr: U64, ra: U64): Res<Ram> {
    match MemWrite(st.mem, addr, 4, ra)
    case None => Fail(Unmodelled)
    case Some(m') => Ok(Ram(m', st.taint + Span(Locate(st.mem, addr, 4).value, 4)))
  }
}
