/** zlib's Adler-32 with its deferred modulus, and the combination of two checksums
    (dep/zlib/adler32.c). */
module Adler32 {
  import opened Powers

  /** A 32-bit unsigned word: every sum below is shown to stay in its range. */
  newtype u32 = x: int | 0 <= x < 0x1_0000_0000
  newtype u8 = x: int | 0 <= x < 256

  const BASE: int := 65521
  const NMAX: int := 5552

  // ---------- The definition ----------

  /** The two sums, reduced after every byte (section 2.2 of RFC 1950). */
  datatype Sums = Sums(a: nat, b: nat)

  function Reduced(s: Sums, buf: seq<u8>): (r: Sums)
    ensures s.a < BASE && s.b < BASE ==> r.a < BASE && r.b < BASE
  {
    if buf == [] then s
    else
      var p := Reduced(s, buf[..|buf| - 1]);
      var a := (p.a + buf[|buf| - 1] as int) % BASE;
      Sums(a, (p.b + a) % BASE)
  }

  /** The sums without any reduction. */
  function Plain(s: Sums, buf: seq<u8>): Sums {
    if buf == [] then s
    else
      var p := Plain(s, buf[..|buf| - 1]);
      var a := p.a + buf[|buf| - 1] as int;
      Sums(a, p.b + a)
  }

  /** Sums whose halves agree modulo BASE. */
  ghost predicate Alike(s: Sums, t: Sums) {
    s.a % BASE == t.a % BASE && s.b % BASE == t.b % BASE
  }

  lemma AddAlike(x: int, y: int, z: int)
    requires x % BASE == y % BASE
    ensures (x + z) % BASE == (y + z) % BASE == ((x + z) % BASE) % BASE
  {
    var q, r := x / BASE, y / BASE;
    assert x + z == (y + z) + BASE * (q - r);
  }

  /** Reducing late is as good as reducing every time. */
  lemma {:induction false} PlainAlike(s: Sums, t: Sums, buf: seq<u8>)
    requires Alike(s, t)
    ensures Alike(Plain(s, buf), Reduced(t, buf))
  {
    if buf != [] {
      var n := |buf| - 1;
      PlainAlike(s, t, buf[..n]);
      var p, q := Plain(s, buf[..n]), Reduced(t, buf[..n]);
      AddAlike(p.a, q.a, buf[n] as int);
      AddAlike(p.b, q.b, p.a + buf[n] as int);
      AddAlike(p.a + buf[n] as int, (q.a + buf[n] as int) % BASE, q.b);
    }
  }

  lemma {:induction false} PlainConcat(s: Sums, x: seq<u8>, y: seq<u8>)
    ensures Plain(s, x + y) == Plain(Plain(s, x), y)
    decreases |y|
  {
    if y == [] {
      assert x + y == x;
    } else {
      PlainConcat(s, x, y[..|y| - 1]);
      assert (x + y)[..|x + y| - 1] == x + y[..|y| - 1];
    }
  }

  // ---------- How large the sums can grow ----------

  function Triangle(n: nat): nat {
    if n == 0 then 0 else Triangle(n - 1) + n
  }

  lemma {:induction false} TriangleIs(n: nat)
    ensures 2 * Triangle(n) == n * (n + 1)
  {
    if n > 0 {
      TriangleIs(n - 1);
    }
  }

  /** The most the second sum can reach in n bytes, both halves at most m before. */
  function Worst(m: nat, n: nat): nat {
    255 * Triangle(n) + (n + 1) * m
  }

  lemma WorstNext(m: nat, n: nat)
    ensures Worst(m, n + 1) == Worst(m, n) + m + 255 * (n + 1)
  {
    Distribute(n + 1, 1, m);
  }

  lemma {:induction false} PlainBound(s: Sums, buf: seq<u8>, m: nat)
    requires s.a <= m && s.b <= m
    ensures Plain(s, buf).a <= m + 255 * |buf| && Plain(s, buf).b <= Worst(m, |buf|)
    ensures s.b <= Plain(s, buf).b && s.a <= Plain(s, buf).a
  {
    hide Worst;
    if buf == [] {
      WorstStart(m);
    } else {
      PlainBound(s, buf[..|buf| - 1], m);
      WorstNext(m, |buf| - 1);
    }
  }

  lemma WorstStart(m: nat)
    ensures Worst(m, 0) == m
  {
  }

  /** The bound is reached, by bytes of 255. */
  lemma {:induction false} WorstReached(m: nat, n: nat)
    ensures Plain(Sums(m, m), seq(n, i => 255 as u8)).b == Worst(m, n)
    ensures Plain(Sums(m, m), seq(n, i => 255 as u8)).a == m + 255 * n
  {
    var s := seq(n, i => 255 as u8);
    if n > 0 {
      WorstReached(m, n - 1);
      assert s[..n - 1] == seq(n - 1, i => 255 as u8);
    }
  }

  lemma {:induction false} WorstMonotone(m: nat, i: nat, j: nat)
    requires i <= j
    ensures Worst(m, i) <= Worst(m, j)
  {
    if i < j {
      WorstMonotone(m, i, j - 1);
    }
  }

  /** NMAX is the largest number of bytes for which the sums stay in 32 bits; a start at 65535,
      which no reduced sum has, leaves room as well. */
  lemma NmaxIsLargest(n: nat)
    ensures n <= NMAX <==> Worst(BASE - 1, n) < 0x1_0000_0000
    ensures n <= NMAX ==> Worst(65535, n) < 0x1_0000_0000
  {
    TriangleIs(5552);
    TriangleIs(5553);
    if n <= 5552 {
      WorstMonotone(BASE - 1, n, 5552);
      WorstMonotone(65535, n, 5552);
    } else {
      WorstMonotone(BASE - 1, 5553, n);
    }
  }

  // ---------- adler32 ----------

  function Word(s: Sums): int {
    s.a + s.b * 65536
  }

  function Halves(w: u32): (s: Sums)
    ensures s.a < 65536 && s.b < 65536
  {
    Sums(w as int % 65536, (w as int / 65536) % 65536)
  }

  /** The macro DO1, over the bytes from p to q. */
  method Accumulate(a0: u32, b0: u32, buf: array<u8>, p: nat, q: nat) returns (adler: u32, sum2: u32)
    requires p <= q <= buf.Length && q - p <= NMAX && a0 as int <= 65535 && b0 as int <= 65535
    ensures Sums(adler as int, sum2 as int) == Plain(Sums(a0 as int, b0 as int), buf[p..q])
  {
    ghost var s := Sums(a0 as int, b0 as int);
    adler, sum2 := a0, b0;
    var i := p;
    assert buf[p..p] == [];
    while i < q
      invariant p <= i <= q && Sums(adler as int, sum2 as int) == Plain(s, buf[p..i])
    {
      assert buf[p..i + 1][..i - p] == buf[p..i];
      PlainBound(s, buf[p..i + 1], 65535);
      NmaxIsLargest(i + 1 - p);
      adler := adler + buf[i] as u32;
      sum2 := sum2 + adler;
      i := i + 1;
    }
  }

  // ---------- The modulus ----------

  /** The macros MOD and MOD4 without division: multiples of BASE are taken away, the largest that
      can occur first. */
  method Subtract(a: u32, steps: nat) returns (r: u32)
    requires steps <= 17 && a as int < BASE * Pow2(steps)
    ensures r as int == a as int % BASE
  {
    hide Pow2;
    r := a;
    var k: nat := steps;
    while k > 0
      invariant k <= steps && r as int < BASE * Pow2(k) && r as int % BASE == a as int % BASE
    {
      k := k - 1;
      Pow2Next(k);
      Pow2Monotone(k, 16);
      ShiftBase(k);
      TakeAway(r as int, Pow2(k));
      if r as int >= BASE * Pow2(k) {
        r := r - (BASE * Pow2(k)) as u32;
      }
    }
    Pow2Next(0);
    assert 0 <= r as int < BASE * 1;
  }

  lemma ShiftBase(k: nat)
    requires k <= 16
    ensures 0 < BASE * Pow2(k) < 0x1_0000_0000
  {
    hide Pow2;
    Pow2Monotone(k, 16);
    PowSixteen();
  }

  lemma PowSixteen()
    ensures Pow2(16) == 65536 && Pow2(17) == 131072 && Pow2(5) == 32
  {
    assert Pow2(8) == 256;
    Pow2Add(8, 8);
    Pow2Next(16);
  }

  lemma TakeAway(x: int, p: int)
    ensures (x - BASE * p) % BASE == x % BASE
  {
  }

  /** MOD: both versions of the macro. */
  method Mod(a: u32, noDivide: bool) returns (r: u32)
    ensures r as int == a as int % BASE
  {
    if noDivide {
      PowSixteen();
      r := Subtract(a, 17);
    } else {
      r := a % (BASE as u32);
    }
  }

  /** MOD4, for sums of few bytes. */
  method Mod4(a: u32, noDivide: bool) returns (r: u32)
    requires a as int < 32 * BASE
    ensures r as int == a as int % BASE
  {
    if noDivide {
      PowSixteen();
      r := Subtract(a, 5);
    } else {
      r := a % (BASE as u32);
    }
  }

  // ---------- adler32 ----------

  /** Both sums over the whole buffer, reduced once. */
  function Fully(s: Sums, buf: seq<u8>): Sums {
    var p := Plain(s, buf);
    Sums(p.a % BASE, p.b % BASE)
  }

  /** From reduced halves that is the definition. */
  lemma FullyIsReduced(s: Sums, buf: seq<u8>)
    requires s.a < BASE && s.b < BASE
    ensures Fully(s, buf) == Reduced(s, buf)
  {
    hide Plain, Reduced;
    PlainAlike(s, s, buf);
  }

  /** A block after what has been summed and reduced so far. */
  lemma BlockOn(s: Sums, cur: Sums, x: seq<u8>, y: seq<u8>)
    requires Alike(cur, Plain(s, x))
    ensures Fully(cur, y) == Fully(s, x + y)
  {
    PlainConcat(s, x, y);
    PlainAlike(cur, Plain(s, x), y);
    PlainAlike(Plain(s, x), Plain(s, x), y);
  }

  function Joined(a: u32, b: u32): (r: u32)
    requires a < 65536 && b < 65536
  {
    a + b * 65536
  }

  lemma JoinedHalves(a: u32, b: u32)
    requires a < 65536 && b < 65536
    ensures Halves(Joined(a, b)) == Sums(a as int, b as int)
  {
  }

  /** The path for a single byte, which compares instead of dividing. */
  method OneByte(a0: u32, b0: u32, x: u8) returns (a: u32, b: u32)
    requires a0 < 65536 && b0 < 65536
    ensures var f := Fully(Sums(a0 as int, b0 as int), [x]);
      && a as int == f.a && b < 65536
      && b as int == (if b0 as int + f.a < 2 * BASE then f.b else f.b + BASE)
  {
    a, b := a0 + x as u32, b0;
    ghost var sum := a as int;
    OnePlain(Sums(a0 as int, b0 as int), x);
    if a >= BASE as u32 {
      a := a - BASE as u32;
    }
    assert a as int == sum % BASE;
    AddAlike(sum, a as int, b0 as int);
    b := b + a;
    Below(b as int);
    if b >= BASE as u32 {
      b := b - BASE as u32;
    }
  }

  lemma OnePlain(s: Sums, x: u8)
    ensures Plain(s, [x]) == Sums(s.a + x as int, s.b + (s.a + x as int))
  {
    assert [x][..0] == [];
    assert Plain(s, []) == s;
  }

  lemma Below(v: int)
    requires 0 <= v < 3 * BASE
    ensures v % BASE == if v < BASE then v else if v < 2 * BASE then v - BASE else v - 2 * BASE
  {
  }

  /** The path for fewer than sixteen bytes. */
  method FewBytes(a0: u32, b0: u32, buf: array<u8>, start: nat, length: nat, noDivide: bool) returns (a: u32, b: u32)
    requires start + length <= buf.Length && length < 16 && a0 < 65536 && b0 < 65536
    ensures Sums(a as int, b as int) == Fully(Sums(a0 as int, b0 as int), buf[start..start + length])
  {
    a, b := Accumulate(a0, b0, buf, start, start + length);
    PlainBound(Sums(a0 as int, b0 as int), buf[start..start + length], 65535);
    WorstMonotone(65535, length, 15);
    TriangleIs(15);
    if a >= BASE as u32 {
      a := a - BASE as u32;
    }
    b := Mod4(b, noDivide);
  }

  /** One block of NMAX bytes or less, and both sums reduced. */
  method Block(a0: u32, b0: u32, buf: array<u8>, p: nat, q: nat, noDivide: bool, ghost s: Sums, ghost start: nat) returns (a: u32, b: u32)
    requires start <= p <= q <= buf.Length && q - p <= NMAX && a0 < 65536 && b0 < 65536
    requires Alike(Sums(a0 as int, b0 as int), Plain(s, buf[start..p]))
    ensures Sums(a as int, b as int) == Fully(s, buf[start..q])
  {
    hide Plain, Alike;
    a, b := Accumulate(a0, b0, buf, p, q);
    a := Mod(a, noDivide);
    b := Mod(b, noDivide);
    BlockOn(s, Sums(a0 as int, b0 as int), buf[start..p], buf[p..q]);
    assert buf[start..p] + buf[p..q] == buf[start..q];
  }

  lemma FullyAlike(s: Sums, buf: seq<u8>)
    ensures Alike(Fully(s, buf), Plain(s, buf)) && Fully(s, buf).a < BASE && Fully(s, buf).b < BASE
  {
  }

  /** The path for longer buffers: blocks of NMAX bytes, and what is left. */
  method ManyBytes(a0: u32, b0: u32, buf: array<u8>, start: nat, length: nat, noDivide: bool) returns (a: u32, b: u32)
    requires start + length <= buf.Length && 16 <= length && a0 < 65536 && b0 < 65536
    ensures Sums(a as int, b as int) == Fully(Sums(a0 as int, b0 as int), buf[start..start + length])
  {
    hide Plain, Alike, Fully;
    ghost var s := Sums(a0 as int, b0 as int);
    a, b := a0, b0;
    var p, len := start, length;
    NoBytes(s, buf[start..start]);
    while len >= NMAX
      invariant start <= p && 0 <= len && p + len == start + length && a < 65536 && b < 65536
      invariant Alike(Sums(a as int, b as int), Plain(s, buf[start..p]))
      invariant p > start ==> Sums(a as int, b as int) == Fully(s, buf[start..p])
    {
      FullyAlike(s, buf[start..p + NMAX]);
      a, b := Block(a, b, buf, p, p + NMAX, noDivide, s, start);
      p, len := p + NMAX, len - NMAX;
    }
    if len != 0 {
      a, b := Block(a, b, buf, p, p + len, noDivide, s, start);
    }
  }

  lemma NoBytes(s: Sums, buf: seq<u8>)
    requires buf == []
    ensures Alike(s, Plain(s, buf))
  {
  }

  /** What a call gives. */
  datatype Answer = Checksum(value: u32)
                  | NullRead  // the first byte of a null buffer is read, which C leaves undefined

  /** adler32.  The path for a single byte comes before the test for a null buffer. */
  method Adler32Of(adler: u32, buf: array?<u8>, start: nat, length: nat, noDivide: bool) returns (r: Answer)
    requires buf != null ==> start + length <= buf.Length
    ensures r == NullRead <==> buf == null && length == 1
    ensures buf == null && length != 1 ==> r == Checksum(1)
    ensures buf != null ==>
      var s := Halves(adler); var f := Fully(s, buf[start..start + length]);
      r.Checksum? &&
      Halves(r.value) == Sums(f.a, if length == 1 && s.b + f.a >= 2 * BASE then f.b + BASE else f.b)
  {
    hide Fully;
    var sum2 := (adler / 65536) % 65536;
    var a, b := adler % 65536, sum2;
    if length == 1 {
      if buf == null {
        return NullRead;
      }
      assert buf[start..start + 1] == [buf[start]];
      FullyAlike(Halves(adler), [buf[start]]);
      a, b := OneByte(a, b, buf[start]);
      JoinedHalves(a, b);
      return Checksum(Joined(a, b));
    }
    if buf == null {
      return Checksum(1);
    }
    FullyAlike(Halves(adler), buf[start..start + length]);
    if length < 16 {
      a, b := FewBytes(a, b, buf, start, length, noDivide);
    } else {
      a, b := ManyBytes(a, b, buf, start, length, noDivide);
    }
    JoinedHalves(a, b);
    r := Checksum(Joined(a, b));
  }

  /** From reduced halves, whatever the length: the definition exactly, on both paths. */
  lemma ReducedStart(s: Sums, buf: seq<u8>)
    requires s.a < BASE && s.b < BASE
    ensures Fully(s, buf) == Reduced(s, buf) && s.b + Fully(s, buf).a < 2 * BASE
  {
    FullyIsReduced(s, buf);
    FullyAlike(s, buf);
  }

  /** From halves that are not reduced the path for a single byte may leave the second one so. */
  lemma UnreducedStart()
    ensures var s := Sums(65520, 65535); s.b + Fully(s, [0]).a >= 2 * BASE && Fully(s, [0]).b == 13
  {
    OnePlain(Sums(65520, 65535), 0);
  }

  // ---------- adler32_combine ----------

  /** What a half is left as: BASE stands for zero. */
  function Left(x: int): (y: int)
    ensures 1 <= y <= BASE && y % BASE == x % BASE
  {
    if x % BASE == 0 then BASE else x % BASE
  }

  /** From any start, the sums are those from (1, 0) and what the start adds: a to each byte's
      second sum. */
  lemma {:induction false} PlainShift(s: Sums, y: seq<u8>)
    ensures Plain(s, y).a + 1 == s.a + Plain(Sums(1, 0), y).a
    ensures Plain(s, y).b == s.b + |y| * (s.a - 1) + Plain(Sums(1, 0), y).b
  {
    if y == [] {
    } else {
      var n := |y| - 1;
      PlainShift(s, y[..n]);
      Distribute(n, 1, s.a - 1);
    }
  }

  /** The halves of the checksum of two pieces, as adler32_combine computes them. */
  function CombinedA(s: Sums, t: Sums): int {
    s.a + t.a + BASE - 1
  }

  function CombinedB(s: Sums, t: Sums, n: nat): int {
    (n % BASE) * s.a % BASE + s.b + t.b + BASE - n % BASE
  }

  lemma ModTimes(n: int, a: int)
    ensures ((n % BASE) * a) % BASE == (n * a) % BASE
  {
    var q, r := n / BASE, n % BASE;
    assert n == BASE * q + r;
    assert n * a == BASE * (q * a) + r * a by { Distribute(BASE * q, r, a); Regroup(q, a); }
    Periods(r * a, q * a);
  }

  lemma Regroup(q: int, a: int)
    ensures (BASE * q) * a == BASE * (q * a)
  {
  }

  lemma Periods(x: int, q: int)
    ensures (BASE * q + x) % BASE == x % BASE
  {
  }

  /** What the comparisons leave of each half: no more than two, or three, times BASE is taken off. */
  function LeftA(x: int): (y: int)
    requires 1 <= x
    ensures x <= 3 * BASE ==> y == Left(x)
  {
    if x <= BASE then x else if x <= 2 * BASE then x - BASE else x - 2 * BASE
  }

  function LeftB(x: int): (y: int)
    requires 1 <= x
    ensures x <= 4 * BASE ==> y == Left(x)
  {
    if x <= BASE then x else if x <= 2 * BASE then x - BASE else if x <= 3 * BASE then x - 2 * BASE else x - 3 * BASE
  }

  /** lo | hi << 16 for lo below 2^17: bit 16 of lo falls on bit 0 of hi. */
  function Overlaid(lo: nat, hi: nat): (r: nat)
    requires lo < 0x2_0000
    ensures lo < 65536 ==> r == lo + 65536 * hi
  {
    if lo < 65536 then lo + 65536 * hi else lo - 65536 + 65536 * (if hi % 2 == 0 then hi + 1 else hi)
  }

  /** adler32_combine, as the source's unsigned long holds it when that has more than 32 bits; with 32
      bits it is this modulo 2^32.  From halves up to 65521, which adler32 and adler32_combine return,
      both halves of the result have 16 bits; beyond that they may overlap. */
  method Adler32Combine(adler1: u32, adler2: u32, length2: nat, noDivide: bool) returns (r: nat)
    ensures var s, t := Halves(adler1), Halves(adler2);
      1 <= CombinedA(s, t) && 1 <= CombinedB(s, t, length2)
    ensures var s, t := Halves(adler1), Halves(adler2);
      var lo, hi := LeftA(CombinedA(s, t)), LeftB(CombinedB(s, t, length2));
      1 <= lo < 0x2_0000 && 1 <= hi && r == Overlaid(lo, hi)
    ensures var s, t := Halves(adler1), Halves(adler2);
      s.a <= BASE && s.b <= BASE && t.a <= BASE && t.b <= BASE ==>
        r == Left(CombinedA(s, t)) + 65536 * Left(CombinedB(s, t, length2)) < 0x1_0000_0000
  {
    var rem := (length2 % BASE) as u32;
    var sum1 := adler1 % 65536;
    Product(rem as int, sum1 as int);
    var sum2 := rem * sum1;
    sum2 := Mod(sum2, noDivide);
    sum1 := sum1 + (adler2 % 65536) + BASE as u32 - 1;
    sum2 := sum2 + (adler1 / 65536) % 65536 + (adler2 / 65536) % 65536 + BASE as u32 - rem;
    if sum1 > BASE as u32 {
      sum1 := sum1 - BASE as u32;
    }
    if sum1 > BASE as u32 {
      sum1 := sum1 - BASE as u32;
    }
    if sum2 > 2 * BASE as u32 {
      sum2 := sum2 - 2 * BASE as u32;
    }
    if sum2 > BASE as u32 {
      sum2 := sum2 - BASE as u32;
    }
    r := Overlaid(sum1 as int, sum2 as int);
  }

  lemma Product(x: int, y: int)
    requires 0 <= x < BASE && 0 <= y < 65536
    ensures 0 <= x * y < 0x1_0000_0000
  {
    MulMonotone(x, BASE - 1, y);
  }

  /** What adler32_combine computes agrees with the checksum of both pieces modulo BASE in each
      half. */
  lemma CombineAlike(x: seq<u8>, y: seq<u8>, s: Sums, t: Sums)
    requires Alike(s, Reduced(Sums(1, 0), x)) && Alike(t, Reduced(Sums(1, 0), y))
    ensures CombinedA(s, t) % BASE == Reduced(Sums(1, 0), x + y).a
    ensures CombinedB(s, t, |y|) % BASE == Reduced(Sums(1, 0), x + y).b
  {
    var one := Sums(1, 0);
    FullyIsReduced(one, x + y);
    PlainConcat(one, x, y);
    var p, q := Plain(one, x), Plain(one, y);
    PlainShift(p, y);
    PlainAlike(one, one, x);
    PlainAlike(one, one, y);
    HalvesAgree(s, t, p, q, |y|);
  }

  lemma HalvesAgree(s: Sums, t: Sums, p: Sums, q: Sums, n: nat)
    requires Alike(s, p) && Alike(t, q)
    ensures CombinedA(s, t) % BASE == (p.a + q.a - 1) % BASE
    ensures CombinedB(s, t, n) % BASE == (p.b + n * (p.a - 1) + q.b) % BASE
  {
    ModTimes(n, s.a);
    ModTimes(s.a, n);
    ModTimes(p.a, n);
    var i, j := s.a / BASE - p.a / BASE, t.a / BASE - q.a / BASE;
    Periods(p.a + q.a - 1, i + j + 1);
    var k, l := s.b / BASE - p.b / BASE, t.b / BASE - q.b / BASE;
    var m := (n % BASE) * s.a % BASE;
    assert m == (p.a * n) % BASE;
    var u, v := (p.a * n) / BASE, n / BASE;
    Periods(p.b + n * (p.a - 1) + q.b, k + l + 1 - u + v);
    SpreadOut(n, p.a);
  }

  lemma SpreadOut(n: nat, a: int)
    ensures n * (a - 1) == a * n - n
  {
  }

  /** adler32_combine gives the checksum of both pieces exactly when neither sum that it forms of
      the two checksums and the length is a multiple of BASE; a half that should be zero is left as
      BASE. */
  lemma CombineExact(x: seq<u8>, y: seq<u8>)
    ensures var one := Sums(1, 0); var s, t, c := Reduced(one, x), Reduced(one, y), Reduced(one, x + y);
      && Left(CombinedA(s, t)) == (if c.a == 0 then BASE else c.a)
      && Left(CombinedB(s, t, |y|)) == (if c.b == 0 then BASE else c.b)
      && (Sums(Left(CombinedA(s, t)), Left(CombinedB(s, t, |y|))) == c <==>
          CombinedA(s, t) % BASE != 0 && CombinedB(s, t, |y|) % BASE != 0)
  {
    var one := Sums(1, 0);
    CombineAlike(x, y, Reduced(one, x), Reduced(one, y));
  }

  /** Bytes for which the first half is zero: 256 of 255, and one of 240. */
  lemma ZeroHalf()
    ensures Reduced(Sums(1, 0), seq(256, i => 255 as u8) + [240]).a == 0
  {
    var x := seq(256, i => 255 as u8);
    FullyIsReduced(Sums(1, 0), x + [240]);
    PlainConcat(Sums(1, 0), x, [240]);
    SameBytes(Sums(1, 0), 256);
    OnePlain(Plain(Sums(1, 0), x), 240);
  }

  lemma {:induction false} SameBytes(s: Sums, n: nat)
    ensures Plain(s, seq(n, i => 255 as u8)).a == s.a + 255 * n
  {
    if n > 0 {
      SameBytes(s, n - 1);
      assert seq(n, i => 255 as u8)[..n - 1] == seq(n - 1, i => 255 as u8);
    }
  }
}
