/** zlib's CRC-32: its tables, the byte-wise and word-wise loops, and the combination of two
    checksums (dep/zlib/crc32.c). */
module Crc32 {

  // ---------- The register, one bit at a time ----------

  /** x^32 mod p, the lowest powers in the most significant bits. */
  const POLY: bv32 := 0xedb8_8320

  // The operators on words have names of their own, so that proofs need not look at single bits.

  function Xor(a: bv32, b: bv32): bv32 { a ^ b }

  function Half(a: bv32): bv32 { a >> 1 }

  predicate Odd(a: bv32) { a & 1 == 1 }

  function Unit(b: bool): bv32 { if b then 1 else 0 }

  function Wide(x: bv8): bv32 { x as bv32 }

  /** Multiplication by x: shift right, and add x^32 mod p if the bit shifted out is a one. */
  function Step(c: bv32): bv32 {
    if Odd(c) then Xor(POLY, Half(c)) else Half(c)
  }

  function Steps(c: bv32, k: nat): bv32 {
    if k == 0 then c else Step(Steps(c, k - 1))
  }

  /** One bit of a message: it is added at the end of the register, which then shifts. */
  function BitIn(c: bv32, b: bool): bv32 {
    Step(Xor(c, Unit(b)))
  }

  /** The register after the bits of a message, which defines the checksum (section 8 of
      RFC 1952). */
  function Serial(c: bv32, bits: seq<bool>): bv32 {
    if bits == [] then c else BitIn(Serial(c, bits[..|bits| - 1]), bits[|bits| - 1])
  }

  predicate BitAt(x: bv8, k: nat)
    requires k < 8
  {
    x & (1 << k) != 0
  }

  /** The bits of a byte, least significant first. */
  function BitsOf(x: bv8, k: nat := 8): (s: seq<bool>)
    requires k <= 8
    ensures |s| == k
  {
    if k == 0 then [] else BitsOf(x, k - 1) + [BitAt(x, k - 1)]
  }

  function Message(s: seq<bv8>): seq<bool> {
    if s == [] then [] else Message(s[..|s| - 1]) + BitsOf(s[|s| - 1])
  }

  /** One byte, eight steps at once. */
  function Byte(c: bv32, x: bv8): bv32 {
    Steps(Xor(c, Wide(x)), 8)
  }

  function Reg(c: bv32, s: seq<bv8>): bv32 {
    if s == [] then c else Byte(Reg(c, s[..|s| - 1]), s[|s| - 1])
  }

  /** The checksum of s, continued from crc. */
  function Crc(crc: bv32, s: seq<bv8>): bv32 {
    !Reg(!crc, s)
  }

  // ---------- Words ----------

  lemma BitAssoc(a: bv32, b: bv32, c: bv32)
    ensures (a ^ b) ^ c == a ^ (b ^ c)
  {
  }

  lemma XorAssoc(a: bv32, b: bv32, c: bv32)
    ensures Xor(Xor(a, b), c) == Xor(a, Xor(b, c))
  {
    BitAssoc(a, b, c);
  }

  lemma XorUnits(a: bv32, b: bv32)
    ensures Xor(a, b) == Xor(b, a) && Xor(a, 0) == a && Xor(a, a) == 0
  {
  }

  lemma BitHalves(a: bv32, b: bv32)
    ensures (a ^ b) & 1 == (a & 1) ^ (b & 1) && (a ^ b) >> 1 == (a >> 1) ^ (b >> 1)
    ensures (a & 1 == 0 || a & 1 == 1) && (b & 1 == 0 || b & 1 == 1)
  {
  }

  lemma XorLaws(a: bv32, b: bv32, c: bv32)
    ensures Xor(a, b) == Xor(b, a) && Xor(Xor(a, b), c) == Xor(a, Xor(b, c))
    ensures Xor(a, 0) == a && Xor(a, a) == 0
  {
    hide Xor;
    XorAssoc(a, b, c);
    XorUnits(a, b);
  }

  lemma XorBits(a: bv32, b: bv32)
    ensures Odd(Xor(a, b)) == (Odd(a) != Odd(b))
    ensures Half(Xor(a, b)) == Xor(Half(a), Half(b))
  {
    BitHalves(a, b);
  }

  lemma XorFour(p: bv32, a: bv32, b: bv32)
    ensures Xor(Xor(p, a), Xor(p, b)) == Xor(a, b) && Xor(Xor(p, a), b) == Xor(p, Xor(a, b)) == Xor(a, Xor(p, b))
  {
    hide Xor;
    XorLaws(p, a, b);
    XorLaws(a, p, b);
    XorLaws(a, p, Xor(p, b));
    XorLaws(p, p, b);
    XorLaws(b, 0, 0);
    XorLaws(0, b, b);
  }

  function Halved(w: bv32, k: nat): bv32 {
    if k == 0 then w else Half(Halved(w, k - 1))
  }

  lemma HalvedNext(w: bv32, k: nat)
    ensures Halved(w, 0) == w && Halved(w, k + 1) == Half(Halved(w, k))
  {
  }

  // ---------- The register is linear over GF(2) ----------

  lemma StepXor(a: bv32, b: bv32)
    ensures Step(Xor(a, b)) == Xor(Step(a), Step(b))
  {
    hide Xor, Half, Odd;
    XorBits(a, b);
    XorFour(POLY, Half(a), Half(b));
  }

  lemma {:induction false} StepsXor(a: bv32, b: bv32, k: nat)
    ensures Steps(Xor(a, b), k) == Xor(Steps(a, k), Steps(b, k))
  {
    hide Step, Xor;
    if k > 0 {
      StepsXor(a, b, k - 1);
      StepXor(Steps(a, k - 1), Steps(b, k - 1));
    }
  }

  lemma {:induction false} StepsAdd(c: bv32, j: nat, k: nat)
    ensures Steps(c, j + k) == Steps(Steps(c, j), k)
  {
    hide Step;
    if k > 0 {
      StepsAdd(c, j, k - 1);
      assert j + k - 1 == j + (k - 1);
    }
  }

  lemma {:induction false} StepsZero(k: nat)
    ensures Steps(0, k) == 0
  {
    if k > 0 {
      StepsZero(k - 1);
    }
  }

  // ---------- Bytes ----------

  lemma {:induction false} SerialConcat(c: bv32, s: seq<bool>, t: seq<bool>)
    ensures Serial(c, s + t) == Serial(Serial(c, s), t)
    decreases |t|
  {
    hide BitIn;
    if t == [] {
      assert s + t == s;
    } else {
      SerialConcat(c, s, t[..|t| - 1]);
      assert (s + t)[..|s + t| - 1] == s + t[..|t| - 1];
    }
  }

  lemma SerialNext(c: bv32, s: seq<bool>, b: bool)
    ensures Serial(c, []) == c && Serial(c, s + [b]) == BitIn(Serial(c, s), b)
  {
    hide BitIn;
    assert (s + [b])[..|s|] == s;
  }

  /** One step with all of x added is one step with its last bit added, and the rest of x one
      place further down. */
  lemma Shed(c: bv32, x: bv32)
    ensures Step(Xor(c, x)) == Xor(BitIn(c, Odd(x)), Half(x))
  {
    hide Xor, Half;
    var u := Unit(Odd(x));
    XorLaws(c, u, Xor(x, u));
    XorLaws(x, u, u);
    XorLaws(u, x, u);
    XorBits(x, u);
    UnitBits(Odd(x));
    XorLaws(Half(x), 0, 0);
    StepXor(Xor(c, u), Xor(x, u));
    assert Xor(Xor(c, u), Xor(x, u)) == Xor(c, x);
  }

  lemma UnitBits(b: bool)
    ensures Odd(Unit(b)) == b && Half(Unit(b)) == 0
  {
  }

  /** What is left of a byte after k bits. */
  function Left(x: bv8, k: nat): bv32
    requires k <= 8
  {
    Wide(x >> k)
  }

  lemma LowHalfNext(x: bv8, k: nat)
    requires k < 4
    ensures Odd(Left(x, k)) == BitAt(x, k) && Half(Left(x, k)) == Left(x, k + 1)
  {
    if k == 0 {} else if k == 1 {} else if k == 2 {} else {}
  }

  lemma HighHalfNext(x: bv8, k: nat)
    requires 4 <= k < 8
    ensures Odd(Left(x, k)) == BitAt(x, k) && Half(Left(x, k)) == Left(x, k + 1)
  {
    if k == 4 {} else if k == 5 {} else if k == 6 {} else {}
  }

  lemma LeftEnds(x: bv8)
    ensures Left(x, 0) == Wide(x) && Left(x, 8) == 0
  {
  }

  lemma LeftNext(x: bv8, k: nat)
    requires k < 8
    ensures Odd(Left(x, k)) == BitAt(x, k) && Half(Left(x, k)) == Left(x, k + 1)
    ensures Left(x, 0) == Wide(x) && Left(x, 8) == 0
  {
    hide *;
    LeftEnds(x);
    if k < 4 {
      LowHalfNext(x, k);
    } else {
      HighHalfNext(x, k);
    }
  }

  /** The first k bits of a byte one at a time, with the rest still added. */
  lemma {:induction false} FirstBits(c: bv32, x: bv8, k: nat)
    requires k <= 8
    ensures Steps(Xor(c, Wide(x)), k) == Xor(Serial(c, BitsOf(x, k)), Left(x, k))
  {
    hide Step, Xor, Wide, Left, BitAt, Half, Odd, Serial, BitIn;
    if k == 0 {
      LeftNext(x, 0);
      SerialNext(c, [], false);
    } else {
      FirstBits(c, x, k - 1);
      LeftNext(x, k - 1);
      Shed(Serial(c, BitsOf(x, k - 1)), Left(x, k - 1));
      SerialNext(c, BitsOf(x, k - 1), BitAt(x, k - 1));
    }
  }

  lemma ByteIsSerial(c: bv32, x: bv8)
    ensures Byte(c, x) == Serial(c, BitsOf(x))
  {
    hide Steps, Xor, Left, Wide, BitsOf, Serial;
    FirstBits(c, x, 8);
    LeftNext(x, 0);
    XorLaws(Serial(c, BitsOf(x)), 0, 0);
  }

  /** The byte-wise register is the bit-wise one. */
  lemma {:induction false} RegIsSerial(c: bv32, s: seq<bv8>)
    ensures Reg(c, s) == Serial(c, Message(s))
  {
    hide Byte, Serial, BitsOf;
    if s == [] {
      SerialNext(c, [], false);
    } else {
      var n := |s| - 1;
      RegIsSerial(c, s[..n]);
      ByteIsSerial(Reg(c, s[..n]), s[n]);
      SerialConcat(c, Message(s[..n]), BitsOf(s[n]));
    }
  }

  lemma {:induction false} RegConcat(c: bv32, s: seq<bv8>, t: seq<bv8>)
    ensures Reg(c, s + t) == Reg(Reg(c, s), t)
    decreases |t|
  {
    hide Byte;
    if t == [] {
      assert s + t == s;
    } else {
      RegConcat(c, s, t[..|t| - 1]);
      assert (s + t)[..|s + t| - 1] == s + t[..|t| - 1];
    }
  }

  // ---------- Every change of one byte is seen ----------

  lemma TopOfStep(c: bv32)
    ensures Step(c) & 0x8000_0000 != 0 <==> Odd(c)
  {
  }

  lemma StepUndone(a: bv32, b: bv32)
    requires Step(a) == Step(b)
    ensures a == b
  {
    hide Step, Odd;
    TopOfStep(a);
    TopOfStep(b);
    SameParity(a, b);
  }

  lemma RawParity(a: bv32, b: bv32)
    requires a >> 1 == b >> 1 && (a & 1 == 1 <==> b & 1 == 1)
    ensures a == b
  {
  }

  lemma SameParity(a: bv32, b: bv32)
    requires Step(a) == Step(b) && Odd(a) == Odd(b)
    ensures a == b
  {
    hide Xor;
    XorFour(POLY, Half(a), Half(b));
    HalfOfStep(a);
    HalfOfStep(b);
    RawParity(a, b);
  }

  /** What the step adds can be taken away. */
  lemma HalfOfStep(c: bv32)
    ensures Half(c) == if Odd(c) then Xor(POLY, Step(c)) else Step(c)
  {
    hide Xor, Half, Odd;
    XorLaws(POLY, POLY, Half(c));
    XorLaws(Half(c), 0, 0);
    XorLaws(0, Half(c), 0);
  }

  lemma {:induction false} StepsUndone(a: bv32, b: bv32, k: nat)
    requires Steps(a, k) == Steps(b, k)
    ensures a == b
  {
    hide Step;
    if k > 0 {
      StepUndone(Steps(a, k - 1), Steps(b, k - 1));
      StepsUndone(a, b, k - 1);
    }
  }

  lemma {:induction false} RegUndone(a: bv32, b: bv32, s: seq<bv8>)
    requires Reg(a, s) == Reg(b, s)
    ensures a == b
  {
    hide Steps, Xor, Wide;
    if s != [] {
      var n := |s| - 1;
      var u, v, w := Reg(a, s[..n]), Reg(b, s[..n]), Wide(s[n]);
      StepsUndone(Xor(u, w), Xor(v, w), 8);
      XorFour(w, u, v);
      XorUndone(u, v, w);
      RegUndone(a, b, s[..n]);
    }
  }

  lemma XorUndone(u: bv32, v: bv32, w: bv32)
    requires Xor(u, w) == Xor(v, w)
    ensures u == v
  {
  }

  lemma WideUndone(x: bv8, y: bv8)
    requires Wide(x) == Wide(y)
    ensures x == y
  {
  }

  /** Two messages that differ in one byte have different checksums. */
  lemma OneByteSeen(c: bv32, s: seq<bv8>, x: bv8, y: bv8, t: seq<bv8>)
    requires x != y
    ensures Reg(c, s + [x] + t) != Reg(c, s + [y] + t)
  {
    hide Steps, Xor, Wide, Reg;
    RegConcat(c, s + [x], t);
    RegConcat(c, s + [y], t);
    LastByte(c, s, x);
    LastByte(c, s, y);
    if Reg(c, s + [x] + t) == Reg(c, s + [y] + t) {
      RegUndone(Reg(c, s + [x]), Reg(c, s + [y]), t);
      var u := Reg(c, s);
      StepsUndone(Xor(u, Wide(x)), Xor(u, Wide(y)), 8);
      XorUnits(u, Wide(x));
      XorUnits(u, Wide(y));
      XorUndone(Wide(x), Wide(y), u);
      WideUndone(x, y);
    }
  }

  lemma LastByte(c: bv32, s: seq<bv8>, x: bv8)
    ensures Reg(c, s + [x]) == Steps(Xor(Reg(c, s), Wide(x)), 8)
  {
    hide Steps, Xor, Wide;
    assert (s + [x])[..|s|] == s;
  }
}
