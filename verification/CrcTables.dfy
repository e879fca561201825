/** The tables of zlib's CRC-32, and the loops that use them: a byte at a time, and a word at a
    time on machines of either byte order (dep/zlib/crc32.c:106-180, 214-335). */
module CrcTables {
  import opened Crc32

  // ---------- Bytes of words ----------

  function Low(w: bv32): bv8 { (w & 0xff) as bv8 }

  /** The register without its last k bits. */
  function Down(w: bv32, k: nat): bv32
    requires k <= 32
  {
    w >> k
  }

  /** The bytes of a word in the other order: the macro REV. */
  function Rev(w: bv32): bv32 {
    (w >> 24) + ((w >> 8) & 0xff00) + ((w & 0xff00) << 8) + ((w & 0xff) << 24)
  }

  /** A word with x as its last byte and w above it. */
  function Join(x: bv8, w: bv32): bv32 { (x as bv32) ^ (w << 8) }

  predicate ThreeBytes(w: bv32) { w < 0x100_0000 }

  /** The index into a table that a word's last byte gives. */
  function Index(w: bv32): nat { (w & 0xff) as int }

  lemma LowIndex(w: bv32)
    ensures Index(w) == Low(w) as int < 256
  {
  }

  lemma ByteRoundTrip(x: bv8)
    ensures 0 <= x as int < 256 && (x as int) as bv8 == x
  {
  }

  /** A register whose last bits are zero just shifts: the bits under the mask m. */
  lemma ClearStep(w: bv32, m: bv32)
    requires w & m == 0 && m & 1 == 1
    ensures Step(w) == Half(w) && Half(w) & (m >> 1) == 0
  {
  }

  lemma {:induction false} ShiftSome(w: bv32, k: nat)
    requires w & 0xff == 0 && k <= 8
    ensures Steps(w, k) == Halved(w, k) && Halved(w, k) & Halved(0xff, k) == 0
  {
    hide Step, Half;
    if k > 0 {
      ShiftSome(w, k - 1);
      MaskOdd(k - 1);
      ClearStep(Halved(w, k - 1), Halved(0xff, k - 1));
      MaskNext(k - 1);
    }
  }

  lemma MaskNext(k: nat)
    ensures Halved(0xff, k + 1) == Halved(0xff, k) >> 1
  {
  }

  lemma MaskOdd(k: nat)
    requires k < 8
    ensures Halved(0xff, k) & 1 == 1
  {
    assert Halved(0xff, 2) == 0x3f;
    assert Halved(0xff, 4) == 0xf;
    assert Halved(0xff, 6) == 0x3;
  }

  lemma EightHalves(w: bv32)
    ensures Half(Half(Half(Half(Half(Half(Half(Half(w)))))))) == Down(w, 8)
  {
  }

  lemma HalvedEight(w: bv32)
    ensures Halved(w, 8) == Down(w, 8)
  {
    hide Halved, Half, Down;
    HalvedNext(w, 0); HalvedNext(w, 1); HalvedNext(w, 2); HalvedNext(w, 3);
    HalvedNext(w, 4); HalvedNext(w, 5); HalvedNext(w, 6); HalvedNext(w, 7);
    EightHalves(w);
  }

  lemma ShiftOut(w: bv32)
    requires w & 0xff == 0
    ensures Steps(w, 8) == Down(w, 8)
  {
    hide Step, Steps, Halved, Down;
    ShiftSome(w, 8);
    HalvedEight(w);
  }

  lemma SplitBits(w: bv32)
    ensures (w & 0xffff_ff00) & 0xff == 0 && (w & 0xffff_ff00) >> 8 == w >> 8 && (w & 0xff) ^ (w & 0xffff_ff00) == w
  {
  }

  lemma LowWide(w: bv32)
    ensures Wide(Low(w)) == w & 0xff
  {
  }

  lemma SplitByte(w: bv32)
    ensures var h := w & 0xffff_ff00; h & 0xff == 0 && Down(h, 8) == Down(w, 8) && Xor(Wide(Low(w)), h) == w
  {
    hide Low, Wide;
    SplitBits(w);
    LowWide(w);
  }

  /** Eight steps at once: the entry for the last byte, and the rest shifted. */
  lemma EightSteps(w: bv32)
    ensures Steps(w, 8) == Xor(Steps(Wide(Low(w)), 8), Down(w, 8))
  {
    hide Steps, Xor, Down, Low, Wide;
    SplitByte(w);
    var h := w & 0xffff_ff00;
    StepsXor(Wide(Low(w)), h, 8);
    ShiftOut(h);
  }

  lemma SameRest(c: bv32, x: bv8)
    ensures Down(Xor(c, Wide(x)), 8) == Down(c, 8)
  {
  }

  /** A byte by table. */
  lemma ByteByTable(c: bv32, x: bv8)
    ensures Byte(c, x) == Xor(Steps(Wide(Low(Xor(c, Wide(x)))), 8), Down(c, 8))
  {
    hide Steps, Xor, Down, Low, Wide;
    EightSteps(Xor(c, Wide(x)));
    SameRest(c, x);
  }

  // ---------- Words ----------

  lemma JoinParts(x: bv8, w: bv32)
    requires ThreeBytes(w)
    ensures var u := w << 8; Join(x, w) == Xor(Wide(x), u) && u & 0xff == 0 && Down(u, 8) == w
  {
  }

  /** Eight steps of a register with a word added: the last byte is in, the others wait. */
  lemma JoinIn(c: bv32, x: bv8, w: bv32)
    requires ThreeBytes(w)
    ensures Steps(Xor(c, Join(x, w)), 8) == Xor(Byte(c, x), w)
  {
    hide Steps, Xor, Down, Wide, Join, ThreeBytes;
    JoinParts(x, w);
    var u := w << 8;
    XorLaws(c, Wide(x), u);
    StepsXor(Xor(c, Wide(x)), u, 8);
    ShiftOut(u);
  }

  /** Four bytes as a word, the first in the last place. */
  function Word(s: seq<bv8>): bv32
    requires |s| == 4
  {
    Join(s[0], Join(s[1], Join(s[2], Join(s[3], 0))))
  }

  lemma WordParts(s: seq<bv8>)
    requires |s| == 4
    ensures ThreeBytes(0) && ThreeBytes(Join(s[3], 0)) && ThreeBytes(Join(s[2], Join(s[3], 0)))
    ensures ThreeBytes(Join(s[1], Join(s[2], Join(s[3], 0))))
  {
  }

  lemma FourBytes(c: bv32, s: seq<bv8>)
    requires |s| == 4
    ensures Reg(c, s) == Byte(Byte(Byte(Byte(c, s[0]), s[1]), s[2]), s[3])
  {
    hide Byte;
    assert s[..3][..2] == s[..2] && s[..2][..1] == s[..1] && s[..1][..0] == [];
    assert Reg(c, s[..1]) == Byte(c, s[0]);
    assert Reg(c, s[..2]) == Byte(Reg(c, s[..1]), s[1]);
    assert Reg(c, s[..3]) == Byte(Reg(c, s[..2]), s[2]);
  }

  /** A word at once. */
  lemma WordIn(c: bv32, s: seq<bv8>)
    requires |s| == 4
    ensures Steps(Xor(c, Word(s)), 32) == Reg(c, s)
  {
    hide Steps, Xor, Join, ThreeBytes, Byte, Reg;
    WordParts(s);
    FourBytes(c, s);
    var w3 := Join(s[3], 0);
    var w2 := Join(s[2], w3);
    var w1 := Join(s[1], w2);
    var c1 := Byte(c, s[0]);
    var c2 := Byte(c1, s[1]);
    var c3 := Byte(c2, s[2]);
    JoinIn(c, s[0], w1);
    JoinIn(c1, s[1], w2);
    JoinIn(c2, s[2], w3);
    JoinIn(c3, s[3], 0);
    StepsAdd(Xor(c, Word(s)), 8, 24);
    StepsAdd(Xor(c1, w1), 8, 16);
    StepsAdd(Xor(c2, w2), 8, 8);
    XorLaws(Byte(c3, s[3]), 0, 0);
  }

  /** One byte of a word looked up, the others waiting. */
  lemma LookupOne(v: bv32, k: nat)
    ensures Steps(v, 8 + k) == Xor(Steps(Wide(Low(v)), 8 + k), Steps(Down(v, 8), k))
  {
    hide Steps, Xor, Down, Low, Wide;
    EightSteps(v);
    StepsAdd(v, 8, k);
    StepsXor(Steps(Wide(Low(v)), 8), Down(v, 8), k);
    StepsAdd(Wide(Low(v)), 8, k);
  }

  lemma DownAgain(v: bv32)
    ensures Down(Down(v, 8), 8) == Down(v, 16) && Down(Down(v, 16), 8) == Down(v, 24)
    ensures Wide(Low(Down(v, 24))) == Down(v, 24)
  {
  }

  /** Thirty-two steps by four tables. */
  lemma WordByTables(v: bv32)
    ensures Steps(v, 32) ==
      Xor(Xor(Xor(Steps(Wide(Low(v)), 32), Steps(Wide(Low(Down(v, 8))), 24)), Steps(Wide(Low(Down(v, 16))), 16)),
          Steps(Wide(Low(Down(v, 24))), 8))
  {
    hide Steps, Xor, Down, Low, Wide;
    LookupOne(v, 24);
    LookupOne(Down(v, 8), 16);
    LookupOne(Down(v, 16), 8);
    DownAgain(v);
    var a, b, c, d := Steps(Wide(Low(v)), 32), Steps(Wide(Low(Down(v, 8))), 24), Steps(Wide(Low(Down(v, 16))), 16), Steps(Down(v, 24), 8);
    XorLaws(a, b, Xor(c, d));
    XorLaws(Xor(a, b), c, d);
  }

  // ---------- The other byte order ----------

  lemma RevXor(a: bv32, b: bv32)
    ensures Rev(Xor(a, b)) == Xor(Rev(a), Rev(b))
  {
    RevIsXor(a);
    RevIsXor(b);
    RevIsXor(a ^ b);
  }

  lemma RevIsXor(w: bv32)
    ensures Rev(w) == (w >> 24) ^ ((w >> 8) & 0xff00) ^ ((w & 0xff00) << 8) ^ ((w & 0xff) << 24)
  {
  }

  lemma RevTwice(w: bv32)
    ensures Rev(Rev(w)) == w
  {
  }

  lemma RevNot(w: bv32)
    ensures Rev(!w) == !Rev(w)
  {
  }

  /** Where the bytes of a reversed word are. */
  lemma RevTop(w: bv32)
    ensures Rev(w) >> 24 == Wide(Low(w)) && Low(Rev(w)) == Low(Down(w, 24))
  {
    RevIsXor(w);
  }

  lemma RevShift(w: bv32)
    ensures Rev(w) << 8 == Rev(Down(w, 8))
  {
    RevIsXor(w);
    RevIsXor(w >> 8);
  }

  lemma RevMiddle(w: bv32)
    ensures Low(Rev(w) >> 8) == Low(Down(w, 16)) && Low(Rev(w) >> 16) == Low(Down(w, 8))
  {
    RevIsXor(w);
  }

  // ---------- make_crc_table ----------

  /** The terms of the polynomial but x^32. */
  const TERMS: seq<nat> := [0, 1, 2, 4, 5, 7, 8, 10, 11, 12, 16, 22, 23, 26]

  function AddTerm(poly: bv32, k: nat): bv32
    requires k <= 31
  {
    poly | (1 << (31 - k))
  }

  function Pattern(k: nat): bv32
    requires k <= |TERMS|
  {
    if k == 0 then 0 else AddTerm(Pattern(k - 1), TERMS[k - 1])
  }

  lemma PatternNext(k: nat)
    requires k < 14
    ensures |TERMS| == 14 && Pattern(0) == 0 && Pattern(k + 1) == AddTerm(Pattern(k), TERMS[k])
  {
    hide AddTerm;
  }

  lemma EachTerm()
    ensures AddTerm(0x0, 0) == 0x80000000 && AddTerm(0x80000000, 1) == 0xc0000000
      && AddTerm(0xc0000000, 2) == 0xe0000000
    ensures AddTerm(0xe0000000, 4) == 0xe8000000 && AddTerm(0xe8000000, 5) == 0xec000000
      && AddTerm(0xec000000, 7) == 0xed000000
    ensures AddTerm(0xed000000, 8) == 0xed800000 && AddTerm(0xed800000, 10) == 0xeda00000
      && AddTerm(0xeda00000, 11) == 0xedb00000
    ensures AddTerm(0xedb00000, 12) == 0xedb80000 && AddTerm(0xedb80000, 16) == 0xedb88000
      && AddTerm(0xedb88000, 22) == 0xedb88200
    ensures AddTerm(0xedb88200, 23) == 0xedb88300 && AddTerm(0xedb88300, 26) == 0xedb88320
  {
  }

  lemma PatternIs()
    ensures |TERMS| == 14 && Pattern(14) == POLY
  {
    hide AddTerm, Pattern;
    EachTerm();
    PatternNext(0); PatternNext(1); PatternNext(2); PatternNext(3); PatternNext(4); PatternNext(5); PatternNext(6);
    PatternNext(7); PatternNext(8); PatternNext(9); PatternNext(10); PatternNext(11); PatternNext(12); PatternNext(13);
  }

  /** Entry x of table k: the register x after k + 1 zero bytes. */
  function Entry(k: nat, x: bv8): bv32 {
    Steps(Wide(x), 8 * (k + 1))
  }

  /** What table k holds at x. */
  function Cell(k: nat, x: bv8): bv32 {
    if k < 4 then Entry(k, x) else Rev(Entry(k - 4, x))
  }

  /** The eight tables. */
  ghost predicate Made(t: array2<bv32>)
    reads t
  {
    && t.Length0 == 8 && t.Length1 == 256
    && (forall k, x: bv8 :: 0 <= k < 8 ==> t[k, x as int] == Cell(k, x))
  }

  ghost predicate FirstRow(t: array2<bv32>, n: nat)
    reads t
  {
    t.Length0 == 8 && t.Length1 == 256 && n <= 256 && forall m :: 0 <= m < n ==> t[0, m] == Cell(0, m as bv8)
  }

  /** One turn of the inner loop. */
  function Turn(poly: bv32, c: bv32): bv32 {
    if c & 1 != 0 then poly ^ (c >> 1) else c >> 1
  }

  lemma TurnIsStep(c: bv32)
    ensures Turn(POLY, c) == Step(c)
  {
    LowBit(c);
  }

  lemma LowBit(c: bv32)
    ensures c & 1 == 0 || c & 1 == 1
  {
  }

  method MakePolynomial() returns (poly: bv32)
    ensures poly == POLY
  {
    hide POLY, AddTerm, Pattern;
    poly := 0;
    var n := 0;
    PatternIs();
    PatternNext(0);
    while n < 14
      invariant n <= 14 && poly == Pattern(n)
    {
      PatternNext(n);
      poly := AddTerm(poly, TERMS[n]);
      n := n + 1;
    }
  }

  lemma StepsNext(w: bv32, k: nat)
    ensures Steps(w, 0) == w && Steps(w, k + 1) == Step(Steps(w, k))
  {
  }

  /** The register n after eight zero bits. */
  method FirstEntry(poly: bv32, n: bv8) returns (c: bv32)
    requires poly == POLY
    ensures c == Entry(0, n)
  {
    hide Steps, Step, Wide, POLY, Turn;
    c := Wide(n);
    var k := 0;
    StepsNext(c, 0);
    while k < 8
      invariant k <= 8 && c == Steps(Wide(n), k)
    {
      TurnIsStep(c);
      StepsNext(Wide(n), k);
      c := Turn(poly, c);
      k := k + 1;
    }
  }

  method MakeFirst(t: array2<bv32>, poly: bv32)
    requires t.Length0 == 8 && t.Length1 == 256 && poly == POLY
    modifies t
    ensures FirstRow(t, 256)
  {
    hide Entry, POLY, Rev;
    var n := 0;
    while n < 256
      invariant FirstRow(t, n)
    {
      t[0, n] := FirstEntry(poly, n as bv8);
      n := n + 1;
    }
  }

  /** Another zero byte. */
  lemma EntryNext(k: nat, x: bv8)
    ensures var c := Entry(k, x); Entry(k + 1, x) == Xor(Entry(0, Low(c)), Down(c, 8))
  {
    hide Steps, Xor, Down, Low, Wide;
    StepsAdd(Wide(x), 8 * (k + 1), 8);
    EightSteps(Entry(k, x));
  }

  /** The register c after one zero byte, by the first table. */
  method ZeroByte(t: array2<bv32>, c: bv32) returns (c': bv32)
    requires FirstRow(t, 256)
    ensures c' == Xor(Entry(0, Low(c)), Down(c, 8))
  {
    hide Xor, Down, Low, Entry, Rev, Index;
    LowIndex(c);
    ByteRoundTrip(Low(c));
    c' := Xor(t[0, Index(c)], Down(c, 8));
  }

  /** Column n of the tables is complete below k, and in the reversed tables as far. */
  ghost predicate Column(t: array2<bv32>, n: nat, k: nat)
    reads t
  {
    && t.Length0 == 8 && t.Length1 == 256 && n < 256 && k <= 4
    && forall j :: 0 <= j < k || 4 <= j < k + 4 ==> t[j, n] == Cell(j, n as bv8)
  }

  method PutEntry(t: array2<bv32>, n: nat, k: nat, c: bv32)
    requires Column(t, n, k) && k < 4 && c == Entry(k, n as bv8)
    modifies t
    ensures Column(t, n, k + 1)
    ensures forall j, m :: 0 <= j < 8 && 0 <= m < 256 && m != n ==> t[j, m] == old(t[j, m])
  {
    hide Entry, Rev;
    t[k, n] := c;
    t[k + 4, n] := Rev(c);
  }

  method FillColumn(t: array2<bv32>, n: nat)
    requires FirstRow(t, 256) && n < 256
    modifies t
    ensures Column(t, n, 4) && FirstRow(t, 256)
    ensures forall j, m :: 0 <= j < 8 && 0 <= m < 256 && m != n ==> t[j, m] == old(t[j, m])
  {
    hide Entry, Xor, Down, Low, Rev;
    var c := t[0, n];
    PutEntry(t, n, 0, c);
    var k := 1;
    while k < 4
      invariant 1 <= k <= 4 && c == Entry(k - 1, n as bv8) && Column(t, n, k) && FirstRow(t, 256)
      invariant forall j, m :: 0 <= j < 8 && 0 <= m < 256 && m != n ==> t[j, m] == old(t[j, m])
    {
      EntryNext(k - 1, n as bv8);
      c := ZeroByte(t, c);
      PutEntry(t, n, k, c);
      k := k + 1;
    }
  }

  /** make_crc_table. */
  method MakeCrcTable() returns (t: array2<bv32>)
    ensures fresh(t) && Made(t)
  {
    hide Entry, Rev, Cell, POLY;
    var poly := MakePolynomial();
    t := new bv32[8, 256];
    MakeFirst(t, poly);
    var n := 0;
    while n < 256
      invariant n <= 256 && FirstRow(t, 256)
      invariant forall k, m :: 0 <= k < 8 && 0 <= m < n ==> t[k, m] == Cell(k, m as bv8)
    {
      FillColumn(t, n);
      n := n + 1;
    }
    forall k, x: bv8 | 0 <= k < 8 ensures t[k, x as int] == Cell(k, x) {
      ByteRoundTrip(x);
    }
  }

  // ---------- A byte at a time ----------

  lemma LookUp(t: array2<bv32>, k: nat, v: bv32)
    requires Made(t) && k < 8
    ensures t.Length0 == 8 && t.Length1 == 256 && Index(v) < 256
    ensures t[k, Index(v)] == if k < 4 then Steps(Wide(Low(v)), 8 * (k + 1)) else Rev(Steps(Wide(Low(v)), 8 * (k - 3)))
  {
    hide Low, Steps, Rev, Wide, Index;
    LowIndex(v);
    assert t[k, Low(v) as int] == Cell(k, Low(v));
  }

  /** The macro DO1. */
  method Do1(t: array2<bv32>, c: bv32, x: bv8) returns (c': bv32)
    requires Made(t)
    ensures c' == Byte(c, x)
  {
    hide Xor, Down, Low, Steps, Rev, Wide, Index;
    ByteByTable(c, x);
    var v := Xor(c, Wide(x));
    LookUp(t, 0, v);
    c' := Xor(t[0, Index(v)], Down(c, 8));
  }

  /** On a big-endian machine the register is kept with its bytes reversed. */
  method Do1Big(t: array2<bv32>, c: bv32, x: bv8, ghost r: bv32) returns (c': bv32)
    requires Made(t) && c == Rev(r)
    ensures c' == Rev(Byte(r, x))
  {
    hide Xor, Down, Low, Steps, Rev, Wide, Index;
    ByteByTable(r, x);
    RevTop(r);
    RevShift(r);
    BigIndex(c, r, x);
    LookUp(t, 4, Xor(r, Wide(x)));
    RevXor(Steps(Wide(Low(Xor(r, Wide(x)))), 8), Down(r, 8));
    c' := Xor(t[4, ((c >> 24) ^ (x as bv32)) as int], c << 8);
  }

  lemma BigIndex(c: bv32, r: bv32, x: bv8)
    requires c >> 24 == Wide(Low(r))
    ensures ((c >> 24) ^ (x as bv32)) as int == Index(Xor(r, Wide(x))) < 256
  {
    assert (c >> 24) ^ (x as bv32) == (r ^ (x as bv32)) & 0xff;
    LowIndex(Xor(r, Wide(x)));
  }

  // ---------- A word at a time ----------

  /** The word that a machine of either byte order loads from four bytes. */
  function Load(s: seq<bv8>, little: bool): bv32
    requires |s| == 4
  {
    if little then Word(s) else Rev(Word(s))
  }

  /** The macro DOLIT4. */
  method DoLit4(t: array2<bv32>, c: bv32, s: seq<bv8>) returns (c': bv32)
    requires Made(t) && |s| == 4
    ensures c' == Reg(c, s)
  {
    hide Xor, Down, Low, Steps, Rev, Wide, Word, Reg, Index, Made;
    WordIn(c, s);
    var v := Xor(c, Load(s, true));
    WordByTables(v);
    LookUp(t, 3, v);
    LookUp(t, 2, Down(v, 8));
    LookUp(t, 1, Down(v, 16));
    LookUp(t, 0, Down(v, 24));
    c' := Xor(Xor(Xor(t[3, Index(v)], t[2, Index(Down(v, 8))]), t[1, Index(Down(v, 16))]),
              t[0, Index(Down(v, 24))]);
  }

  /** The macro DOBIG4. */
  method DoBig4(t: array2<bv32>, c: bv32, s: seq<bv8>, ghost r: bv32) returns (c': bv32)
    requires Made(t) && |s| == 4 && c == Rev(r)
    ensures c' == Rev(Reg(r, s))
  {
    hide Xor, Down, Low, Steps, Rev, Wide, Word, Reg, Index, Made;
    WordIn(r, s);
    ghost var w := Xor(r, Word(s));
    RevXor(r, Word(s));
    var v := Xor(c, Load(s, false));
    WordByTables(w);
    RevWords(w);
    DownEight(v);
    LookUp(t, 4, v);
    LookUp(t, 5, Down(v, 8));
    LookUp(t, 6, Down(v, 16));
    LookUp(t, 7, Down(v, 24));
    c' := Xor(Xor(Xor(t[4, Index(v)], t[5, Index(Down(v, 8))]), t[6, Index(Down(v, 16))]),
              t[7, Index(Down(v, 24))]);
    RevSum(Steps(Wide(Low(w)), 32), Steps(Wide(Low(Down(w, 8))), 24), Steps(Wide(Low(Down(w, 16))), 16), Steps(Wide(Low(Down(w, 24))), 8));
  }

  lemma DownEight(w: bv32)
    ensures Down(w, 8) == w >> 8 && Down(w, 16) == w >> 16 && Down(w, 24) == w >> 24
  {
  }

  /** The bytes of a reversed word. */
  lemma RevWords(w: bv32)
    ensures Low(Rev(w)) == Low(Down(w, 24)) && Low(Down(Rev(w), 8)) == Low(Down(w, 16))
    ensures Low(Down(Rev(w), 16)) == Low(Down(w, 8)) && Low(Down(Rev(w), 24)) == Low(w)
  {
    hide Low, Down, Rev, Wide;
    RevTop(w);
    RevMiddle(w);
    DownEight(Rev(w));
    RevTop(Rev(w));
    RevTwice(w);
  }

  lemma RevSum(a: bv32, b: bv32, c: bv32, d: bv32)
    ensures Rev(Xor(Xor(Xor(a, b), c), d)) == Xor(Xor(Xor(Rev(d), Rev(c)), Rev(b)), Rev(a))
  {
    hide Rev, Xor;
    RevXor(Xor(Xor(a, b), c), d);
    RevXor(Xor(a, b), c);
    RevXor(a, b);
    var p, q, r, s := Rev(a), Rev(b), Rev(c), Rev(d);
    XorLaws(Xor(Xor(p, q), r), s, 0);
    XorLaws(s, Xor(p, q), r);
    XorLaws(Xor(p, q), r, 0);
    XorLaws(s, r, Xor(p, q));
    XorLaws(p, q, 0);
    XorLaws(Xor(s, r), q, p);
  }

  // ---------- Whole buffers ----------

  lemma RunOn(c: bv32, s: seq<bv8>, i: nat, p: nat, k: nat)
    requires i <= p && p + k <= |s|
    ensures Reg(c, s[i..p + k]) == Reg(Reg(c, s[i..p]), s[p..p + k])
  {
    hide Byte, Reg;
    RegConcat(c, s[i..p], s[p..p + k]);
    assert s[i..p + k] == s[i..p] + s[p..p + k];
  }

  lemma OneMore(c: bv32, s: seq<bv8>, i: nat, p: nat)
    requires i <= p < |s|
    ensures Reg(c, s[i..p + 1]) == Byte(Reg(c, s[i..p]), s[p])
  {
    hide Byte;
    assert s[i..p + 1][..p - i] == s[i..p];
  }

  lemma NoneYet(c: bv32, s: seq<bv8>, i: nat)
    requires i <= |s|
    ensures Reg(c, s[i..i]) == c
  {
    assert s[i..i] == [];
  }

  /** The macro DOLIT32. */
  method DoLit32(t: array2<bv32>, c: bv32, buf: array<bv8>, p: nat) returns (c': bv32)
    requires Made(t) && p + 32 <= buf.Length
    ensures c' == Reg(c, buf[p..p + 32])
  {
    hide Reg, Byte, Made;
    ghost var s := buf[..];
    c' := c;
    var k := 0;
    NoneYet(c, s, p);
    while k < 8
      invariant k <= 8 && c' == Reg(c, s[p..p + 4 * k])
    {
      RunOn(c, s, p, p + 4 * k, 4);
      c' := DoLit4(t, c', buf[p + 4 * k..p + 4 * k + 4]);
      k := k + 1;
    }
  }

  /** Bytes up to a word boundary. */
  method AlignLittle(t: array2<bv32>, c: bv32, buf: array<bv8>, p: nat, len: nat, address: nat) returns (c': bv32, p': nat)
    requires Made(t) && p + len <= buf.Length
    ensures p <= p' <= p + len && c' == Reg(c, buf[p..p'])
  {
    hide Reg, Byte, Made;
    ghost var s := buf[..];
    c', p' := c, p;
    NoneYet(c, s, p);
    while p' < p + len && (address + p') % 4 != 0
      invariant p <= p' <= p + len && c' == Reg(c, s[p..p'])
    {
      OneMore(c, s, p, p');
      c' := Do1(t, c', buf[p']);
      p' := p' + 1;
    }
    assert s[p..p'] == buf[p..p'];
  }

  /** Words, eight at a time as long as there are eight. */
  method WordsLittle(t: array2<bv32>, c: bv32, buf: array<bv8>, p: nat, len: nat) returns (c': bv32, p': nat)
    requires Made(t) && p + len <= buf.Length
    ensures p <= p' <= p + len && p + len < p' + 4 && c' == Reg(c, buf[p..p'])
  {
    hide Reg, Byte, Made;
    ghost var s := buf[..];
    c', p' := c, p;
    NoneYet(c, s, p);
    while p + len - p' >= 32
      invariant p <= p' <= p + len && c' == Reg(c, s[p..p'])
    {
      RunOn(c, s, p, p', 32);
      c' := DoLit32(t, c', buf, p');
      p' := p' + 32;
    }
    while p + len - p' >= 4
      invariant p <= p' <= p + len && c' == Reg(c, s[p..p'])
    {
      RunOn(c, s, p, p', 4);
      c' := DoLit4(t, c', buf[p'..p' + 4]);
      p' := p' + 4;
    }
    assert s[p..p'] == buf[p..p'];
  }

  /** Bytes to the end. */
  method TailLittle(t: array2<bv32>, c: bv32, buf: array<bv8>, p: nat, len: nat) returns (c': bv32)
    requires Made(t) && p + len <= buf.Length
    ensures c' == Reg(c, buf[p..p + len])
  {
    hide Reg, Byte, Made;
    ghost var s := buf[..];
    c' := c;
    var p' := p;
    NoneYet(c, s, p);
    while p' < p + len
      invariant p <= p' <= p + len && c' == Reg(c, s[p..p'])
    {
      OneMore(c, s, p, p');
      c' := Do1(t, c', buf[p']);
      p' := p' + 1;
    }
    assert s[p..p'] == buf[p..p + len];
  }

  lemma ThreeParts(c: bv32, s: seq<bv8>, i: nat, p: nat, q: nat, e: nat)
    requires i <= p <= q <= e <= |s|
    ensures Reg(Reg(Reg(c, s[i..p]), s[p..q]), s[q..e]) == Reg(c, s[i..e])
  {
    hide Reg;
    RunOn(c, s, i, p, q - p);
    RunOn(c, s, i, q, e - q);
  }

  /** crc32_little: bytes up to a word boundary, words, and the bytes that are left. */
  method Crc32Little(t: array2<bv32>, crc: bv32, buf: array<bv8>, start: nat, length: nat, address: nat) returns (r: bv32)
    requires Made(t) && start + length <= buf.Length
    ensures r == Crc(crc, buf[start..start + length])
  {
    hide Reg, Made;
    var c, p := AlignLittle(t, !crc, buf, start, length, address);
    var d, q := WordsLittle(t, c, buf, p, start + length - p);
    var e := TailLittle(t, d, buf, q, start + length - q);
    ThreeParts(!crc, buf[..], start, p, q, start + length);
    SameSlices(buf, start, p, q, start + length);
    r := !e;
  }

  lemma SameSlices(buf: array<bv8>, i: nat, p: nat, q: nat, e: nat)
    requires i <= p <= q <= e <= buf.Length
    ensures buf[..][i..p] == buf[i..p] && buf[..][p..q] == buf[p..q] && buf[..][q..e] == buf[q..e]
      && buf[..][i..e] == buf[i..e]
  {
  }

  /** The macro DOBIG32. */
  method DoBig32(t: array2<bv32>, c: bv32, buf: array<bv8>, p: nat, ghost r: bv32) returns (c': bv32)
    requires Made(t) && p + 32 <= buf.Length && c == Rev(r)
    ensures c' == Rev(Reg(r, buf[p..p + 32]))
  {
    hide Reg, Byte, Made, Rev;
    ghost var s := buf[..];
    c' := c;
    var k := 0;
    NoneYet(r, s, p);
    while k < 8
      invariant k <= 8 && c' == Rev(Reg(r, s[p..p + 4 * k]))
    {
      RunOn(r, s, p, p + 4 * k, 4);
      c' := DoBig4(t, c', buf[p + 4 * k..p + 4 * k + 4], Reg(r, s[p..p + 4 * k]));
      k := k + 1;
    }
  }

  /** Bytes up to a word boundary. */
  method AlignBig(t: array2<bv32>, c: bv32, buf: array<bv8>, p: nat, len: nat, address: nat, ghost r: bv32) returns (c': bv32, p': nat)
    requires Made(t) && p + len <= buf.Length && c == Rev(r)
    ensures p <= p' <= p + len && c' == Rev(Reg(r, buf[p..p']))
  {
    hide Reg, Byte, Made, Rev;
    ghost var s := buf[..];
    c', p' := c, p;
    NoneYet(r, s, p);
    while p' < p + len && (address + p') % 4 != 0
      invariant p <= p' <= p + len && c' == Rev(Reg(r, s[p..p']))
    {
      OneMore(r, s, p, p');
      c' := Do1Big(t, c', buf[p'], Reg(r, s[p..p']));
      p' := p' + 1;
    }
    assert s[p..p'] == buf[p..p'];
  }

  /** Words, eight at a time as long as there are eight. */
  method WordsBig(t: array2<bv32>, c: bv32, buf: array<bv8>, p: nat, len: nat, ghost r: bv32) returns (c': bv32, p': nat)
    requires Made(t) && p + len <= buf.Length && c == Rev(r)
    ensures p <= p' <= p + len && p + len < p' + 4 && c' == Rev(Reg(r, buf[p..p']))
  {
    hide Reg, Byte, Made, Rev;
    ghost var s := buf[..];
    c', p' := c, p;
    NoneYet(r, s, p);
    while p + len - p' >= 32
      invariant p <= p' <= p + len && c' == Rev(Reg(r, s[p..p']))
    {
      RunOn(r, s, p, p', 32);
      c' := DoBig32(t, c', buf, p', Reg(r, s[p..p']));
      p' := p' + 32;
    }
    while p + len - p' >= 4
      invariant p <= p' <= p + len && c' == Rev(Reg(r, s[p..p']))
    {
      RunOn(r, s, p, p', 4);
      c' := DoBig4(t, c', buf[p'..p' + 4], Reg(r, s[p..p']));
      p' := p' + 4;
    }
    assert s[p..p'] == buf[p..p'];
  }

  /** Bytes to the end. */
  method TailBig(t: array2<bv32>, c: bv32, buf: array<bv8>, p: nat, len: nat, ghost r: bv32) returns (c': bv32)
    requires Made(t) && p + len <= buf.Length && c == Rev(r)
    ensures c' == Rev(Reg(r, buf[p..p + len]))
  {
    hide Reg, Byte, Made, Rev;
    ghost var s := buf[..];
    c' := c;
    var p' := p;
    NoneYet(r, s, p);
    while p' < p + len
      invariant p <= p' <= p + len && c' == Rev(Reg(r, s[p..p']))
    {
      OneMore(r, s, p, p');
      c' := Do1Big(t, c', buf[p'], Reg(r, s[p..p']));
      p' := p' + 1;
    }
    assert s[p..p'] == buf[p..p + len];
  }

  /** crc32_big: the same with the register's bytes reversed. */
  method Crc32Big(t: array2<bv32>, crc: bv32, buf: array<bv8>, start: nat, length: nat, address: nat) returns (r: bv32)
    requires Made(t) && start + length <= buf.Length
    ensures r == Crc(crc, buf[start..start + length])
  {
    hide Reg, Made, Rev;
    ghost var s := buf[..];
    RevNot(crc);
    SameSlices(buf, start, start, start, start + length);
    var c, p := AlignBig(t, !Rev(crc), buf, start, length, address, !crc);
    var d, q := WordsBig(t, c, buf, p, start + length - p, Reg(!crc, buf[start..p]));
    var e := TailBig(t, d, buf, q, start + length - q, Reg(Reg(!crc, buf[start..p]), buf[p..q]));
    ThreeParts(!crc, s, start, p, q, start + length);
    SameSlices(buf, start, p, q, start + length);
    RevNot(e);
    RevTwice(Reg(!crc, s[start..start + length]));
    r := Rev(!e);
  }

  /** The loop of crc32 where words of four bytes are not used, eight bytes at a time. */
  method Crc32Bytes(t: array2<bv32>, crc: bv32, buf: array<bv8>, start: nat, length: nat) returns (r: bv32)
    requires Made(t) && start + length <= buf.Length
    ensures r == Crc(crc, buf[start..start + length])
  {
    hide Reg, Byte, Made;
    ghost var s, c0 := buf[..], !crc;
    var c, p, len := crc ^ 0xffff_ffff, start, length;
    AllOnes(crc);
    NoneYet(c0, s, start);
    while len >= 8
      invariant start <= p && 0 <= len && p + len == start + length && c == Reg(c0, s[start..p])
    {
      var k := 0;
      while k < 8
        invariant k <= 8 && start <= p && len >= 8 && p + len - k == start + length && c == Reg(c0, s[start..p])
      {
        OneMore(c0, s, start, p);
        c := Do1(t, c, buf[p]);
        p, k := p + 1, k + 1;
      }
      len := len - 8;
    }
    c := TailLittle(t, c, buf, p, len);
    RunOn(c0, s, start, p, len);
    assert s[p..p + len] == buf[p..p + len] && s[start..p + len] == buf[start..start + length];
    AllOnes(c);
    r := c ^ 0xffff_ffff;
  }

  lemma AllOnes(c: bv32)
    ensures c ^ 0xffff_ffff == !c
  {
  }

  /** crc32: whichever loop the machine calls for, and wherever the buffer lies, the result is the
      checksum. */
  method Crc32Of(t: array2<bv32>, crc: bv32, buf: array?<bv8>, start: nat, length: nat, address: nat, byFour: bool, little: bool)
    returns (r: bv32)
    requires Made(t) && (buf != null ==> start + length <= buf.Length)
    ensures r == if buf == null then 0 else Crc(crc, buf[start..start + length])
  {
    hide Crc, Made;
    if buf == null {
      return 0;
    }
    if byFour {
      if little {
        r := Crc32Little(t, crc, buf, start, length, address);
      } else {
        r := Crc32Big(t, crc, buf, start, length, address);
      }
      return;
    }
    r := Crc32Bytes(t, crc, buf, start, length);
  }
}
