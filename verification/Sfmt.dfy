/** The SFMT generator, for exponent 11213: its state vector updated in place, the certification of
    its period, and random numbers in a range (dep/SFMT/SFMT.h). */
module Sfmt {
  import opened Crc32
  import opened CrcCombine
  import opened Powers
  import CrcTables

  const N := 88   // SFMT_N
  const M := 68   // SFMT_M

  /** A 128-bit word as its four 32-bit lanes, the lowest first. */
  datatype Quad = Quad(x0: bv32, x1: bv32, x2: bv32, x3: bv32)

  const MASK := Quad(0xefff_f7fb, 0xffff_ffef, 0xdfdf_bfff, 0x7fff_dbfd)
  const PARITY := Quad(1, 0, 0xe814_8000, 0xd0c7_afa3)

  function Lane(w: Quad, k: nat): bv32
    requires k < 4
  {
    if k == 0 then w.x0 else if k == 1 then w.x1 else if k == 2 then w.x2 else w.x3
  }

  function Put(w: Quad, k: nat, x: bv32): (w': Quad)
    requires k < 4
    ensures forall j :: 0 <= j < 4 ==> Lane(w', j) == if j == k then x else Lane(w, j)
  {
    if k == 0 then w.(x0 := x) else if k == 1 then w.(x1 := x) else if k == 2 then w.(x2 := x) else w.(x3 := x)
  }

  // ---------- The recurrence ----------

  function XorQuad(a: Quad, b: Quad): Quad {
    Quad(Xor(a.x0, b.x0), Xor(a.x1, b.x1), Xor(a.x2, b.x2), Xor(a.x3, b.x3))
  }

  function AndQuad(a: Quad, b: Quad): Quad {
    Quad(And(a.x0, b.x0), And(a.x1, b.x1), And(a.x2, b.x2), And(a.x3, b.x3))
  }

  /** Three bytes up in the whole word. */
  function BytesUp(a: Quad): Quad {
    Quad(a.x0 << 24, (a.x1 << 24) | (a.x0 >> 8), (a.x2 << 24) | (a.x1 >> 8), (a.x3 << 24) | (a.x2 >> 8))
  }

  /** Three bytes down in the whole word. */
  function BytesDown(a: Quad): Quad {
    Quad((a.x0 >> 24) | (a.x1 << 8), (a.x1 >> 24) | (a.x2 << 8), (a.x2 >> 24) | (a.x3 << 8), a.x3 >> 24)
  }

  /** Seven bits down in each lane. */
  function LanesDown(b: Quad): Quad {
    Quad(b.x0 >> 7, b.x1 >> 7, b.x2 >> 7, b.x3 >> 7)
  }

  /** Fourteen bits up in each lane. */
  function LanesUp(d: Quad): Quad {
    Quad(d.x0 << 14, d.x1 << 14, d.x2 << 14, d.x3 << 14)
  }

  /** sfmt_recursion. */
  function Recursion(a: Quad, b: Quad, c: Quad, d: Quad): Quad {
    var b1 := AndQuad(LanesDown(b), MASK);
    XorQuad(XorQuad(XorQuad(a, BytesUp(a)), BytesDown(c)), XorQuad(b1, LanesUp(d)))
  }

  // ---------- The recurrence, bit by bit ----------

  /** Bit k of a 128-bit word, counted from the lowest. */
  predicate BitOf(w: Quad, k: bv32) {
    BitIn32(LaneNo(w, k >> 5), k & 31)
  }

  predicate BitIn32(x: bv32, j: bv32)
    requires j < 32
  {
    (x >> j) & 1 == 1
  }

  function LaneNo(w: Quad, l: bv32): bv32 {
    if l == 0 then w.x0 else if l == 1 then w.x1 else if l == 2 then w.x2 else w.x3
  }

  /** The lane that bit k is in. */
  lemma LaneIs(w: Quad, k: bv32)
    ensures k >> 5 == 0 ==> BitOf(w, k) == BitIn32(w.x0, k & 31)
    ensures k >> 5 == 1 ==> BitOf(w, k) == BitIn32(w.x1, k & 31)
    ensures k >> 5 == 2 ==> BitOf(w, k) == BitIn32(w.x2, k & 31)
    ensures k >> 5 !in {0, 1, 2} ==> BitOf(w, k) == BitIn32(w.x3, k & 31)
  {
    hide BitIn32;
  }

  lemma XorBit(a: Quad, b: Quad, k: bv32)
    ensures BitOf(XorQuad(a, b), k) == (BitOf(a, k) != BitOf(b, k))
  {
    hide BitIn32, BitOf, LaneNo, Xor, And;
    LaneIs(a, k);
    LaneIs(b, k);
    LaneIs(XorQuad(a, b), k);
    if k >> 5 == 0 {
      XorBit32(a.x0, b.x0, k & 31);
    } else if k >> 5 == 1 {
      XorBit32(a.x1, b.x1, k & 31);
    } else if k >> 5 == 2 {
      XorBit32(a.x2, b.x2, k & 31);
    } else {
      XorBit32(a.x3, b.x3, k & 31);
    }
  }

  lemma RawXorBit(x: bv32, y: bv32, j: bv32)
    requires j < 32
    ensures BitIn32(x ^ y, j) == (BitIn32(x, j) != BitIn32(y, j))
  {
  }

  lemma XorBit32(x: bv32, y: bv32, j: bv32)
    requires j < 32
    ensures BitIn32(Xor(x, y), j) == (BitIn32(x, j) != BitIn32(y, j))
  {
    hide BitIn32;
    RawXorBit(x, y, j);
  }

  lemma AndBit(a: Quad, b: Quad, k: bv32)
    ensures BitOf(AndQuad(a, b), k) == (BitOf(a, k) && BitOf(b, k))
  {
    hide BitIn32, BitOf, LaneNo, Xor, And;
    LaneIs(a, k);
    LaneIs(b, k);
    LaneIs(AndQuad(a, b), k);
    if k >> 5 == 0 {
      AndBit32(a.x0, b.x0, k & 31);
    } else if k >> 5 == 1 {
      AndBit32(a.x1, b.x1, k & 31);
    } else if k >> 5 == 2 {
      AndBit32(a.x2, b.x2, k & 31);
    } else {
      AndBit32(a.x3, b.x3, k & 31);
    }
  }

  lemma RawAndBit(x: bv32, y: bv32, j: bv32)
    requires j < 32
    ensures BitIn32(x & y, j) == (BitIn32(x, j) && BitIn32(y, j))
  {
  }

  lemma AndBit32(x: bv32, y: bv32, j: bv32)
    requires j < 32
    ensures BitIn32(And(x, y), j) == (BitIn32(x, j) && BitIn32(y, j))
  {
    hide BitIn32;
    RawAndBit(x, y, j);
  }

  lemma UpBit(a: Quad, k: bv32)
    requires k < 128
    ensures BitOf(BytesUp(a), k) == (k >= 24 && BitOf(a, k - 24))
  {
  }

  lemma DownBit(a: Quad, k: bv32)
    requires k < 128
    ensures BitOf(BytesDown(a), k) == (k < 104 && BitOf(a, k + 24))
  {
  }

  lemma LanesDownBit(b: Quad, k: bv32)
    requires k < 128
    ensures BitOf(LanesDown(b), k) == (k & 31 < 25 && BitOf(b, k + 7))
  {
  }

  lemma LanesUpBit(d: Quad, k: bv32)
    requires k < 128
    ensures BitOf(LanesUp(d), k) == (k & 31 >= 14 && BitOf(d, k - 14))
  {
  }

  /** Bit k of the next word is the sum of five bits: of the oldest word at k and, moved up over the
      whole word, at k - 24; of the last but one, moved down over the whole word, at k + 24; of the
      middle one, moved down within its lane, at k + 7 where the mask lets it through; and of the
      last, moved up within its lane, at k - 14. */
  lemma RecursionBit(a: Quad, b: Quad, c: Quad, d: Quad, k: bv32)
    requires k < 128
    ensures BitOf(Recursion(a, b, c, d), k) ==
      ((((BitOf(a, k)
      != (k >= 24 && BitOf(a, k - 24)))
      != (k < 104 && BitOf(c, k + 24)))
      != (k & 31 < 25 && BitOf(b, k + 7) && BitOf(Quad(0xefff_f7fb, 0xffff_ffef, 0xdfdf_bfff, 0x7fff_dbfd), k)))
      != (k & 31 >= 14 && BitOf(d, k - 14)))
  {
    hide BitOf, XorQuad, AndQuad, BytesUp, BytesDown, LanesDown, LanesUp;
    var b1, d1 := AndQuad(LanesDown(b), MASK), LanesUp(d);
    XorBit(a, BytesUp(a), k);
    XorBit(XorQuad(a, BytesUp(a)), BytesDown(c), k);
    XorBit(b1, d1, k);
    XorBit(XorQuad(XorQuad(a, BytesUp(a)), BytesDown(c)), XorQuad(b1, d1), k);
    UpBit(a, k);
    DownBit(c, k);
    AndBit(LanesDown(b), MASK, k);
    LanesDownBit(b, k);
    LanesUpBit(d, k);
  }

  /** Word n of the sequence that starts with `first`. */
  ghost function Term(first: seq<Quad>, n: nat): Quad
    requires |first| == N
    decreases n
  {
    if n < N then first[n]
    else Recursion(Term(first, n - N), Term(first, n - N + M), Term(first, n - 2), Term(first, n - 1))
  }

  lemma TermNext(first: seq<Quad>, n: nat)
    requires |first| == N && n >= 88
    ensures Term(first, n) == Recursion(Term(first, n - 88), Term(first, n - 20), Term(first, n - 2), Term(first, n - 1))
  {
    hide Recursion;
  }

  /** The 32-bit word k of the sequence. */
  ghost function Output(first: seq<Quad>, k: nat): bv32
    requires |first| == N
  {
    Lane(Term(first, k / 4), k % 4)
  }

  // ---------- Parity ----------

  /** Whether an odd number of the last n bits is set. */
  function Par(w: bv32, n: nat): bool {
    if n == 0 then false else Par(w, n - 1) != Odd(Halved(w, n - 1))
  }

  lemma {:induction false} ParXor(a: bv32, b: bv32, n: nat)
    ensures Par(Xor(a, b), n) == (Par(a, n) != Par(b, n))
  {
    hide Xor, Odd, Half;
    if n > 0 {
      ParXor(a, b, n - 1);
      HalvedXor(a, b, n - 1);
      XorBits(Halved(a, n - 1), Halved(b, n - 1));
    }
  }

  lemma {:induction false} HalvedXor(a: bv32, b: bv32, n: nat)
    ensures Halved(Xor(a, b), n) == Xor(Halved(a, n), Halved(b, n))
  {
    hide Xor, Odd, Half;
    if n > 0 {
      HalvedXor(a, b, n - 1);
      XorBits(Halved(a, n - 1), Halved(b, n - 1));
    }
  }

  lemma {:induction false} ParSplit(w: bv32, m: nat, n: nat)
    ensures Par(w, m + n) == (Par(w, m) != Par(Halved(w, m), n))
  {
    hide Odd, Half, Halved;
    if n > 0 {
      ParSplit(w, m, n - 1);
      HalvedAdd(w, m, n - 1);
      assert m + n - 1 == m + (n - 1);
    }
  }

  /** Shifts by the powers of two used. */
  lemma HalvedShift(w: bv32, i: nat)
    requires i in {1, 2, 4, 8, 16}
    ensures Halved(w, i) == CrcTables.Down(w, i)
  {
    hide Halved, Half, CrcTables.Down;
    HalvedNext(w, 0); HalvedNext(w, 1); HalvedNext(w, 2); HalvedNext(w, 3);
    FewHalves(w);
    CrcTables.HalvedEight(w);
    HalvedAdd(w, 8, 8);
    CrcTables.HalvedEight(Halved(w, 8));
    CrcTables.DownAgain(w);
  }

  lemma TwoHalves(w: bv32)
    ensures Half(Half(w)) == CrcTables.Down(w, 2)
  {
  }

  lemma FourHalves(w: bv32)
    ensures Half(Half(Half(Half(w)))) == CrcTables.Down(w, 4)
  {
  }

  lemma FewHalves(w: bv32)
    ensures Half(w) == CrcTables.Down(w, 1) && Half(Half(w)) == CrcTables.Down(w, 2)
    ensures Half(Half(Half(Half(w)))) == CrcTables.Down(w, 4)
  {
    hide *;
    OneHalf(w);
    TwoHalves(w);
    FourHalves(w);
  }

  lemma OneHalf(w: bv32)
    ensures Half(w) == CrcTables.Down(w, 1)
  {
  }

  /** temp ^= temp >> i for 16, 8, 4, 2 and 1: the last bit is the parity of all. */
  method Fold(temp0: bv32) returns (temp: bv32)
    ensures Odd(temp) == Par(temp0, 32)
  {
    hide Xor, Odd, Half, Halved, CrcTables.Down, Par;
    temp := temp0;
    var i := 16;
    while i > 0
      invariant i in {0, 1, 2, 4, 8, 16}
      invariant Par(temp, if i == 0 then 1 else 2 * i) == Par(temp0, 32)
    {
      HalvedShift(temp, i);
      ParXor(temp, Halved(temp, i), i);
      ParSplit(temp, i, i);
      temp := Xor(temp, CrcTables.Down(temp, i));
      i := i / 2;
    }
    ParOneBit(temp);
  }

  lemma ParOneBit(w: bv32)
    ensures Par(w, 1) == Odd(w)
  {
    assert Halved(w, 0) == w;
    assert Par(w, 0) == false;
  }

  /** The bits of the first word that count for the certification, added up. */
  function Checked(w: Quad): bv32 {
    Xor(Xor(Xor(And(PARITY.x0, w.x0), And(PARITY.x1, w.x1)), And(PARITY.x2, w.x2)), And(PARITY.x3, w.x3))
  }

  function And(a: bv32, b: bv32): bv32 { a & b }

  /** They are in the lowest lane and the two upper ones. */
  lemma CheckedWords(w: Quad)
    ensures Checked(w) == (w.x0 & 1) ^ (w.x2 & 0xe814_8000) ^ (w.x3 & 0xd0c7_afa3)
  {
  }

  /** The period is certified when their parity is odd. */
  predicate Certified(w: Quad) {
    Par(Checked(w), 32)
  }

  lemma {:induction false} ParOfOne(n: nat)
    requires n > 0
    ensures Par(1, n) && Halved(1, n) == 0
  {
    hide Odd, Half;
    OneHalved();
    if n == 1 {
      ParOneBit(1);
      HalvedNext(1, 0);
    } else {
      ParOfOne(n - 1);
    }
  }

  lemma OneHalved()
    ensures Odd(1) && Half(1) == 0 && !Odd(0) && Half(0) == 0
  {
  }

  lemma FlipOne(x: bv32)
    ensures And(1, Xor(x, 1)) == Xor(And(1, x), 1) && PARITY.x0 == 1
  {
  }

  /** Flipping the first bit of the vector's first word changes the parity. */
  lemma Flipped(w: Quad)
    ensures Certified(w.(x0 := Xor(w.x0, 1))) == !Certified(w)
  {
    hide Xor, Par, PARITY, And;
    var a, b, c, d := And(PARITY.x0, w.x0), And(PARITY.x1, w.x1), And(PARITY.x2, w.x2), And(PARITY.x3, w.x3);
    FlipOne(w.x0);
    MoveOut(a, b, c, d);
    ParXor(Checked(w), 1, 32);
    ParOfOne(32);
  }

  lemma MoveOut(a: bv32, b: bv32, c: bv32, d: bv32)
    ensures Xor(Xor(Xor(Xor(a, 1), b), c), d) == Xor(Xor(Xor(Xor(a, b), c), d), 1)
  {
    hide Xor;
    SwapLast(a, 1, b);
    SwapLast(Xor(a, b), 1, c);
    SwapLast(Xor(Xor(a, b), c), 1, d);
  }

  lemma SwapLast(a: bv32, u: bv32, b: bv32)
    ensures Xor(Xor(a, u), b) == Xor(Xor(a, b), u)
  {
    hide Xor;
    XorLaws(a, u, b);
    XorLaws(a, b, u);
    XorLaws(u, b, 0);
  }

  // ---------- Seeds ----------

  /** The 32-bit words that RandomInit fills the vector with. */
  function SeedWord(seed: bv32, i: nat): bv32 {
    if i == 0 then seed
    else
      NextSeed(SeedWord(seed, i - 1), i)
  }

  function NextSeed(y: bv32, i: nat): bv32 {
    Mixed(y) + (i % 0x1_0000_0000) as bv32
  }

  function Mixed(y: bv32): bv32 {
    1812433253 * (y ^ (y >> 30))
  }

  lemma SeedNext(seed: bv32, i: nat)
    ensures SeedWord(seed, 0) == seed && (i > 0 ==> SeedWord(seed, i) == NextSeed(SeedWord(seed, i - 1), i))
  {
    hide NextSeed;
  }

  /** The first words from the seed 5489 are those of the Mersenne Twister, which starts in the same
      way. */
  lemma SeedWords()
    ensures SeedWord(5489, 1) == 1301868182 && SeedWord(5489, 2) == 2938499221 && SeedWord(5489, 3) == 2950281878
  {
    hide NextSeed, SeedWord;
    SeedNext(5489, 1);
    SeedNext(5489, 2);
    SeedNext(5489, 3);
    FirstSeed();
    SecondSeed();
    ThirdSeed();
  }

  lemma SmallWords()
    ensures (1 % 0x1_0000_0000) as bv32 == 1 && (2 % 0x1_0000_0000) as bv32 == 2 && (3 % 0x1_0000_0000) as bv32 == 3
  {
  }

  lemma FirstSeed()
    ensures NextSeed(5489, 1) == 1301868182
  {
    hide Mixed;
    FirstMix();
    SmallWords();
  }

  lemma FirstMix()
    ensures Mixed(5489) == 1301868181
  {
  }

  lemma SecondSeed()
    ensures NextSeed(1301868182, 2) == 2938499221
  {
    hide Mixed;
    SecondMix();
    SmallWords();
  }

  lemma SecondMix()
    ensures Mixed(1301868182) == 2938499219
  {
  }

  lemma ThirdSeed()
    ensures NextSeed(2938499221, 3) == 2950281878
  {
    hide Mixed;
    ThirdMix();
    SmallWords();
  }

  lemma ThirdMix()
    ensures Mixed(2938499221) == 2950281875
  {
  }

  lemma FirstParityBit()
    ensures Lane(PARITY, 0) & 1 != 0 && Lane(PARITY, 0) != 0
  {
  }

  // ---------- The generator ----------

  class SfmtRand {
    const state: array<Quad>
    var ix: nat
    /** The state vector after seeding, how often it has been renewed, and how many 32-bit words
        have been taken or passed over. */
    ghost var first: seq<Quad>
    ghost var rounds: nat
    ghost var used: nat

    /** RandomInit, and Init2: the vector is filled from the seed, and its first bit changed where
        that is needed to certify the period. */
    constructor (seed: bv32)
      ensures Valid() && used == 0 && Certified(first[0])
      ensures forall i :: 1 <= i < 4 * N ==> Lane(first[i / 4], i % 4) == SeedWord(seed, i)
      ensures first[0].x0 == seed || first[0].x0 == Xor(seed, 1)
    {
      hide Recursion, SeedWord, Certified, Xor, Lane, Term, Renewing;
      state := new Quad[N];
      ix, first, rounds, used := 0, [], 0, 0;
      new;
      Fill(seed);
      ghost var filled := state[..];
      Certify();
      Seeded(filled, state[..], seed);
      Start();
      Generate();
    }

    /** The vector as it will be taken for the beginning of the sequence. */
    ghost method Start()
      requires state.Length == N && rounds == 0
      modifies this`first
      ensures first == state[..] && Renewing(N * rounds, 0)
    {
      hide Recursion;
      first := state[..];
    }

    static lemma Seeded(filled: seq<Quad>, s: seq<Quad>, seed: bv32)
      requires |filled| == |s| == N && s[1..] == filled[1..] && (s[0] == filled[0] || s[0] == filled[0].(x0 := Xor(filled[0].x0, 1)))
      requires forall i :: 0 <= i < 4 * N ==> Lane(filled[i / 4], i % 4) == SeedWord(seed, i)
      ensures forall i :: 1 <= i < 4 * N ==> Lane(s[i / 4], i % 4) == SeedWord(seed, i)
      ensures s[0].x0 == seed || s[0].x0 == Xor(seed, 1)
    {
      hide NextSeed, Xor;
      SeedNext(seed, 0);
      assert Lane(filled[0 / 4], 0 % 4) == seed;
      forall i | 1 <= i < 4 * N ensures Lane(s[i / 4], i % 4) == SeedWord(seed, i) {
        if i >= 4 {
          assert s[i / 4] == s[1..][i / 4 - 1] == filled[1..][i / 4 - 1];
        } else {
          assert i / 4 == 0 && i % 4 == i;
        }
      }
    }

    method Fill(seed: bv32)
      requires state.Length == N
      modifies state
      ensures forall i :: 0 <= i < 4 * N ==> Lane(state[i / 4], i % 4) == SeedWord(seed, i)
    {
      hide SeedWord, NextSeed, Lane;
      SeedNext(seed, 0);
      var y := seed;
      state[0] := Put(state[0], 0, y);
      var i := 1;
      while i < N * 4
        invariant 1 <= i <= N * 4 && y == SeedWord(seed, i - 1)
        invariant forall j :: 0 <= j < i ==> Lane(state[j / 4], j % 4) == SeedWord(seed, j)
      {
        SeedNext(seed, i);
        y := NextSeed(y, i);
        state[i / 4] := Put(state[i / 4], i % 4, y);
        i := i + 1;
      }
    }

    /** Init2 up to its call of Generate. */
    method Certify()
      requires state.Length == N
      modifies state
      ensures Certified(state[0]) && state[1..] == old(state[1..])
      ensures state[0] == old(state[0]) || state[0] == old(state[0]).(x0 := Xor(old(state[0]).x0, 1))
    {
      hide Checked, Xor, Odd, Par, PARITY;
      var temp := Fold(Checked(state[0]));
      if !Odd(temp) {
        Flipped(state[0]);
        FirstParityBit();
        var i, done := 0, false;
        while i < 4 && !done
          invariant 0 <= i <= 4 && (!done ==> i == 0 && state[..] == old(state[..]))
          invariant done ==> state[1..] == old(state[1..]) && state[0] == old(state[0]).(x0 := Xor(old(state[0]).x0, 1))
          decreases 4 - i, !done
        {
          if Lane(PARITY, i) != 0 {
            var j: bv32 := 1;
            while j != 0 && !done
              invariant i == 0 && (!done ==> j == 1 && state[..] == old(state[..]))
              invariant done ==> state[1..] == old(state[1..]) && state[0] == old(state[0]).(x0 := Xor(old(state[0]).x0, 1))
              decreases !done
            {
              if Lane(PARITY, i) & j != 0 {
                state[0] := Put(state[0], i, Xor(Lane(state[0], i), j));
                done := true;
              } else {
                j := Up(j);
              }
            }
          }
          if !done {
            i := i + 1;
          }
        }
      }
    }

    /** The vector holds N consecutive words of the sequence, and ix points to the next output. */
    ghost predicate Valid()
      reads this, state
    {
      && 1 <= rounds && ix <= 4 * N && Renewing(N * rounds, 0)
      && used == 4 * N * (rounds - 1) + ix
    }

    /** Half way through Generate: entries below i are the next words already. */
    ghost predicate Renewing(base: nat, i: nat)
      reads this`first, state
    {
      && state.Length == N && |first| == N && i <= N
      && (forall j :: 0 <= j < i ==> state[j] == Term(first, base + N + j))
      && (forall j :: i <= j < N ==> state[j] == Term(first, base + j))
    }

    /** One word of Generate, from the entry M further on, cyclically: an old one or a new one. */
    method Renew(i: nat, m: nat, r1: Quad, r2: Quad, ghost base: nat) returns (r: Quad)
      requires Renewing(base, i) && i < N && m == (if i < N - M then i + M else i + M - N)
      requires r1 == Term(first, base + N + i - 2) && r2 == Term(first, base + N + i - 1)
      modifies state
      ensures Renewing(base, i + 1) && r == Term(first, base + N + i)
    {
      hide Term, Recursion;
      TermNext(first, base + N + i);
      assert state[m] == Term(first, base + i + M);
      r := Recursion(state[i], state[m], r1, r2);
      state[i] := r;
    }

    /** Generate. */
    method Generate()
      requires Renewing(N * rounds, 0)
      modifies this`ix, this`rounds, state
      ensures rounds == old(rounds) + 1 && ix == 0 && Renewing(N * rounds, 0)
    {
      hide Term, Recursion;
      ghost var base := N * rounds;
      var r1, r2 := state[N - 2], state[N - 1];
      var i := 0;
      while i < N - M
        invariant 0 <= i <= N - M && Renewing(base, i)
        invariant r1 == Term(first, base + N + i - 2) && r2 == Term(first, base + N + i - 1)
        modifies state
      {
        var r := Renew(i, i + M, r1, r2, base);
        r1, r2, i := r2, r, i + 1;
      }
      while i < N
        invariant N - M <= i <= N && Renewing(base, i)
        invariant r1 == Term(first, base + N + i - 2) && r2 == Term(first, base + N + i - 1)
        modifies state
      {
        var r := Renew(i, i + M - N, r1, r2, base);
        r1, r2, i := r2, r, i + 1;
      }
      ix, rounds := 0, rounds + 1;
    }

    /** The 32-bit word k of the state vector. */
    method At(k: nat) returns (y: bv32)
      requires Renewing(N * rounds, 0) && k < 4 * N
      ensures y == Output(first, 4 * N * rounds + k)
    {
      hide Term, Recursion, Lane;
      y := Lane(state[k / 4], k % 4);
      assert (4 * N * rounds + k) / 4 == N * rounds + k / 4 && (4 * N * rounds + k) % 4 == k % 4;
    }

    /** BRandom: the words of the sequence one after another. */
    method BRandom() returns (y: bv32)
      requires Valid()
      modifies this, state
      ensures Valid() && first == old(first) && used == old(used) + 1 && y == Output(first, 4 * N + old(used))
    {
      hide Output, Renewing;
      if ix >= N * 4 {
        Generate();
      }
      y := At(ix);
      ix, used := ix + 1, used + 1;
    }

    /** URandom: a word of the sequence is used only when the range has more than one number. */
    method URandom(min: int, max: int) returns (r: int)
      requires Valid() && 0 <= min < TWO32 && 0 <= max < TWO32
      modifies this, state
      ensures Valid() && first == old(first) && used == old(used) + (if max <= min then 0 else 1)
      ensures r == UValue(min, max, Output(first, 4 * N + old(used)) as int)
    {
      hide Output, Renewing, Valid, Scaled;
      if max <= min {
        return if max == min then min else 0;
      }
      var y := BRandom();
      var interval := (max - min + 1) % TWO32;
      r := (Scaled(y as int, interval) + min) % TWO32;
    }

    /** IRandom, where the interval is in range. */
    method IRandom(min: int, max: int) returns (r: Int)
      requires Valid() && -0x8000_0000 <= min < 0x8000_0000 && -0x8000_0000 <= max < 0x8000_0000
      modifies this, state
      ensures Valid() && first == old(first)
      ensures used == old(used) + (if max <= min || r.Overflow? then 0 else 1)
      ensures r == IValue(min, max, Output(first, 4 * N + old(used)) as int)
    {
      hide Output, Renewing, Valid, Scaled;
      if max <= min {
        return Defined(if max == min then min else -0x8000_0000);
      }
      if max - min + 1 >= 0x8000_0000 {
        return Overflow;
      }
      var y := BRandom();
      r := Defined(Scaled(y as int, max - min + 1) + min);
    }

    /** The two words that Random makes a number of.  When only one is left in the vector it is
        passed over. */
    method TwoWords() returns (low: bv32, high: bv32)
      requires Valid()
      modifies this, state
      ensures Valid() && first == old(first)
      ensures used == old(used) + (if old(ix) == 4 * N - 1 then 3 else 2)
      ensures low == Output(first, 4 * N + used - 2) && high == Output(first, 4 * N + used - 1)
    {
      hide Output, Renewing;
      if ix >= N * 4 - 1 {
        used := used + (N * 4 - ix);
        Generate();
      }
      low := At(ix);
      high := At(ix + 1);
      ix, used := ix + 2, used + 2;
    }
  }

  // ---------- Random numbers in a range ----------

  const TWO32 := 0x1_0000_0000

  /** The upper 32 bits of random bits times interval. */
  function Scaled(y: int, interval: int): (r: int)
    requires 0 <= y < TWO32 && 0 <= interval < TWO32
  {
    y * interval / TWO32
  }

  lemma ScaledBelow(y: int, interval: int)
    requires 0 <= y < TWO32 && 0 < interval < TWO32
    ensures 0 <= Scaled(y, interval) < interval
  {
    MulMonotone(y, TWO32 - 1, interval);
    MulMonotone(0, y, interval);
    QuotientBelow(y * interval, interval);
  }

  lemma QuotientBelow(p: int, m: int)
    requires 0 <= p < TWO32 * m
    ensures 0 <= p / TWO32 < m
  {
  }

  lemma ScaledOrder(y: int, z: int, interval: int)
    requires 0 <= y <= z < TWO32 && 0 <= interval < TWO32
    ensures Scaled(y, interval) <= Scaled(z, interval)
  {
    MulMonotone(y, z, interval);
    QuotientOrder(y * interval, z * interval);
  }

  lemma QuotientOrder(p: int, q: int)
    requires p <= q
    ensures p / TWO32 <= q / TWO32
  {
  }

  /** Every number below the interval is reached. */
  lemma ScaledOnto(v: int, interval: int) returns (y: int)
    requires 0 <= v < interval < TWO32
    ensures 0 <= y < TWO32 && Scaled(y, interval) == v
  {
    y := (v * TWO32 + interval - 1) / interval;
    var p := v * TWO32 + interval - 1;
    DivideBy(p, interval);
    MulMonotone(v + 1, interval, TWO32);
    if y >= TWO32 {
      MulMonotone(TWO32, y, interval);
    }
    ExactQuotient(y * interval, v);
  }

  lemma DivideBy(p: int, m: int)
    requires 0 < m && 0 <= p
    ensures p - m < (p / m) * m <= p && 0 <= p / m
  {
  }

  lemma ExactQuotient(p: int, v: int)
    requires v * TWO32 <= p < v * TWO32 + TWO32
    ensures p / TWO32 == v
  {
  }

  /** URandom, with y for the random bits. */
  function UValue(min: int, max: int, y: int): int
    requires 0 <= min < TWO32 && 0 <= max < TWO32 && 0 <= y < TWO32
  {
    if max <= min then if max == min then min else 0
    else (Scaled(y, (max - min + 1) % TWO32) + min) % TWO32
  }

  ghost predicate UOccurs(min: int, max: int, x: int)
    requires 0 <= min < TWO32 && 0 <= max < TWO32
  {
    exists y :: 0 <= y < TWO32 && UValue(min, max, y) == x
  }

  /** The result lies in the range; and all of the range can occur exactly when it is not the whole
      of 32 bits, where the interval wraps to zero and only `min` occurs. */
  lemma UValueRange(min: int, max: int)
    requires 0 <= min <= max < TWO32
    ensures forall y :: 0 <= y < TWO32 ==> min <= UValue(min, max, y) <= max
    ensures forall y, z :: 0 <= y <= z < TWO32 ==> UValue(min, max, y) <= UValue(min, max, z)
    ensures (forall x :: min <= x <= max ==> UOccurs(min, max, x)) <==> !(min == 0 && max == TWO32 - 1)
  {
    hide Scaled, UValue;
    if min == 0 && max == TWO32 - 1 {
      forall y | 0 <= y < TWO32 ensures UValue(min, max, y) == 0 {
        WholeRange(y);
      }
      assert !UOccurs(min, max, 1);
    } else if min < max {
      forall y | 0 <= y < TWO32 ensures min <= UValue(min, max, y) <= max {
        PartRange(min, max, y);
        ScaledBelow(y, max - min + 1);
      }
      forall y, z | 0 <= y <= z < TWO32 ensures UValue(min, max, y) <= UValue(min, max, z) {
        PartRange(min, max, y);
        PartRange(min, max, z);
        ScaledOrder(y, z, max - min + 1);
      }
      forall x | min <= x <= max ensures UOccurs(min, max, x) {
        var y := ScaledOnto(x - min, max - min + 1);
        PartRange(min, max, y);
        assert UValue(min, max, y) == x;
      }
    } else {
      forall y | 0 <= y < TWO32 ensures UValue(min, max, y) == min {
        OneNumber(min, y);
      }
      assert UValue(min, max, 0) == min;
    }
  }

  lemma OneNumber(min: int, y: int)
    requires 0 <= min < TWO32 && 0 <= y < TWO32
    ensures UValue(min, min, y) == min
  {
  }

  lemma PartRange(min: int, max: int, y: int)
    requires 0 <= min < max < TWO32 && max - min + 1 < TWO32 && 0 <= y < TWO32
    ensures UValue(min, max, y) == Scaled(y, max - min + 1) + min
  {
    hide Scaled;
    ScaledBelow(y, max - min + 1);
  }

  lemma WholeRange(y: int)
    requires 0 <= y < TWO32
    ensures UValue(0, TWO32 - 1, y) == 0
  {
    assert y * 0 == 0;
  }

  datatype Int = Defined(value: int) | Overflow

  /** IRandom on signed 32-bit numbers: max - min + 1 may leave their range. */
  function IValue(min: int, max: int, y: int): Int
    requires -0x8000_0000 <= min < 0x8000_0000 && -0x8000_0000 <= max < 0x8000_0000 && 0 <= y < TWO32
  {
    if max <= min then if max == min then Defined(min) else Defined(-0x8000_0000)
    else if max - min + 1 >= 0x8000_0000 then Overflow
    else Defined(Scaled(y, max - min + 1) + min)
  }

  ghost predicate IOccurs(min: int, max: int, x: int)
    requires -0x8000_0000 <= min < 0x8000_0000 && -0x8000_0000 <= max < 0x8000_0000
  {
    exists y :: 0 <= y < TWO32 && IValue(min, max, y) == Defined(x)
  }

  /** The interval stays in range exactly for max - min < 2^31 - 1, and then the results are all of
      the range. */
  lemma IValueRange(min: int, max: int)
    requires -0x8000_0000 <= min <= max < 0x8000_0000
    ensures max - min < 0x7fff_ffff <==> forall y :: 0 <= y < TWO32 ==> IValue(min, max, y).Defined?
    ensures max - min < 0x7fff_ffff ==> forall y :: 0 <= y < TWO32 ==> min <= IValue(min, max, y).value <= max
    ensures max - min < 0x7fff_ffff ==>
      forall y, z :: 0 <= y <= z < TWO32 ==> IValue(min, max, y).value <= IValue(min, max, z).value
    ensures max - min < 0x7fff_ffff ==> forall x :: min <= x <= max ==> IOccurs(min, max, x)
  {
    assert IValue(min, max, 0).Defined? <==> max - min < 0x7fff_ffff;
    if min < max && max - min < 0x7fff_ffff {
      forall y | 0 <= y < TWO32 ensures min <= IValue(min, max, y).value <= max {
        ScaledBelow(y, max - min + 1);
      }
      forall y, z | 0 <= y <= z < TWO32 ensures IValue(min, max, y).value <= IValue(min, max, z).value {
        ScaledOrder(y, z, max - min + 1);
      }
      forall x | min <= x <= max ensures IOccurs(min, max, x) {
        var y := ScaledOnto(x - min, max - min + 1);
        assert IValue(min, max, y) == Defined(x);
      }
    } else if min == max {
      assert IValue(min, max, 0) == Defined(min);
    }
  }
}
