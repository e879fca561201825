/** crc32_combine: the checksum of two pieces from those of the pieces, by the powers of the
    operator that feeds one zero bit (dep/zlib/crc32.c:339-423). */
module CrcCombine {
  import opened Crc32
  import CrcTables

  // ---------- Words as sums of single bits ----------

  function Up(w: bv32): bv32 { w << 1 }

  function Raised(w: bv32, n: nat): bv32 {
    if n == 0 then w else Up(Raised(w, n - 1))
  }

  /** The word whose only bit is bit n. */
  function UnitAt(n: nat): bv32 {
    Raised(1, n)
  }

  lemma UpXor(a: bv32, b: bv32)
    ensures Up(Xor(a, b)) == Xor(Up(a), Up(b)) && Up(0) == 0
  {
  }

  lemma LastBit(w: bv32)
    ensures w == Xor(Unit(Odd(w)), Up(Half(w)))
  {
  }

  lemma {:induction false} RaisedXor(a: bv32, b: bv32, n: nat)
    ensures Raised(Xor(a, b), n) == Xor(Raised(a, n), Raised(b, n)) && Raised(0, n) == 0
  {
    hide Up, Xor;
    if n > 0 {
      RaisedXor(a, b, n - 1);
      UpXor(Raised(a, n - 1), Raised(b, n - 1));
    }
  }

  lemma {:induction false} RaisedUp(w: bv32, n: nat)
    ensures Raised(Up(w), n) == Raised(w, n + 1)
  {
    hide Up;
    if n > 0 {
      RaisedUp(w, n - 1);
    }
  }

  // ---------- gf2_matrix_times ----------

  /** The sum of the columns named by the first i bits of v. */
  function Part(mat: seq<bv32>, v: bv32, i: nat): bv32
    requires |mat| == 32 && i <= 32
  {
    if i == 0 then 0 else Xor(Part(mat, v, i - 1), if Odd(Halved(v, i - 1)) then mat[i - 1] else 0)
  }

  lemma PartNext(mat: seq<bv32>, v: bv32, i: nat)
    requires |mat| == 32 && i < 32
    ensures Part(mat, v, 0) == 0 && Part(mat, v, i + 1) == Xor(Part(mat, v, i), if Odd(Halved(v, i)) then mat[i] else 0)
  {
    hide Xor, Odd, Halved;
  }

  /** Bits beyond the last one add nothing. */
  lemma {:induction false} PartEnd(mat: seq<bv32>, v: bv32, i: nat, j: nat)
    requires |mat| == 32 && i <= j <= 32 && Halved(v, i) == 0
    ensures Part(mat, v, j) == Part(mat, v, i) && Halved(v, j) == 0
  {
    hide Xor, Odd, Half;
    if i < j {
      PartEnd(mat, v, i, j - 1);
      ZeroWord();
      XorLaws(Part(mat, v, i), 0, 0);
    }
  }

  lemma ZeroWord()
    ensures !Odd(0) && Half(0) == 0 && Up(0) == 0 && Unit(false) == 0 && Unit(true) == 1
  {
  }

  lemma {:induction false} HalvedAdd(w: bv32, j: nat, k: nat)
    ensures Halved(w, j + k) == Halved(Halved(w, j), k)
  {
    hide Half;
    if k > 0 {
      HalvedAdd(w, j, k - 1);
      assert j + k - 1 == j + (k - 1);
    }
  }

  lemma DownFour(w: bv32)
    ensures ((((w >> 8) >> 8) >> 8) >> 8) == 0
  {
  }

  /** A word has thirty-two bits. */
  lemma HalvedAll(w: bv32)
    ensures Halved(w, 32) == 0
  {
    hide Halved, CrcTables.Down;
    CrcTables.HalvedEight(w);
    HalvedAdd(w, 8, 8);
    CrcTables.HalvedEight(Halved(w, 8));
    HalvedAdd(w, 16, 8);
    CrcTables.HalvedEight(Halved(w, 16));
    HalvedAdd(w, 24, 8);
    CrcTables.HalvedEight(Halved(w, 24));
    CrcTables.DownEight(w);
    CrcTables.DownEight(Halved(w, 8));
    CrcTables.DownEight(Halved(w, 16));
    CrcTables.DownEight(Halved(w, 24));
    DownFour(w);
  }

  /** gf2_matrix_times. */
  method MatrixTimes(mat: array<bv32>, vec: bv32) returns (sum: bv32)
    requires mat.Length == 32
    ensures sum == Part(mat[..], vec, 32)
  {
    hide Xor, Odd, Half, Halved, Part;
    sum := 0;
    var v, i := vec, 0;
    HalvedAll(vec);
    HalvedNext(vec, 0);
    PartNext(mat[..], vec, 0);
    while v != 0
      invariant 0 <= i <= 32 && v == Halved(vec, i) && sum == Part(mat[..], vec, i)
      decreases 32 - i
    {
      PartNext(mat[..], vec, i);
      HalvedNext(vec, i);
      XorLaws(sum, 0, 0);
      if Odd(v) {
        sum := Xor(sum, mat[i]);
      }
      v := Half(v);
      i := i + 1;
    }
    PartEnd(mat[..], vec, i, 32);
  }

  // ---------- Operators ----------

  /** The matrix of k steps of the register: column j is where bit j goes. */
  ghost predicate IsOperator(mat: seq<bv32>, k: nat) {
    |mat| == 32 && forall j :: 0 <= j < 32 ==> mat[j] == Steps(UnitAt(j), k)
  }

  /** Units alone make up a word. */
  function UnitSum(v: bv32, i: nat): bv32 {
    if i == 0 then 0 else Xor(UnitSum(v, i - 1), if Odd(Halved(v, i - 1)) then UnitAt(i - 1) else 0)
  }

  lemma {:induction false} UnitsMake(v: bv32, i: nat)
    ensures v == Xor(UnitSum(v, i), Raised(Halved(v, i), i))
  {
    hide Xor, Odd, Half, Up, Unit;
    if i == 0 {
      XorLaws(0, v, 0);
      XorLaws(v, 0, 0);
    } else {
      UnitsMake(v, i - 1);
      var h := Halved(v, i - 1);
      LastBit(h);
      RaisedXor(Unit(Odd(h)), Up(Half(h)), i - 1);
      RaisedUp(Half(h), i - 1);
      ZeroWord();
      RaisedXor(0, 0, i - 1);
      XorLaws(UnitSum(v, i - 1), if Odd(h) then UnitAt(i - 1) else 0, Raised(Halved(v, i), i));
    }
  }

  lemma {:induction false} OperatorPart(mat: seq<bv32>, k: nat, v: bv32, i: nat)
    requires IsOperator(mat, k) && i <= 32
    ensures Part(mat, v, i) == Steps(UnitSum(v, i), k)
  {
    hide Xor, Odd, Halved, Steps, UnitAt;
    StepsZero(k);
    if i > 0 {
      OperatorPart(mat, k, v, i - 1);
      StepsXor(UnitSum(v, i - 1), if Odd(Halved(v, i - 1)) then UnitAt(i - 1) else 0, k);
    }
  }

  /** The matrix applied to a register takes it k steps on. */
  lemma OperatorTimes(mat: seq<bv32>, k: nat, v: bv32)
    requires IsOperator(mat, k)
    ensures Part(mat, v, 32) == Steps(v, k)
  {
    hide *;
    OperatorSize(mat, k);
    OperatorPart(mat, k, v, 32);
    UnitsMake(v, 32);
    HalvedAll(v);
    RaisedXor(0, 0, 32);
    XorLaws(UnitSum(v, 32), 0, 0);
  }

  lemma OperatorSize(mat: seq<bv32>, k: nat)
    requires IsOperator(mat, k)
    ensures |mat| == 32
  {
  }

  /** gf2_matrix_square: the operator of twice as many steps. */
  method MatrixSquare(square: array<bv32>, mat: array<bv32>, ghost k: nat)
    requires square.Length == mat.Length == 32 && square != mat && IsOperator(mat[..], k)
    modifies square
    ensures IsOperator(square[..], 2 * k)
  {
    hide Steps, UnitAt, Part;
    var n := 0;
    while n < 32
      invariant 0 <= n <= 32 && forall j :: 0 <= j < n ==> square[j] == Steps(UnitAt(j), 2 * k)
    {
      OperatorTimes(mat[..], k, mat[n]);
      StepsAdd(UnitAt(n), k, k);
      square[n] := MatrixTimes(mat, mat[n]);
      n := n + 1;
    }
  }

  // ---------- The first operator ----------

  /** All bits of a are bits of b. */
  predicate Within(a: bv32, b: bv32) { a & !b == 0 }

  lemma WithinTrans(a: bv32, b: bv32, c: bv32)
    requires Within(a, b) && Within(b, c)
    ensures Within(a, c)
  {
  }

  lemma WithinSelf(b: bv32)
    ensures Within(b, b) && Within(Up(Half(b)), b)
  {
  }

  lemma UpWithin(a: bv32, b: bv32)
    requires Within(a, b)
    ensures Within(Up(a), Up(b))
  {
  }

  /** The highest bit is not set. */
  predicate TopClear(w: bv32) { w & 0x8000_0000 == 0 }

  lemma HalfClear(w: bv32)
    ensures TopClear(Half(w))
  {
  }

  lemma WithinClear(a: bv32, b: bv32)
    requires Within(a, b) && TopClear(b)
    ensures TopClear(a)
  {
  }

  lemma HalvedClear(k: nat)
    ensures TopClear(Halved(0x4000_0000, k))
  {
    hide Half;
    if k > 0 {
      HalfClear(Halved(0x4000_0000, k - 1));
    }
  }

  lemma OneIsLast()
    ensures Halved(0x4000_0000, 30) == 1
  {
    hide CrcTables.Down;
    CrcTables.HalvedEight(0x4000_0000);
    CrcTables.DownEight(0x4000_0000);
    HalvedAdd(0x4000_0000, 8, 8);
    CrcTables.HalvedEight(0x40_0000);
    CrcTables.DownEight(0x40_0000);
    HalvedAdd(0x4000_0000, 16, 8);
    CrcTables.HalvedEight(0x4000);
    CrcTables.DownEight(0x4000);
    HalvedAdd(0x4000_0000, 24, 6);
    assert Halved(0x40, 3) == 8;
    assert Halved(0x40, 6) == 1;
  }

  lemma {:induction false} UnitWithin(n: nat)
    requires n <= 30
    ensures Within(UnitAt(n), Halved(0x4000_0000, 30 - n))
  {
    hide Half, Up, Halved, Within;
    if n == 0 {
      OneIsLast();
      WithinSelf(1);
    } else {
      UnitWithin(n - 1);
      HalvedNext(0x4000_0000, 30 - n);
      var b := Halved(0x4000_0000, 30 - n);
      UpWithin(UnitAt(n - 1), Half(b));
      WithinSelf(b);
      WithinTrans(Up(UnitAt(n - 1)), Up(Half(b)), b);
    }
  }

  /** One zero bit moves each bit one place down, and bit 0 out, which adds the polynomial. */
  lemma StepUnit(n: nat)
    requires n < 32
    ensures Step(UnitAt(n)) == if n == 0 then POLY else UnitAt(n - 1)
  {
    hide Raised, Within, TopClear, Up, Step;
    RaisedNext(1, if n == 0 then 0 else n - 1);
    if n == 0 {
      StepOne();
    } else {
      UnitWithin(n - 1);
      HalvedClear(30 - (n - 1));
      WithinClear(UnitAt(n - 1), Halved(0x4000_0000, 30 - (n - 1)));
      StepUp(UnitAt(n - 1));
    }
  }

  lemma RaisedNext(w: bv32, n: nat)
    ensures Raised(w, 0) == w && Raised(w, n + 1) == Up(Raised(w, n))
  {
  }

  lemma StepOne()
    ensures Step(1) == POLY
  {
  }

  lemma StepUp(w: bv32)
    requires TopClear(w)
    ensures Step(Up(w)) == w
  {
  }

  method FirstOperator(odd: array<bv32>)
    requires odd.Length == 32
    modifies odd
    ensures IsOperator(odd[..], 1)
  {
    hide Step, Raised, Up, POLY;
    odd[0] := POLY;
    var row: bv32 := 1;
    var n := 1;
    RaisedNext(1, 0);
    StepUnit(0);
    OneStep(UnitAt(0));
    while n < 32
      invariant 1 <= n <= 32 && row == UnitAt(n - 1)
      invariant forall j :: 0 <= j < n ==> odd[j] == Steps(UnitAt(j), 1)
    {
      StepUnit(n);
      OneStep(UnitAt(n));
      RaisedNext(1, n - 1);
      odd[n] := row;
      row := Up(row);
      n := n + 1;
    }
  }

  lemma OneStep(c: bv32)
    ensures Steps(c, 1) == Step(c)
  {
    hide Step;
    assert Steps(c, 0) == c;
  }

  // ---------- crc32_combine ----------

  /** crc1 taken over n zero bytes, and crc2 added. */
  function Joined(crc1: bv32, crc2: bv32, n: nat): bv32 {
    if n == 0 then crc1 else Xor(Steps(crc1, 8 * n), crc2)
  }

  /** The bits of n from the lowest on: half of n counts double. */
  lemma HalfCounts(n: nat, w: nat)
    ensures n * w == (n / 2) * (2 * w) + (n % 2) * w
    ensures n % 2 == 0 || n % 2 == 1
  {
  }

  /** Apply the operator for w zero bytes if the lowest bit of n is set: n * w bytes were still to
      come, and half as many of twice the weight are. */
  method ApplyBit(mat: array<bv32>, crc: bv32, n: nat, ghost crc1: bv32, ghost w: nat, ghost total: nat) returns (crc': bv32)
    requires mat.Length == 32 && IsOperator(mat[..], 8 * w) && n * w <= total && crc == Steps(crc1, 8 * (total - n * w))
    ensures (n / 2) * (2 * w) <= total && crc' == Steps(crc1, 8 * (total - (n / 2) * (2 * w)))
  {
    hide Steps, Part, IsOperator;
    HalfCounts(n, w);
    crc' := crc;
    if n % 2 == 1 {
      OperatorTimes(mat[..], 8 * w, crc);
      StepsAdd(crc1, 8 * (total - n * w), 8 * w);
      crc' := MatrixTimes(mat, crc);
    }
  }

  method Crc32Combine(crc1: bv32, crc2: bv32, length2: nat) returns (r: bv32)
    ensures r == Joined(crc1, crc2, length2)
  {
    hide Steps, IsOperator, Xor;
    if length2 == 0 {
      return crc1;
    }
    var even, odd := new bv32[32], new bv32[32];
    FirstOperator(odd);
    MatrixSquare(even, odd, 1);
    MatrixSquare(odd, even, 2);
    var crc, len2 := crc1, length2;
    ghost var w: nat := 1;
    NoSteps(crc1);
    while true
      invariant IsOperator(odd[..], 4 * w) && len2 * w <= length2 && crc == Steps(crc1, 8 * (length2 - len2 * w))
      invariant len2 > 0
      decreases len2
    {
      MatrixSquare(even, odd, 4 * w);
      crc := ApplyBit(even, crc, len2, crc1, w, length2);
      len2 := len2 / 2;
      if len2 == 0 {
        break;
      }
      MatrixSquare(odd, even, 8 * w);
      crc := ApplyBit(odd, crc, len2, crc1, 2 * w, length2);
      len2 := len2 / 2;
      w := 4 * w;
      if len2 == 0 {
        break;
      }
    }
    r := Xor(crc, crc2);
  }

  lemma NoSteps(c: bv32)
    ensures Steps(c, 0) == c
  {
  }

  // ---------- What it means ----------

  /** The register after b, started at c: c over as many zero bytes, and b alone. */
  lemma {:induction false} RegFrom(c: bv32, b: seq<bv8>)
    ensures Reg(c, b) == Xor(Steps(c, 8 * |b|), Reg(0, b))
  {
    hide Steps, Xor, Wide;
    NoSteps(c);
    if b == [] {
      XorLaws(c, 0, 0);
    } else {
      var n := |b| - 1;
      RegFrom(c, b[..n]);
      var x, y, z := Steps(c, 8 * n), Reg(0, b[..n]), Wide(b[n]);
      XorLaws(x, y, z);
      StepsXor(x, Xor(y, z), 8);
      StepsAdd(c, 8 * n, 8);
    }
  }

  lemma NotIsXor(c: bv32)
    ensures !c == Xor(c, 0xffff_ffff)
  {
  }

  /** The checksum of two pieces put together from those of the pieces. */
  lemma CombineConcat(start: bv32, a: seq<bv8>, b: seq<bv8>)
    ensures Joined(Crc(start, a), Crc(0, b), |b|) == Crc(start, a + b)
  {
    hide Steps, Xor, Reg;
    if b == [] {
      assert a + b == a;
    } else {
      var f: bv32 := 0xffff_ffff;
      var p, n := Reg(!start, a), 8 * |b|;
      RegConcat(!start, a, b);
      RegFrom(p, b);
      RegFrom(f, b);
      AllSet();
      StepsXor(p, f, n);
      NotIsXor(p);
      NotIsXor(Reg(f, b));
      NotIsXor(Reg(p, b));
      JoinSums(Steps(p, n), Steps(f, n), Reg(0, b), f);
    }
  }

  lemma AllSet()
    ensures !(0 as bv32) == 0xffff_ffff
  {
  }

  lemma JoinSums(p: bv32, s: bv32, z: bv32, f: bv32)
    ensures Xor(Xor(p, s), Xor(Xor(s, z), f)) == Xor(Xor(p, z), f)
  {
    hide Xor;
    XorLaws(Xor(p, s), Xor(s, z), f);
    XorLaws(p, s, Xor(s, z));
    XorLaws(s, s, z);
    XorLaws(z, 0, 0);
    XorLaws(0, z, 0);
  }
}
