/** What every section of a block is answered by, for all the bits it may hold
    (dep/bzip2/decompress.c:209-476): where the decoder goes on, and where it reports corrupt data. */
module BlockLaws {
  import opened Powers
  import opened BitStrings
  import opened CanonicalCodes
  import opened BlockFormat
  import opened BlockParser
  import opened BlockRoundTrip
  import opened BitWriter
  import MoveToFront
  import MtfEncoder
  import PrefixCodes

  // ---------- Being refused ----------

  /** From p, some first part of the bits s is corrupt data. */
  ghost predicate Rejects(p: Phase, s: seq<bool>) {
    Valid(p) && Run(p, s).0 == BadData
  }

  lemma LeadsRejects(p: Phase, s: seq<bool>)
    requires Leads(p, s, BadData)
    ensures Rejects(p, s)
  {
    hide Run, Valid;
  }

  lemma RejectsAfter(p: Phase, s: seq<bool>, q: Phase, t: seq<bool>)
    requires Leads(p, s, q) && Rejects(q, t)
    ensures Rejects(p, s + t)
  {
    hide Run, Valid;
    RunConcat(p, s, t);
    assert [] + t == t;
  }

  lemma RejectsOn(p: Phase, s: seq<bool>, rest: seq<bool>)
    requires Rejects(p, s)
    ensures Rejects(p, s + rest)
  {
    hide Valid, Need;
    RunConcat(p, s, rest);
  }

  // ---------- Section magics ----------

  const PI: seq<nat> := [0x31, 0x41, 0x59, 0x26, 0x53, 0x59]
  const SQRT_PI: seq<nat> := [0x17, 0x72, 0x45, 0x38, 0x50, 0x90]

  /** Where up to six bytes lead from the start of a section. */
  ghost function SectionPhase(bs: nat, t: seq<nat>): Phase {
    if t == PI then BlockSum(bs, 1, 0)
    else if t == SQRT_PI then EndSum(1, 0)
    else if t <= PI then BlockMagic(bs, |t| + 1)
    else if t <= SQRT_PI then EndMagic(bs, |t| + 1)
    else BadData
  }

  lemma SectionByte(bs: nat, t: seq<nat>, v: nat)
    requires |t| < 6 && v < 256 && (t <= PI || t <= SQRT_PI)
    ensures Leads(SectionPhase(bs, t), Bits(v, 8), SectionPhase(bs, t + [v]))
  {
    hide Leads, Bits;
    var p := SectionPhase(bs, t);
    OneByte(p, v);
    SectionStep(bs, t, v);
  }

  lemma SectionStep(bs: nat, t: seq<nat>, v: nat)
    requires |t| < 6 && v < 256 && (t <= PI || t <= SQRT_PI)
    ensures Valid(SectionPhase(bs, t)) && !Stopped(SectionPhase(bs, t)) && Need(SectionPhase(bs, t)) == 8 && v < Pow2(8)
    ensures Resume(SectionPhase(bs, t), v) == SectionPhase(bs, t + [v])
  {
    hide Pow2;
    Pow2Byte();
    PrefixNext(t, v, PI);
    PrefixNext(t, v, SQRT_PI);
    if t == [] {
      assert t + [v] == [v];
    } else {
      assert t <= PI ==> t[0] == PI[0];
      assert t <= SQRT_PI ==> t[0] == SQRT_PI[0];
      assert (t + [v])[0] == t[0];
    }
  }

  lemma PrefixNext(t: seq<nat>, v: nat, m: seq<nat>)
    requires |t| < |m|
    ensures t + [v] <= m <==> t <= m && v == m[|t|]
    ensures t + [v] == m <==> t <= m && v == m[|t|] && |t| + 1 == |m|
    ensures t != m
  {
    if t <= m {
      assert m[..|t| + 1] == t + [m[|t|]];
    }
    if t + [v] <= m {
      assert (t + [v])[..|t|] == t && (t + [v])[|t|] == v;
    }
    if t <= m && v == m[|t|] && |t| + 1 == |m| {
      assert m[..|m|] == m;
    }
  }

  /** A section starts with the bytes 31 41 59 26 53 59 of a block or 17 72 45 38 50 90 of the end,
      and is refused at the first byte that is neither's. */
  lemma {:induction false} SectionLaw(bs: nat, t: seq<nat>)
    requires |t| <= 6 && forall i :: 0 <= i < |t| ==> t[i] < 256
    ensures t <= PI || t <= SQRT_PI ==> Leads(BlockMagic(bs, 1), Bytes(t), SectionPhase(bs, t))
    ensures !(t <= PI || t <= SQRT_PI) ==> Rejects(BlockMagic(bs, 1), Bytes(t))
    decreases |t|
  {
    hide Leads, Rejects, Bytes, Bits, Valid;
    if t == [] {
      Stay(BlockMagic(bs, 1)) by { BlockStart(bs); }
      assert Bytes([]) == [] by { NoBytes(); }
    } else {
      var n := |t| - 1;
      SectionLaw(bs, t[..n]);
      BytesAppend(t[..n], t[n]);
      assert t[..n] + [t[n]] == t;
      if t[..n] <= PI || t[..n] <= SQRT_PI {
        SectionByte(bs, t[..n], t[n]);
        Then(BlockMagic(bs, 1), Bytes(t[..n]), SectionPhase(bs, t[..n]), Bits(t[n], 8), SectionPhase(bs, t));
        if !(t <= PI || t <= SQRT_PI) {
          LeadsRejects(BlockMagic(bs, 1), Bytes(t));
        }
      } else {
        RejectsOn(BlockMagic(bs, 1), Bytes(t[..n]), Bits(t[n], 8));
      }
    }
  }

  lemma BlockStart(bs: nat)
    ensures Valid(BlockMagic(bs, 1))
  {
  }

  lemma NoBytes()
    ensures Bytes([]) == []
  {
  }

  // ---------- The block header ----------

  /** Any checksum, randomised bit and pointer: only the pointer can be refused. */
  lemma HeaderLaw(bs: nat, crc: nat, rand: bool, orig: nat)
    requires crc < 0x1_0000_0000 && orig < 0x100_0000
    ensures Leads(BlockSum(bs, 1, 0), Word(crc) + [rand] + Bits(orig, 24),
                  if orig > 10 + 100000 * bs then BadData else Map16(Head(bs, crc, rand, orig), []))
  {
    hide Leads, Word, Bits;
    BlockSumParses(bs, crc);
    OneFlag(RandBit(bs, crc), rand);
    OriginParses(bs, crc, rand, orig);
    Then(BlockSum(bs, 1, 0), Word(crc), RandBit(bs, crc), [rand], Origin(Head(bs, crc, rand, 0), 1));
    Then(BlockSum(bs, 1, 0), Word(crc) + [rand], Origin(Head(bs, crc, rand, 0), 1), Bits(orig, 24),
         OriginEnd(Head(bs, crc, rand, orig)));
  }

  // ---------- The bytes in use ----------

  /** The flags of the groups that have any, from group i on. */
  ghost function Flags(u16: seq<bool>, u: seq<bool>, i: nat): seq<bool>
    requires |u16| == 16 && |u| == 256 && i <= 16
    decreases 16 - i
  {
    if i == 16 then [] else (if u16[i] then u[16 * i..16 * i + 16] else []) + Flags(u16, u, i + 1)
  }

  /** Bytes in use only in the groups that have flags. */
  ghost predicate Within(u16: seq<bool>, u: seq<bool>) {
    |u16| == 16 && |u| == 256 && forall k :: 0 <= k < 256 && u[k] ==> u16[k / 16]
  }

  /** Any sixteen group flags and any flags of these groups: refused exactly when no byte is in use. */
  lemma MappingLaw(h: Head, u16: seq<bool>, u: seq<bool>)
    requires Within(u16, u)
    ensures Leads(Map16(h, []), u16 + Flags(u16, u, 0), if true in u then Groups(h, u) else BadData)
  {
    hide Leads, Mapped, Flags;
    Map16Parses(h, u16, 0);
    assert u16[..0] == [] && u16[0..] == u16 && u[..0] == [];
    FlagsLead(h, u16, u, 0);
    Then(Map16(h, []), u16, Mapped(h, u16, []), Flags(u16, u, 0), MappingEnd(h, u));
  }

  ghost function MappingEnd(h: Head, u: seq<bool>): Phase {
    if true in u then Groups(h, u) else BadData
  }

  lemma {:induction false} FlagsLead(h: Head, u16: seq<bool>, u: seq<bool>, i: nat)
    requires Within(u16, u) && i <= 16
    ensures Leads(Mapped(h, u16, u[..16 * i]), Flags(u16, u, i), MappingEnd(h, u))
    decreases 16 - i
  {
    hide Leads, Mapped, MappingEnd;
    var now := u[..16 * i];
    if i == 16 {
      assert now == u;
      MappedLast(h, u16, u);
      Stay(MappingEnd(h, u));
    } else {
      FlagsLead(h, u16, u, i + 1);
      MappedInside(h, u16, now);
      if u16[i] {
        GroupParses(h, u16, u, i, 0);
        Then(Map(h, u16, now), u[16 * i..16 * i + 16], Mapped(h, u16, u[..16 * (i + 1)]), Flags(u16, u, i + 1),
             MappingEnd(h, u));
      } else {
        assert u[..16 * (i + 1)] == now + NoneUsed();
        assert [] + Flags(u16, u, i + 1) == Flags(u16, u, i + 1);
      }
    }
  }

  lemma MappedLast(h: Head, u16: seq<bool>, u: seq<bool>)
    requires |u16| == 16 && |u| == 256
    ensures Mapped(h, u16, u) == MappingEnd(h, u) && Valid(MappingEnd(h, u))
  {
    hide MtfEncoder.UsedBelow;
    NoneBelow(u, 256);
    assert u[..256] == u;
  }

  lemma {:induction false} NoneBelow(u: seq<bool>, k: nat)
    requires k <= |u|
    ensures MtfEncoder.UsedBelow(u, k) == 0 <==> true !in u[..k]
    decreases k
  {
    if k > 0 {
      NoneBelow(u, k - 1);
      assert u[..k] == u[..k - 1] + [u[k - 1]];
    }
  }

  // ---------- Tables and selectors ----------

  /** From two to six tables. */
  lemma TablesLaw(h: Head, u: seq<bool>, v: nat)
    requires |u| == 256 && true in u && v < 8
    ensures Leads(Groups(h, u), Bits(v, 3), if 2 <= v <= 6 then HowMany(h, u, v) else BadData)
  {
    hide Leads, Bits, AlphaSize;
    SomeUsed(u);
    Pow2Small();
    One(Groups(h, u), v, 3);
  }

  lemma SomeUsed(u: seq<bool>)
    requires |u| == 256 && true in u
    ensures AlphaSize(u) >= 3
  {
    hide MtfEncoder.UsedBelow;
    NoneBelow(u, 256);
    assert u[..256] == u;
  }

  /** At least one selector. */
  lemma CountLaw(h: Head, u: seq<bool>, n: nat, v: nat)
    requires |u| == 256 && true in u && 2 <= n <= 6 && v < 0x8000
    ensures Leads(HowMany(h, u, n), Bits(v, 15), if v >= 1 then Selector(h, u, n, v, [], 0) else BadData)
  {
    hide Leads, Bits, AlphaSize;
    SomeUsed(u);
    Pow2Small();
    One(HowMany(h, u, n), v, 15);
  }

  ghost function Ones(n: nat): (s: seq<bool>)
    ensures |s| == n
  {
    if n == 0 then [] else [true] + Ones(n - 1)
  }

  /** A selector that starts with as many ones as there are tables is refused; one that starts with
      fewer is Unary(j) with j below n, which BlockRoundTrip.UnaryParses takes. */
  lemma {:induction false} SelectorLaw(h: Head, u: seq<bool>, n: nat, count: nat, mtf: seq<nat>, j: nat)
    requires Valid(Selector(h, u, n, count, mtf, j))
    ensures Leads(Selector(h, u, n, count, mtf, j), Ones(n - j), BadData)
    decreases n - j
  {
    hide Leads, AlphaSize;
    var p := Selector(h, u, n, count, mtf, j);
    OneFlag(p, true);
    if j + 1 < n {
      SelectorLaw(h, u, n, count, mtf, j + 1);
      Then(p, [true], Selector(h, u, n, count, mtf, j + 1), Ones(n - j - 1), BadData);
    } else {
      assert [true] + Ones(0) == [true];
    }
  }

  /** The bits of a block up to its pointer, and up to the bytes in use. */
  ghost function HeadBits(crc: nat, rand: bool, orig: nat): seq<bool> {
    Bytes(PI) + (Word(crc) + [rand] + Bits(orig, 24))
  }

  ghost function MappedBits(crc: nat, rand: bool, orig: nat, u16: seq<bool>, u: seq<bool>): seq<bool>
    requires |u16| == 16 && |u| == 256
  {
    HeadBits(crc, rand, orig) + (u16 + Flags(u16, u, 0))
  }

  /** A block up to the number of selectors, whatever it holds: each field is refused by its own
      limits alone, and otherwise the selectors come next. */
  lemma HeaderExits(bs: nat, crc: nat, rand: bool, orig: nat, u16: seq<bool>, u: seq<bool>, v: nat, count: nat)
    requires crc < 0x1_0000_0000 && orig < 0x100_0000 && Within(u16, u) && v < 8 && count < 0x8000
    ensures orig > 10 + 100000 * bs ==> Rejects(BlockMagic(bs, 1), HeadBits(crc, rand, orig))
    ensures orig <= 10 + 100000 * bs && true !in u ==> Rejects(BlockMagic(bs, 1), MappedBits(crc, rand, orig, u16, u))
    ensures orig <= 10 + 100000 * bs && true in u && !(2 <= v <= 6) ==>
      Rejects(BlockMagic(bs, 1), MappedBits(crc, rand, orig, u16, u) + Bits(v, 3))
    ensures orig <= 10 + 100000 * bs && true in u && 2 <= v <= 6 && count == 0 ==>
      Rejects(BlockMagic(bs, 1), MappedBits(crc, rand, orig, u16, u) + Bits(v, 3) + Bits(count, 15))
    ensures orig <= 10 + 100000 * bs && true in u && 2 <= v <= 6 && count > 0 ==>
      Leads(BlockMagic(bs, 1), MappedBits(crc, rand, orig, u16, u) + Bits(v, 3) + Bits(count, 15),
            Selector(Head(bs, crc, rand, orig), u, v, count, [], 0))
  {
    hide Leads, Rejects, Bits, Word, Bytes, Flags, Within;
    WithinSize(u16, u);
    var p, h := BlockMagic(bs, 1), Head(bs, crc, rand, orig);
    var b0, b1 := HeadBits(crc, rand, orig), MappedBits(crc, rand, orig, u16, u);
    SectionLaw(bs, PI);
    HeaderLaw(bs, crc, rand, orig);
    var q0 := if orig > 10 + 100000 * bs then BadData else Map16(h, []);
    Then(p, Bytes(PI), BlockSum(bs, 1, 0), Word(crc) + [rand] + Bits(orig, 24), q0);
    if orig > 10 + 100000 * bs {
      LeadsRejects(p, b0);
      return;
    }
    MappingLaw(h, u16, u);
    Then(p, b0, q0, u16 + Flags(u16, u, 0), MappingEnd(h, u));
    if true !in u {
      LeadsRejects(p, b1);
      return;
    }
    TablesLaw(h, u, v);
    Then(p, b1, Groups(h, u), Bits(v, 3), if 2 <= v <= 6 then HowMany(h, u, v) else BadData);
    if !(2 <= v <= 6) {
      LeadsRejects(p, b1 + Bits(v, 3));
      return;
    }
    CountLaw(h, u, v, count);
    var q := if count >= 1 then Selector(h, u, v, count, [], 0) else BadData;
    Then(p, b1 + Bits(v, 3), HowMany(h, u, v), Bits(count, 15), q);
    if count == 0 {
      LeadsRejects(p, b1 + Bits(v, 3) + Bits(count, 15));
    }
  }

  lemma WithinSize(u16: seq<bool>, u: seq<bool>)
    requires Within(u16, u)
    ensures |u16| == 16 && |u| == 256
  {
  }

  // ---------- Code lengths ----------

  /** The first length of a table: five bits, from 1 to 20. */
  lemma FirstLengthLaw(c: Coding, n: nat, v: nat)
    requires Valid(FirstLength(c, n)) && v < 32
    ensures Leads(FirstLength(c, n), Bits(v, 5), if 1 <= v <= 20 then LengthMore(c, n, [], v) else BadData)
  {
    hide Leads, Bits, AlphaSize, GoodTables;
    Pow2Small();
    One(FirstLength(c, n), v, 5);
  }

  /** Steps of one, down where true, as bits. */
  ghost function StepBits(steps: seq<bool>): seq<bool> {
    if steps == [] then [] else [true, steps[0]] + StepBits(steps[1..])
  }

  /** The length after the steps. */
  ghost function Walked(curr: int, steps: seq<bool>): int
    decreases |steps|
  {
    if steps == [] then curr else Walked(if steps[0] then curr - 1 else curr + 1, steps[1..])
  }

  /** No step leaves the lengths from 1 to 20. */
  ghost predicate Inside(curr: int, steps: seq<bool>) {
    forall k :: 0 <= k <= |steps| ==> 1 <= Walked(curr, steps[..k]) <= 20
  }

  lemma WalkedOn(curr: int, steps: seq<bool>)
    requires steps != [] && 1 <= curr <= 20
    ensures var next := if steps[0] then curr - 1 else curr + 1;
      Inside(curr, steps) <==> 1 <= next <= 20 && Inside(next, steps[1..])
  {
    var next := if steps[0] then curr - 1 else curr + 1;
    forall k | 1 <= k <= |steps| ensures Walked(curr, steps[..k]) == Walked(next, steps[1..][..k - 1]) {
      assert steps[..k][1..] == steps[1..][..k - 1];
    }
    assert Walked(next, steps[1..][..0]) == next;
    forall k | 0 <= k <= |steps[1..]|
      ensures Walked(next, steps[1..][..k]) == Walked(curr, steps[..k + 1])
    {
    }
  }

  /** Any steps from one length to the next: refused exactly when one leaves the range. */
  lemma {:induction false} LengthLaw(c: Coding, n: nat, cur: seq<nat>, curr: nat, steps: seq<bool>)
    requires Valid(LengthMore(c, n, cur, curr))
    ensures Inside(curr, steps) ==>
      Walked(curr, steps) >= 1 && Leads(LengthMore(c, n, cur, curr), StepBits(steps), LengthMore(c, n, cur, Walked(curr, steps)))
    ensures !Inside(curr, steps) ==> Rejects(LengthMore(c, n, cur, curr), StepBits(steps))
    decreases |steps|
  {
    hide Leads, Rejects, AlphaSize, GoodTables, Inside, Partial;
    var p := LengthMore(c, n, cur, curr);
    if steps == [] {
      Stay(p);
      assert Inside(curr, []) by { NoSteps(curr); }
    } else {
      var next := if steps[0] then curr - 1 else curr + 1;
      WalkedOn(curr, steps);
      LengthStep(c, n, cur, curr, steps[0]);
      if 1 <= next <= 20 {
        LengthLaw(c, n, cur, next, steps[1..]);
        if Inside(next, steps[1..]) {
          Then(p, [true, steps[0]], LengthMore(c, n, cur, next), StepBits(steps[1..]),
               LengthMore(c, n, cur, Walked(curr, steps)));
        } else {
          RejectsAfter(p, [true, steps[0]], LengthMore(c, n, cur, next), StepBits(steps[1..]));
        }
      } else {
        LeadsRejects(p, [true, steps[0]]);
        RejectsOn(p, [true, steps[0]], StepBits(steps[1..]));
      }
    }
  }

  lemma NoSteps(curr: int)
    requires 1 <= curr <= 20
    ensures Inside(curr, [])
  {
  }

  lemma LengthStep(c: Coding, n: nat, cur: seq<nat>, curr: nat, down: bool)
    requires Valid(LengthMore(c, n, cur, curr))
    ensures var next := if down then curr - 1 else curr + 1;
      Leads(LengthMore(c, n, cur, curr), [true, down], if 1 <= next <= 20 then LengthMore(c, n, cur, next) else BadData)
  {
    hide Leads, AlphaSize, GoodTables, Partial;
    var p := LengthMore(c, n, cur, curr);
    var next := if down then curr - 1 else curr + 1;
    OneFlag(p, true);
    OneFlag(LengthUpDown(c, n, cur, curr), down);
    Then(p, [true], LengthUpDown(c, n, cur, curr), [down],
         if 1 <= next <= 20 then LengthMore(c, n, cur, next) else BadData);
    assert [true] + [down] == [true, down];
  }

  // ---------- Symbols ----------

  /** The bits begin with the code of a symbol. */
  ghost predicate StartsWith(len: seq<nat>, sym: nat, bits: seq<bool>)
    requires sym < |len|
  {
    len[sym] <= |bits| && Value(bits[..len[sym]]) == Code(len, sym)
  }

  /** No failure of the decoder's loop is anything but corrupt data. */
  lemma {:induction false} ScanRejects(c: Coding, pos: nat, d: MoveToFront.Decoder, zn: nat, zvec: nat, bits: seq<bool>)
    requires Decoding(c, pos, d) && 1 <= zn <= 21 && Least(LengthsAt(c, pos)) <= zn
    requires Scan(TableOf(LengthsAt(c, pos)), zn, zvec, bits) == Bad
    ensures Rejects(Judge(c, pos, d, zn, zvec), bits)
    decreases |bits|
  {
    hide Rejects, Leads, Took, Least, LengthsAt, TableOf;
    JudgeValid(c, pos, d, zn, zvec);
    var p, t := Judge(c, pos, d, zn, zvec), TableOf(LengthsAt(c, pos));
    if zn > LONGEST || zvec <= t.limit[zn] {
      Stay(BadData);
      LeadsRejects(BadData, []);
      RejectsOn(BadData, [], bits);
      assert [] + bits == bits;
    } else {
      OneFlag(p, bits[0]);
      ScanRejects(c, pos, d, zn + 1, 2 * zvec + Bit(bits[0]), bits[1..]);
      assert bits == [bits[0]] + bits[1..];
      RejectsAfter(p, [bits[0]], Judge(c, pos, d, zn + 1, 2 * zvec + Bit(bits[0])), bits[1..]);
    }
  }

  /** Twenty-one bits that begin with no code of the table are refused, whatever the lengths are; bits
      that begin with one are that symbol where the lengths make a code (BlockRoundTrip.CodeParses). */
  lemma NoCodeLaw(c: Coding, pos: nat, d: MoveToFront.Decoder, bits: seq<bool>)
    requires Decoding(c, pos, d) && |bits| == 21
    requires forall sym: nat :: sym < |LengthsAt(c, pos)| ==> !StartsWith(LengthsAt(c, pos), sym, bits)
    ensures Rejects(Sym(c, pos, d), bits)
  {
    hide Rejects, Leads, Took, LengthsAt, TableOf, Code, Value, Scan, Least, StartsWith;
    var len := LengthsAt(c, pos);
    var t, p := TableOf(len), Sym(c, pos, d);
    TableOfIsTables(len);
    JudgeFirst(c, pos, d);
    var m := t.minLen;
    var v := Value(bits[..m]);
    FirstBits(p, bits, m);
    ScanFails(len, t, bits);
    ScanRejects(c, pos, d, m, v, bits[m..]);
    assert bits == bits[..m] + bits[m..];
    RejectsAfter(p, bits[..m], Judge(c, pos, d, m, v), bits[m..]);
  }

  lemma ScanFails(len: seq<nat>, t: Tables, bits: seq<bool>)
    requires Lengths(len) && t == TableOf(len) && |bits| == 21 && 1 <= t.minLen <= 20
    requires forall sym: nat :: sym < |len| ==> !StartsWith(len, sym, bits)
    ensures Scan(t, t.minLen, Value(bits[..t.minLen]), bits[t.minLen..]) == Bad
  {
    hide *;
    ScanFinds(len, t, bits);
  }

  lemma ScanFinds(len: seq<nat>, t: Tables, bits: seq<bool>)
    requires Lengths(len) && t == TableOf(len) && |bits| == 21 && 1 <= t.minLen <= 20
    ensures match Scan(t, t.minLen, Value(bits[..t.minLen]), bits[t.minLen..])
            case Symbol(sym, _) => 0 <= sym < |len| && StartsWith(len, sym, bits)
            case Bad => true
            case Short => false
  {
    hide TableOf, Code, Value, Scan, Least, FirstCode, TablesFor, Lengths, Greatest;
    TableOfIsTables(len);
    TablesForSpans(len, Greatest(len), t);
    var m := t.minLen;
    FromLeast(len, Greatest(len), t, Value(bits[..m]));
    ScanSound(len, Greatest(len), t, m, Value(bits[..m]), bits[m..]);
    var o := Scan(t, m, Value(bits[..m]), bits[m..]);
    if o.Symbol? {
      var k := o.used - m;
      ValueConcat(bits[..m], bits[m..][..k]);
      assert bits[..o.used] == bits[..m] + bits[m..][..k];
    }
  }

  lemma FromLeast(len: seq<nat>, maxLen: nat, t: Tables, zvec: nat)
    requires TablesFor(len, maxLen, t) && Spans(len, t.minLen, maxLen)
    ensures Beyond(len, t.minLen, zvec)
  {
    NoShorter(len, t.minLen, t.minLen);
  }

  /** The end-of-block symbol comes last if at all. */
  ghost predicate EndsAtMostOnce(symbols: seq<int>, eob: int) {
    forall i :: 0 <= i < |symbols| - 1 ==> symbols[i] != eob
  }

  /** What a block is answered by, once its symbols have been decoded to r. */
  ghost function SymbolsEnd(c: Coded, bs: nat, r: MoveToFront.Decoder): Phase {
    match r
    case Overfull => BadData
    case Overflowed => Undefined
    case Finished(out) => if c.origPtr >= |out| then BadData else Block(CodingOf(c, bs), out)
    case Decoder(_, _, _, _) => if |c.symbols| < 50 * |c.selectors| then Sym(CodingOf(c, bs), |c.symbols|, r) else BadData
  }

  /** Any symbols in their codes, from position pos. */
  lemma {:induction false} SymbolsLead(c: Coded, bs: nat, pos: nat, d: MoveToFront.Decoder)
    requires GoodBlock(c) && pos <= |c.symbols| && EndsAtMostOnce(c.symbols, AlphaSize(c.inUse) - 1)
    requires d.Decoder? && |d.list| == 256
    ensures AlphaSize(c.inUse) <= 258 && forall i :: 0 <= i < |c.symbols| ==> 0 <= c.symbols[i] <= AlphaSize(c.inUse) - 1
    ensures Valid(NextSymbol(CodingOf(c, bs), pos, d))
    ensures Run(NextSymbol(CodingOf(c, bs), pos, d), Codes(c, pos)).0
         == SymbolsEnd(c, bs, MoveToFront.Run(d, c.symbols[pos..], AlphaSize(c.inUse) - 1, 100000 * bs))
    decreases |c.symbols| - pos
  {
    hide Leads, GoodBlock, AlphaSize, LengthsAt, Bits, Code, PrefixCodes.IsCode, MoveToFront.Step, GoodCoding, Run,
      EndsAtMostOnce, MoveToFront.Run, Took, Valid, Stopped, SymbolsEnd;
    SymbolFacts(c, bs);
    var e, eob := CodingOf(c, bs), AlphaSize(c.inUse) - 1;
    NextSymbolValid(c, bs, pos, d);
    if pos == |c.symbols| {
      assert c.symbols[pos..] == [];
      NothingMore(c, bs, d);
      RunNothing(NextSymbol(e, pos, d));
    } else {
      var sym := c.symbols[pos];
      GoodAt(c, bs, pos);
      CodeParses(e, pos, d, sym);
      StepBounds(d, sym, eob, 100000 * bs);
      var code, d' := Bits(Code(LengthsAt(e, pos), sym), LengthsAt(e, pos)[sym]), MoveToFront.Step(d, sym, eob, 100000 * bs);
      TookValid(e, pos, d, sym);
      LeadsReaches(NextSymbol(e, pos, d), code, Took(e, pos, d, sym), Codes(c, pos + 1));
      TookIs(c, bs, pos, d, d');
      if d'.Decoder? {
        SymbolsLead(c, bs, pos + 1, d');
      } else {
        RunStays(Took(e, pos, d, sym), Codes(c, pos + 1));
      }
    }
  }

  lemma SymbolFacts(c: Coded, bs: nat)
    requires GoodBlock(c)
    ensures |c.inUse| == 256 && 3 <= AlphaSize(c.inUse) <= 258 && GoodCoding(CodingOf(c, bs))
    ensures forall i :: 0 <= i < |c.symbols| ==> 0 <= c.symbols[i] <= AlphaSize(c.inUse) - 1
    ensures |c.symbols| <= GROUP * |c.selectors|
  {
    hide AlphaSize, GoodLengths, GoodCoding;
    CodingGood(c, bs);
  }

  lemma NextSymbolValid(c: Coded, bs: nat, pos: nat, d: MoveToFront.Decoder)
    requires GoodCoding(CodingOf(c, bs)) && d.Decoder? && |d.list| == 256
    ensures Valid(NextSymbol(CodingOf(c, bs), pos, d))
    ensures pos < GROUP * |c.selectors| ==> NextSymbol(CodingOf(c, bs), pos, d) == Sym(CodingOf(c, bs), pos, d)
    ensures pos < GROUP * |c.selectors| ==> Decoding(CodingOf(c, bs), pos, d)
    ensures pos >= GROUP * |c.selectors| ==> NextSymbol(CodingOf(c, bs), pos, d) == BadData
  {
    hide GoodCoding;
  }

  lemma NothingMore(c: Coded, bs: nat, d: MoveToFront.Decoder)
    requires GoodBlock(c) && d.Decoder? && |d.list| == 256 && 3 <= AlphaSize(c.inUse) <= 258
    ensures SymbolsEnd(c, bs, MoveToFront.Run(d, [], AlphaSize(c.inUse) - 1, 100000 * bs))
         == NextSymbol(CodingOf(c, bs), |c.symbols|, d)
  {
    hide AlphaSize, GoodLengths;
  }

  lemma LeadsReaches(p: Phase, s: seq<bool>, q: Phase, rest: seq<bool>)
    requires Leads(p, s, q)
    ensures Valid(p) && Valid(q) && Run(p, s + rest) == Run(q, rest)
  {
    hide Valid, Need;
    RunConcat(p, s, rest);
    assert [] + rest == rest;
  }

  lemma RunNothing(p: Phase)
    requires Valid(p)
    ensures Run(p, []) == (p, [])
  {
    hide Valid;
  }

  lemma RunStays(p: Phase, rest: seq<bool>)
    requires Valid(p) && Stopped(p)
    ensures Run(p, rest) == (p, rest)
  {
    hide Valid;
  }

  /** One symbol: the next position, or the end of the matter. */
  lemma TookIs(c: Coded, bs: nat, pos: nat, d: MoveToFront.Decoder, d': MoveToFront.Decoder)
    requires GoodBlock(c) && pos < |c.symbols| && EndsAtMostOnce(c.symbols, AlphaSize(c.inUse) - 1)
    requires d.Decoder? && |d.list| == 256 && 0 <= c.symbols[pos] <= AlphaSize(c.inUse) - 1 <= 257
    requires forall i :: 0 <= i < |c.symbols| ==> 0 <= c.symbols[i] <= AlphaSize(c.inUse) - 1
    requires Decoding(CodingOf(c, bs), pos, d)
    requires d' == MoveToFront.Step(d, c.symbols[pos], AlphaSize(c.inUse) - 1, 100000 * bs)
    requires d'.Decoder? ==> |d'.list| == 256
    ensures var e := CodingOf(c, bs);
      Took(e, pos, d, c.symbols[pos]) == if d'.Decoder? then NextSymbol(e, pos + 1, d') else SymbolsEnd(c, bs, d')
    ensures !d'.Decoder? ==> Stopped(Took(CodingOf(c, bs), pos, d, c.symbols[pos]))
    ensures MoveToFront.Run(d, c.symbols[pos..], AlphaSize(c.inUse) - 1, 100000 * bs)
         == MoveToFront.Run(d', c.symbols[pos + 1..], AlphaSize(c.inUse) - 1, 100000 * bs)
    ensures !d'.Decoder? ==>
      MoveToFront.Run(d', c.symbols[pos + 1..], AlphaSize(c.inUse) - 1, 100000 * bs) == d'
  {
    hide AlphaSize, GoodLengths, GoodCoding, MoveToFront.Step, GoodBlock;
    AlphaThree(c);
    assert c.symbols[pos..][1..] == c.symbols[pos + 1..];
    if !d'.Decoder? {
      OverfullStays(c.symbols[pos + 1..], d', AlphaSize(c.inUse) - 1, 100000 * bs);
    }
  }

  lemma AlphaThree(c: Coded)
    requires GoodBlock(c)
    ensures |c.inUse| == 256 && 3 <= AlphaSize(c.inUse)
  {
  }

  /** Any block whose codes make sense, whatever its pointer and symbols are: refused exactly when the
      pointer is above the block size or at or above the block's length, the block is too long, or
      the selectors end before the symbols do. */
  lemma BlockLaw(c: Coded, bs: nat)
    requires GoodBlock(c) && EndsAtMostOnce(c.symbols, AlphaSize(c.inUse) - 1)
    ensures AlphaSize(c.inUse) <= 258 && forall i :: 0 <= i < |c.symbols| ==> 0 <= c.symbols[i] <= AlphaSize(c.inUse) - 1
    ensures Run(BlockMagic(bs, 1), BlockBits(c)).0
         == if c.origPtr > 10 + 100000 * bs then BadData
            else SymbolsEnd(c, bs, MoveToFront.Run(FirstDecoder(), c.symbols, AlphaSize(c.inUse) - 1, 100000 * bs))
  {
    hide *;
    SymbolFacts(c, bs);
    GoodBlockFacts(c);
    BlockBitsUnfold(c);
    HeadParses(c, bs);
    var h, n := Head(bs, c.crc, false, c.origPtr), |c.lens|;
    var e := CodingOf(c, bs);
    var rest := Mapping(c.inUse) + Selectors(n, c.selectors) + LengthTables(c.lens) + Codes(c, 0);
    LeadsReaches(BlockMagic(bs, 1), HeaderBits(c), OriginEnd(h), rest);
    assert BlockBits(c) == HeaderBits(c) + rest;
    OriginEndIs(h);
    SymbolsLead(c, bs, 0, FirstDecoder()) by { FirstList(); }
    assert c.symbols[0..] == c.symbols;
    if c.origPtr > 10 + 100000 * bs {
      RunStays(BadData, rest) by { BadStops(); }
    } else {
      MappingParsesAll(h, c.inUse);
      SelectorsParse(h, c.inUse, n, c.selectors);
      TablesParse(c, bs);
      Then(Map16(h, []), Mapping(c.inUse), Groups(h, c.inUse), Selectors(n, c.selectors),
           FirstLength(Coding(h, c.inUse, c.selectors, []), n));
      Then(Map16(h, []), Mapping(c.inUse) + Selectors(n, c.selectors), FirstLength(Coding(h, c.inUse, c.selectors, []), n),
           LengthTables(c.lens), NextSymbol(e, 0, FirstDecoder()));
      LeadsReaches(Map16(h, []), Mapping(c.inUse) + Selectors(n, c.selectors) + LengthTables(c.lens),
                   NextSymbol(e, 0, FirstDecoder()), Codes(c, 0));
    }
  }

  lemma BadStops()
    ensures Valid(BadData) && Stopped(BadData)
  {
  }

  lemma FirstList()
    ensures FirstDecoder().Decoder? && |FirstDecoder().list| == 256
  {
  }

  lemma OriginEndIs(h: Head)
    ensures OriginEnd(h) == if h.orig > 10 + 100000 * h.bs then BadData else Map16(h, [])
  {
  }

  lemma HeadParses(c: Coded, bs: nat)
    requires c.crc < 0x1_0000_0000 && c.origPtr < 0x100_0000
    ensures Leads(BlockMagic(bs, 1), HeaderBits(c), OriginEnd(Head(bs, c.crc, false, c.origPtr)))
  {
    hide Leads, Bytes, Word, Bits, OriginEnd;
    BlockMagicParses(bs, 1);
    assert BLOCK_MAGIC[0..] == BLOCK_MAGIC;
    BlockSumParses(bs, c.crc);
    OneFlag(RandBit(bs, c.crc), false);
    OriginParses(bs, c.crc, false, c.origPtr);
    Chain4(BlockMagic(bs, 1), Bytes(BLOCK_MAGIC), BlockSum(bs, 1, 0), Word(c.crc), RandBit(bs, c.crc), [false],
           Origin(Head(bs, c.crc, false, 0), 1), Bits(c.origPtr, 24), OriginEnd(Head(bs, c.crc, false, c.origPtr)));
  }
}
