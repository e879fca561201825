/** What the printer writes, the parser reads: the whole block, section by section. */
module BlockRoundTrip {
  import opened Powers
  import opened BitStrings
  import opened CanonicalCodes
  import opened BlockFormat
  import opened BlockParser
  import MoveToFront
  import MtfEncoder
  import PrefixCodes

  // ---------- Running the machine ----------

  /** The machine fed a bit string: where it ends up, and the bits it has not taken. */
  ghost function Run(p: Phase, bits: seq<bool>): (r: (Phase, seq<bool>))
    requires Valid(p)
    ensures Valid(r.0)
    ensures Stopped(r.0) || |r.1| < Need(r.0)
    decreases |bits|
  {
    if Stopped(p) || |bits| < Need(p) then (p, bits)
    else
      var v := Value(bits[..Need(p)]);
      ResumeValid(p, v);
      Run(Resume(p, v), bits[Need(p)..])
  }

  /** Feeding in two parts is feeding at once: where the first part ends does not matter. */
  lemma {:induction false} RunConcat(p: Phase, a: seq<bool>, b: seq<bool>)
    requires Valid(p)
    ensures Run(p, a + b) == Run(Run(p, a).0, Run(p, a).1 + b)
    decreases |a|
  {
    hide Valid, Resume, Need, Value;
    if !Stopped(p) && |a| >= Need(p) {
      var n := Need(p);
      var v := Value(a[..n]);
      ResumeValid(p, v);
      assert (a + b)[..n] == a[..n] && (a + b)[n..] == a[n..] + b;
      RunConcat(Resume(p, v), a[n..], b);
    }
  }

  /** From p, the bits s lead to q and are used up. */
  ghost predicate Leads(p: Phase, s: seq<bool>, q: Phase) {
    Valid(p) && Run(p, s) == (q, [])
  }

  lemma Then(p: Phase, s: seq<bool>, q: Phase, t: seq<bool>, r: Phase)
    requires Leads(p, s, q) && Leads(q, t, r)
    ensures Leads(p, s + t, r)
  {
    hide Run, Valid;
    RunConcat(p, s, t);
    assert [] + t == t;
  }

  lemma Stay(p: Phase)
    requires Valid(p)
    ensures Leads(p, [], p)
  {
    hide Valid, Need;
  }

  lemma One(p: Phase, v: nat, n: nat)
    requires Valid(p) && !Stopped(p) && Need(p) == n && v < Pow2(n)
    ensures Leads(p, Bits(v, n), Resume(p, v))
  {
    hide Valid, Need, Resume, Pow2, Bits, Value;
    var s := Bits(v, n);
    ValueOfBits(v, n);
    assert s[..n] == s && s[n..] == [];
    ResumeValid(p, v);
    Stay(Resume(p, v));
  }

  lemma OneFlag(p: Phase, b: bool)
    requires Valid(p) && !Stopped(p) && Need(p) == 1
    ensures Bit(b) < Pow2(1) && Leads(p, [b], Resume(p, Bit(b)))
  {
    hide Valid, Need, Resume;
    Pow2Next(0);
    assert Bits(Bit(b), 1) == [b] by {
      assert Bits(Bit(b) / 2, 0) == [];
    }
    One(p, Bit(b), 1);
  }

  lemma Pow2Byte()
    ensures Pow2(8) == 256
  {
    assert Pow2(4) == 16;
  }

  /** One byte at a phase that waits for eight bits. */
  lemma OneByte(p: Phase, v: nat)
    requires Valid(p) && !Stopped(p) && Need(p) == 8 && v < 256
    ensures v < Pow2(8) && Leads(p, Bits(v, 8), Resume(p, v))
  {
    hide Valid, Need, Resume;
    Pow2Byte();
    One(p, v, 8);
  }

  // ---------- Magic numbers, checksums, origPtr ----------

  lemma {:induction false} BlockMagicParses(bs: nat, k: nat)
    requires 1 <= k <= 6
    ensures Leads(BlockMagic(bs, k), Bytes(BLOCK_MAGIC[k - 1..]), BlockSum(bs, 1, 0))
    decreases 6 - k
  {
    hide Leads, Bits, Bytes;
    var p := BlockMagic(bs, k);
    BlockMagicByte(bs, k);
    BytesNext(BLOCK_MAGIC[k - 1..]);
    if k < 6 {
      assert BLOCK_MAGIC[k - 1..][1..] == BLOCK_MAGIC[k..];
      BlockMagicParses(bs, k + 1);
      Then(p, Bits(BLOCK_MAGIC[k - 1], 8), BlockMagic(bs, k + 1), Bytes(BLOCK_MAGIC[k..]), BlockSum(bs, 1, 0));
    } else {
      assert BLOCK_MAGIC[5..] == [0x59];
      BytesOne(0x59);
    }
  }

  lemma BlockMagicByte(bs: nat, k: nat)
    requires 1 <= k <= 6
    ensures Leads(BlockMagic(bs, k), Bits(BLOCK_MAGIC[k - 1], 8), if k < 6 then BlockMagic(bs, k + 1) else BlockSum(bs, 1, 0))
  {
    hide Leads, Bits;
    OneByte(BlockMagic(bs, k), BLOCK_MAGIC[k - 1]);
  }

  lemma BytesNext(s: seq<nat>)
    ensures s != [] ==> Bytes(s) == Bits(s[0], 8) + Bytes(s[1..])
  {
    hide Bits;
  }

  lemma BytesOne(v: nat)
    ensures Bytes([v]) == Bits(v, 8)
  {
    assert [v][1..] == [];
    assert Bits(v, 8) + [] == Bits(v, 8);
  }

  lemma BytesFour(a: nat, b: nat, c: nat, d: nat)
    ensures Bytes([a, b, c, d]) == Bits(a, 8) + Bits(b, 8) + Bits(c, 8) + Bits(d, 8)
  {
    hide Bits;
    BytesOne(d);
    assert [c, d][1..] == [d] && [b, c, d][1..] == [c, d] && [a, b, c, d][1..] == [b, c, d];
    assert Bytes([c, d]) == Bits(c, 8) + Bits(d, 8);
    assert Bytes([b, c, d]) == Bits(b, 8) + Bytes([c, d]);
  }

  lemma WordParts(crc: nat) returns (a: nat, b: nat, c: nat, d: nat)
    requires crc < 0x1_0000_0000
    ensures a < 256 && b < 256 && c < 256 && d < 256
    ensures 256 * (256 * (256 * a + b) + c) + d == crc
    ensures Word(crc) == Bits(a, 8) + Bits(b, 8) + Bits(c, 8) + Bits(d, 8)
  {
    hide Bits, Bytes;
    a, b, c, d := crc / 0x100_0000 % 256, crc / 0x1_0000 % 256, crc / 0x100 % 256, crc % 256;
    BytesFour(a, b, c, d);
  }

  lemma Chain4(p: Phase, s: seq<bool>, p1: Phase, s1: seq<bool>, p2: Phase, s2: seq<bool>, p3: Phase, s3: seq<bool>, p4: Phase)
    requires Leads(p, s, p1) && Leads(p1, s1, p2) && Leads(p2, s2, p3) && Leads(p3, s3, p4)
    ensures Leads(p, s + s1 + s2 + s3, p4)
  {
    hide Leads;
    Then(p, s, p1, s1, p2);
    Then(p, s + s1, p2, s2, p3);
    Then(p, s + s1 + s2, p3, s3, p4);
  }

  lemma BlockSumParses(bs: nat, crc: nat)
    requires crc < 0x1_0000_0000
    ensures Leads(BlockSum(bs, 1, 0), Word(crc), RandBit(bs, crc))
  {
    hide Leads, Bits, Bytes, Word;
    var a, b, c, d := WordParts(crc);
    OneByte(BlockSum(bs, 1, 0), a);
    OneByte(BlockSum(bs, 2, a), b);
    OneByte(BlockSum(bs, 3, 256 * a + b), c);
    OneByte(BlockSum(bs, 4, 256 * (256 * a + b) + c), d);
    Chain4(BlockSum(bs, 1, 0), Bits(a, 8), BlockSum(bs, 2, a), Bits(b, 8), BlockSum(bs, 3, 256 * a + b), Bits(c, 8),
           BlockSum(bs, 4, 256 * (256 * a + b) + c), Bits(d, 8), RandBit(bs, crc));
  }

  lemma OriginByte(h: Head, k: nat, v: nat)
    requires 1 <= k <= 3 && v < 256
    ensures var h' := h.(orig := 256 * h.orig + v);
      Leads(Origin(h, k), Bits(v, 8), if k < 3 then Origin(h', k + 1) else OriginEnd(h'))
  {
    hide Leads, Bits;
    OneByte(Origin(h, k), v);
  }

  /** The pointer has been read. */
  ghost function OriginEnd(h: Head): Phase {
    if h.orig > 10 + 100000 * h.bs then BadData else Map16(h, [])
  }

  lemma OriginParses(bs: nat, crc: nat, rand: bool, orig: nat)
    requires orig < 0x100_0000
    ensures Leads(Origin(Head(bs, crc, rand, 0), 1), Bits(orig, 24), OriginEnd(Head(bs, crc, rand, orig)))
  {
    hide Leads, Bits, Pow2, OriginEnd;
    var a, b, c := orig / 0x1_0000, orig / 0x100 % 256, orig % 256;
    Pow2Byte();
    BitsSplit(orig, 16, 8, 256, 256 * a + b, c);
    BitsSplit(256 * a + b, 8, 8, 256, a, b);
    var h := Head(bs, crc, rand, 0);
    OriginByte(h, 1, a);
    OriginByte(h.(orig := a), 2, b);
    OriginByte(h.(orig := 256 * a + b), 3, c);
    Then(Origin(h, 1), Bits(a, 8), Origin(h.(orig := a), 2), Bits(b, 8), Origin(h.(orig := 256 * a + b), 3));
    Then(Origin(h, 1), Bits(a, 8) + Bits(b, 8), Origin(h.(orig := 256 * a + b), 3), Bits(c, 8),
         OriginEnd(h.(orig := orig)));
  }

  // ---------- The mapping table ----------

  lemma {:induction false} Map16Parses(h: Head, u16: seq<bool>, i: nat)
    requires |u16| == 16 && i < 16
    ensures Leads(Map16(h, u16[..i]), u16[i..], Mapped(h, u16, []))
    decreases 16 - i
  {
    hide Leads, Mapped;
    var p := Map16(h, u16[..i]);
    OneFlag(p, u16[i]);
    assert u16[..i] + [u16[i]] == u16[..i + 1];
    assert u16[i..] == [u16[i]] + u16[i + 1..];
    if i < 15 {
      Map16Parses(h, u16, i + 1);
      Then(p, [u16[i]], Map16(h, u16[..i + 1]), u16[i + 1..], Mapped(h, u16, []));
    } else {
      assert u16[..16] == u16;
      assert u16[i..] == [u16[i]];
    }
  }

  /** The flags of one group, from flag j on. */
  lemma {:induction false} GroupParses(h: Head, u16: seq<bool>, u: seq<bool>, i: nat, j: nat)
    requires |u16| == 16 && |u| == 256 && i < 16 && j < 16 && u16[i]
    ensures Leads(Map(h, u16, u[..16 * i + j]), u[16 * i + j..16 * i + 16], Mapped(h, u16, u[..16 * i + 16]))
    decreases 16 - j
  {
    hide Leads, Mapped;
    var m := 16 * i + j;
    assert m / 16 == i;
    var p := Map(h, u16, u[..m]);
    OneFlag(p, u[m]);
    assert u[..m] + [u[m]] == u[..m + 1];
    assert u[m..16 * i + 16] == [u[m]] + u[m + 1..16 * i + 16];
    if j < 15 {
      MappedInside(h, u16, u[..m + 1]);
      GroupParses(h, u16, u, i, j + 1);
      Then(p, [u[m]], Map(h, u16, u[..m + 1]), u[m + 1..16 * i + 16], Mapped(h, u16, u[..16 * i + 16]));
    } else {
      assert u[m..16 * i + 16] == [u[m]];
    }
  }

  lemma MappedInside(h: Head, u16: seq<bool>, u: seq<bool>)
    requires |u16| == 16 && |u| <= 256
    ensures |u| % 16 != 0 ==> Mapped(h, u16, u) == Map(h, u16, u)
    ensures |u| % 16 == 0 && |u| < 256 && u16[|u| / 16] ==> Mapped(h, u16, u) == Map(h, u16, u)
    ensures |u| % 16 == 0 && |u| < 256 && !u16[|u| / 16] ==> Mapped(h, u16, u) == Mapped(h, u16, u + NoneUsed())
    ensures |u| == 256 && 3 <= AlphaSize(u) ==> Mapped(h, u16, u) == Groups(h, u)
  {
    hide MtfEncoder.UsedBelow;
  }

  lemma {:induction false} MappingParses(h: Head, u: seq<bool>, i: nat)
    requires |u| == 256 && i <= 16 && 3 <= AlphaSize(u)
    ensures Leads(Mapped(h, Used16(u), u[..16 * i]), UsedGroups(u, i), Groups(h, u))
    decreases 16 - i
  {
    hide Leads, Mapped, AlphaSize;
    var u16, now := Used16(u), u[..16 * i];
    MappedInside(h, u16, now);
    if i == 16 {
      assert now == u;
      Stay(Groups(h, u));
    } else {
      MappingParses(h, u, i + 1);
      if GroupUsed(u, i) {
        GroupParses(h, u16, u, i, 0);
        Then(Map(h, u16, now), u[16 * i..16 * i + 16], Mapped(h, u16, u[..16 * (i + 1)]), UsedGroups(u, i + 1), Groups(h, u));
      } else {
        UnusedGroup(u, i);
        assert [] + UsedGroups(u, i + 1) == UsedGroups(u, i + 1);
      }
    }
  }

  lemma UnusedGroup(u: seq<bool>, i: nat)
    requires |u| == 256 && i < 16 && !GroupUsed(u, i)
    ensures u[..16 * i] + NoneUsed() == u[..16 * (i + 1)]
  {
    var g := u[16 * i..16 * i + 16];
    forall j | 0 <= j < 16 ensures !g[j] {
      assert g[j] in g;
    }
    assert u[..16 * (i + 1)] == u[..16 * i] + g;
    assert g == NoneUsed();
  }

  // ---------- The selectors ----------

  lemma {:induction false} SelectorsUndone(pos: seq<int>, sel: seq<nat>)
    requires MoveToFront.Distinct(pos) && forall i :: 0 <= i < |sel| ==> sel[i] in pos
    ensures Undone(pos, SelectorMtf(pos, sel)) == sel
    decreases |sel|
  {
    if sel != [] {
      var p := MoveToFront.IndexOf(pos, sel[0]);
      MoveToFront.FrontDistinct(pos, p);
      SelectorsUndone(MoveToFront.Front(pos, p), sel[1..]);
      assert SelectorMtf(pos, sel)[1..] == SelectorMtf(MoveToFront.Front(pos, p), sel[1..]);
    }
  }

  /** What follows the stop bit of one selector. */
  ghost function SelectorEnd(h: Head, u: seq<bool>, n: nat, count: nat, mtf: seq<nat>): Phase
    requires forall i :: 0 <= i < |mtf| ==> mtf[i] < n
  {
    if |mtf| > MAX_SELECTORS then Undefined
    else if |mtf| < count then Selector(h, u, n, count, mtf, 0)
    else FirstLength(Coding(h, u, UndoneSelectors(n, mtf), []), n)
  }

  lemma {:induction false} UnaryParses(h: Head, u: seq<bool>, n: nat, count: nat, mtf: seq<nat>, j0: nat, j: nat)
    requires |u| == 256 && 3 <= AlphaSize(u) && 2 <= n <= 6 && |mtf| < count && j0 + j < n && |mtf| <= MAX_SELECTORS
    requires forall i :: 0 <= i < |mtf| ==> mtf[i] < n
    ensures Leads(Selector(h, u, n, count, mtf, j0), Unary(j), SelectorEnd(h, u, n, count, mtf + [j0 + j]))
    decreases j
  {
    hide Leads, AlphaSize, UndoneSelectors;
    var p := Selector(h, u, n, count, mtf, j0);
    OneFlag(p, j > 0);
    if j > 0 {
      UnaryParses(h, u, n, count, mtf, j0 + 1, j - 1);
      Then(p, [true], Selector(h, u, n, count, mtf, j0 + 1), Unary(j - 1), SelectorEnd(h, u, n, count, mtf + [j0 + j]));
    }
  }

  /** Up to one more selector than the arrays hold, of a section that declares `count`. */
  lemma {:induction false} UnariesParse(h: Head, u: seq<bool>, n: nat, count: nat, mtf: seq<nat>, i: nat)
    requires |u| == 256 && 3 <= AlphaSize(u) && 2 <= n <= 6 && i < |mtf| <= count && |mtf| <= MAX_SELECTORS + 1
    requires forall k :: 0 <= k < |mtf| ==> mtf[k] < n
    ensures Leads(Selector(h, u, n, count, mtf[..i], 0), Unaries(mtf[i..]), SelectorEnd(h, u, n, count, mtf))
    decreases |mtf| - i
  {
    hide Leads, AlphaSize, UndoneSelectors;
    var p := Selector(h, u, n, count, mtf[..i], 0);
    UnaryParses(h, u, n, count, mtf[..i], 0, mtf[i]);
    assert mtf[..i] + [mtf[i]] == mtf[..i + 1];
    assert mtf[i..][1..] == mtf[i + 1..] && mtf[i..][0] == mtf[i];
    if i + 1 < |mtf| {
      UnariesParse(h, u, n, count, mtf, i + 1);
      Then(p, Unary(mtf[i]), Selector(h, u, n, count, mtf[..i + 1], 0), Unaries(mtf[i + 1..]),
           SelectorEnd(h, u, n, count, mtf));
    } else {
      assert mtf[..i + 1] == mtf;
      assert Unary(mtf[i]) + [] == Unary(mtf[i]);
    }
  }

  /** Reading the selectors stays inside the arrays exactly when no more than 18002 are declared;
      otherwise the write of number 18003 is outside, whatever the selectors are. */
  lemma SelectorsInBounds(h: Head, u: seq<bool>, n: nat, mtf: seq<nat>)
    requires |u| == 256 && 3 <= AlphaSize(u) && 2 <= n <= 6 && 1 <= |mtf| < 0x8000
    requires forall k :: 0 <= k < |mtf| ==> mtf[k] < n
    ensures |mtf| <= MAX_SELECTORS ==>
      Leads(Selector(h, u, n, |mtf|, [], 0), Unaries(mtf), FirstLength(Coding(h, u, UndoneSelectors(n, mtf), []), n))
    ensures |mtf| > MAX_SELECTORS ==>
      Leads(Selector(h, u, n, |mtf|, [], 0), Unaries(mtf[..MAX_SELECTORS + 1]), Undefined)
  {
    hide Leads, AlphaSize, UndoneSelectors;
    var first := if |mtf| <= MAX_SELECTORS then mtf else mtf[..MAX_SELECTORS + 1];
    UnariesParse(h, u, n, |mtf|, first, 0);
    assert first[..0] == [] && first[0..] == first;
  }

  /** 18003 selectors, all for table 0. */
  lemma TooManySelectors(h: Head, u: seq<bool>, n: nat)
    requires |u| == 256 && 3 <= AlphaSize(u) && 2 <= n <= 6
    ensures Leads(Selector(h, u, n, 18003, [], 0), Unaries(seq(18003, k => 0)), Undefined)
  {
    hide Leads, AlphaSize, Unaries;
    var mtf := seq(18003, k => 0);
    SelectorsInBounds(h, u, n, mtf);
    assert mtf[..MAX_SELECTORS + 1] == mtf;
  }

  lemma SelectorsParse(h: Head, u: seq<bool>, n: nat, sel: seq<nat>)
    requires |u| == 256 && 3 <= AlphaSize(u) && 2 <= n <= 6 && 1 <= |sel| <= MAX_SELECTORS
    requires forall i :: 0 <= i < |sel| ==> sel[i] < n
    ensures Leads(Groups(h, u), Selectors(n, sel), FirstLength(Coding(h, u, sel, []), n))
  {
    hide Leads, AlphaSize, Unaries, Bits, SelectorMtf, Undone;
    IdentityHas(n, sel);
    var l := MtfEncoder.Identity(n);
    var mtf := SelectorMtf(l, sel);
    SelectorsUndone(l, sel);
    Pow2Small();
    One(Groups(h, u), n, 3);
    One(HowMany(h, u, n), |sel|, 15);
    UnariesParse(h, u, n, |mtf|, mtf, 0);
    assert mtf[..0] == [] && mtf[0..] == mtf;
    Then(Groups(h, u), Bits(n, 3), HowMany(h, u, n), Bits(|sel|, 15), Selector(h, u, n, |sel|, [], 0));
    Then(Groups(h, u), Bits(n, 3) + Bits(|sel|, 15), Selector(h, u, n, |sel|, [], 0), Unaries(mtf),
         SelectorEnd(h, u, n, |sel|, mtf));
    assert UndoneSelectors(n, mtf) == sel;
  }

  lemma Pow2Small()
    ensures Pow2(3) == 8 && Pow2(5) == 32 && Pow2(15) == 0x8000
  {
    assert Pow2(10) == 1024;
  }

  // ---------- The code lengths ----------

  lemma {:induction false} DeltaParses(c: Coding, n: nat, cur: seq<nat>, curr: nat, to: nat)
    requires GoodTables(c, n) && Partial(c, cur) && 1 <= curr <= 20 && 1 <= to <= 20
    ensures Leads(LengthMore(c, n, cur, curr), Delta(curr, to), LengthDone(c, n, cur + [to], to))
    decreases if curr < to then to - curr else curr - to
  {
    hide Leads, GoodTables, Partial, LengthDone;
    GoodTablesMaps(c, n);
    var p := LengthMore(c, n, cur, curr);
    OneFlag(p, curr != to);
    if curr != to {
      var next := if curr < to then curr + 1 else curr - 1;
      OneFlag(LengthUpDown(c, n, cur, curr), curr > to);
      DeltaParses(c, n, cur, next, to);
      Then(p, [true], LengthUpDown(c, n, cur, curr), [curr > to], LengthMore(c, n, cur, next));
      assert [true] + [curr > to] == [true, curr > to];
      Then(p, [true, curr > to], LengthMore(c, n, cur, next), Delta(next, to), LengthDone(c, n, cur + [to], to));
    }
  }

  lemma {:induction false} DeltasParse(c: Coding, n: nat, len: seq<nat>, i: nat, curr: nat)
    requires GoodTables(c, n) && |len| == AlphaSize(c.inUse) && i < |len| && 1 <= curr <= 20
    requires forall k :: 0 <= k < |len| ==> 1 <= len[k] <= LONGEST
    ensures Leads(LengthMore(c, n, len[..i], curr), Deltas(curr, len[i..]), LengthDone(c, n, len, len[|len| - 1]))
    decreases |len| - i
  {
    hide Leads, GoodTables, AlphaSize, LengthDone, Delta;
    GoodTablesMaps(c, n);
    assert Partial(c, len[..i]);
    var p := LengthMore(c, n, len[..i], curr);
    DeltaParses(c, n, len[..i], curr, len[i]);
    assert len[..i] + [len[i]] == len[..i + 1];
    assert len[i..][1..] == len[i + 1..] && len[i..][0] == len[i];
    if i + 1 < |len| {
      NextLength(c, n, len[..i + 1], len[i]);
      DeltasParse(c, n, len, i + 1, len[i]);
      Then(p, Delta(curr, len[i]), LengthMore(c, n, len[..i + 1], len[i]), Deltas(len[i], len[i + 1..]),
           LengthDone(c, n, len, len[|len| - 1]));
    } else {
      assert len[..i + 1] == len;
      assert Delta(curr, len[i]) + [] == Delta(curr, len[i]);
    }
  }

  lemma GoodTablesMaps(c: Coding, n: nat)
    requires GoodTables(c, n)
    ensures |c.inUse| == 256 && 3 <= AlphaSize(c.inUse) && |c.lens| < n
  {
  }

  lemma NextLength(c: Coding, n: nat, cur: seq<nat>, curr: nat)
    requires |c.inUse| == 256 && 1 <= curr <= 20
    ensures |cur| < AlphaSize(c.inUse) ==> LengthDone(c, n, cur, curr) == LengthMore(c, n, cur, curr)
    ensures |cur| == AlphaSize(c.inUse) && |c.lens| + 1 < n ==>
      LengthDone(c, n, cur, curr) == FirstLength(c.(lens := c.lens + [cur]), n)
    ensures |cur| == AlphaSize(c.inUse) && |c.lens| + 1 >= n ==>
      LengthDone(c, n, cur, curr) == NextSymbol(c.(lens := c.lens + [cur]), 0, FirstDecoder())
  {
  }

  lemma LengthTableParses(c: Coding, n: nat, len: seq<nat>)
    requires GoodTables(c, n) && |len| == AlphaSize(c.inUse)
    requires forall k :: 0 <= k < |len| ==> 1 <= len[k] <= LONGEST
    ensures len != [] && Leads(FirstLength(c, n), LengthTable(len), LengthDone(c, n, len, len[|len| - 1]))
  {
    hide Leads, GoodTables, AlphaSize, LengthDone, Deltas, Bits;
    GoodTablesMaps(c, n);
    Pow2Small();
    One(FirstLength(c, n), len[0], 5);
    DeltasParse(c, n, len, 0, len[0]);
    assert len[..0] == [] && len[0..] == len;
    Then(FirstLength(c, n), Bits(len[0], 5), LengthMore(c, n, [], len[0]), Deltas(len[0], len),
         LengthDone(c, n, len, len[|len| - 1]));
  }

  /** A coding of which the first i tables are known. */
  ghost function First(c: Coding, i: nat): Coding
    requires i <= |c.lens|
  {
    c.(lens := c.lens[..i])
  }

  lemma FirstGood(c: Coding, i: nat)
    requires GoodCoding(c) && i < |c.lens| && 2 <= |c.lens|
    ensures GoodTables(First(c, i), |c.lens|)
  {
    hide Lengths, AlphaSize;
  }

  lemma {:induction false} LengthTablesParse(c: Coding, i: nat)
    requires GoodCoding(c) && 2 <= |c.lens| && i < |c.lens|
    ensures forall t :: i <= t < |c.lens| ==> c.lens[t] != []
    ensures Leads(FirstLength(First(c, i), |c.lens|), LengthTables(c.lens[i..]), NextSymbol(c, 0, FirstDecoder()))
    decreases |c.lens| - i
  {
    hide Leads, AlphaSize, LengthTable, LengthDone, NextSymbol, GoodTables;
    var n, len := |c.lens|, c.lens[i];
    FirstGood(c, i);
    LengthTableParses(First(c, i), n, len);
    NextLength(First(c, i), n, len, len[|len| - 1]);
    assert First(c, i).lens + [len] == c.lens[..i + 1];
    assert c.lens[i..][1..] == c.lens[i + 1..] && c.lens[i..][0] == len;
    if i + 1 < n {
      LengthTablesParse(c, i + 1);
      Then(FirstLength(First(c, i), n), LengthTable(len), FirstLength(First(c, i + 1), n), LengthTables(c.lens[i + 1..]),
           NextSymbol(c, 0, FirstDecoder()));
    } else {
      assert c.lens[..i + 1] == c.lens;
      assert LengthTable(len) + [] == LengthTable(len);
    }
  }

  // ---------- The symbols ----------

  /** The machine's bit-by-bit matching is the decoder's loop. */
  lemma {:induction false} ScanRuns(c: Coding, pos: nat, d: MoveToFront.Decoder, zn: nat, zvec: nat, bits: seq<bool>, sym: int)
    requires Decoding(c, pos, d) && 1 <= zn <= 21 && Least(LengthsAt(c, pos)) <= zn
    requires Scan(TableOf(LengthsAt(c, pos)), zn, zvec, bits) == Symbol(sym, zn + |bits|)
    ensures Leads(Judge(c, pos, d, zn, zvec), bits, Took(c, pos, d, sym))
    decreases |bits|
  {
    hide Leads, Took, Least, LengthsAt, TableOf;
    JudgeValid(c, pos, d, zn, zvec);
    var p := Judge(c, pos, d, zn, zvec);
    if zvec <= TableOf(LengthsAt(c, pos)).limit[zn] {
      assert bits == [];
      Stay(p);
    } else {
      OneFlag(p, bits[0]);
      ScanRuns(c, pos, d, zn + 1, 2 * zvec + Bit(bits[0]), bits[1..], sym);
      assert bits == [bits[0]] + bits[1..];
      Then(p, [bits[0]], Judge(c, pos, d, zn + 1, 2 * zvec + Bit(bits[0])), bits[1..], Took(c, pos, d, sym));
    }
  }

  /** The code of a symbol, read at its place, yields that symbol. */
  lemma CodeParses(c: Coding, pos: nat, d: MoveToFront.Decoder, sym: nat)
    requires Decoding(c, pos, d) && sym < AlphaSize(c.inUse) && PrefixCodes.IsCode(LengthsAt(c, pos), LONGEST)
    ensures var len := LengthsAt(c, pos);
      Leads(Sym(c, pos, d), Bits(Code(len, sym), len[sym]), Took(c, pos, d, sym))
  {
    hide Leads, Took, LengthsAt, TableOf, Bits, Code, PrefixCodes.IsCode, AlphaSize, Value, Scan, Least;
    var len := LengthsAt(c, pos);
    var t, s, p := TableOf(len), Bits(Code(len, sym), len[sym]), Sym(c, pos, d);
    TableOfIsTables(len);
    assert s + [] == s;
    ReadsItsCode(len, Greatest(len), t, LONGEST, sym, []);
    assert |s| >= t.minLen;
    JudgeFirst(c, pos, d);
    var v := Value(s[..t.minLen]);
    FirstBits(p, s, t.minLen);
    ScanRuns(c, pos, d, t.minLen, v, s[t.minLen..], sym);
    assert s == s[..t.minLen] + s[t.minLen..];
    Then(p, s[..t.minLen], Judge(c, pos, d, t.minLen, v), s[t.minLen..], Took(c, pos, d, sym));
  }

  lemma FirstBits(p: Phase, s: seq<bool>, n: nat)
    requires Valid(p) && !Stopped(p) && Need(p) == n <= |s|
    ensures Value(s[..n]) < Pow2(n) && Leads(p, s[..n], Resume(p, Value(s[..n])))
  {
    hide Valid, Resume, Need, Leads, Value, Pow2;
    BitsOfValue(s[..n]);
    One(p, Value(s[..n]), n);
  }

  /** The tables of a printed block, as the parser holds them. */
  ghost function CodingOf(c: Coded, bs: nat): Coding {
    Coding(Head(bs, c.crc, false, c.origPtr), c.inUse, c.selectors, c.lens)
  }

  lemma CodingGood(c: Coded, bs: nat)
    requires GoodBlock(c)
    ensures GoodCoding(CodingOf(c, bs))
    ensures 3 <= AlphaSize(c.inUse) <= 258 && |c.inUse| == 256
  {
    AlphaBound(c.inUse);
    forall t | 0 <= t < |c.lens| ensures |c.lens[t]| == AlphaSize(c.inUse) && Lengths(c.lens[t]) {
      assert GoodLengths(c.lens[t], AlphaSize(c.inUse));
    }
  }

  lemma GoodAt(c: Coded, bs: nat, pos: nat)
    requires GoodBlock(c) && pos < |c.symbols|
    ensures GoodCoding(CodingOf(c, bs)) && pos < GROUP * |c.selectors| && |c.inUse| == 256
    ensures LengthsAt(CodingOf(c, bs), pos) == c.lens[c.selectors[pos / GROUP]]
    ensures PrefixCodes.IsCode(LengthsAt(CodingOf(c, bs), pos), LONGEST)
    ensures 0 <= c.symbols[pos] < AlphaSize(c.inUse)
  {
    CodingGood(c, bs);
    assert GoodLengths(c.lens[c.selectors[pos / GROUP]], AlphaSize(c.inUse));
  }

  /** The end-of-block symbol comes last and only last. */
  ghost predicate EndsOnce(symbols: seq<int>, eob: int) {
    && symbols != [] && symbols[|symbols| - 1] == eob
    && forall i :: 0 <= i < |symbols| - 1 ==> symbols[i] != eob
  }

  ghost predicate Decodes(c: Coded, bs: nat, pos: nat, d: MoveToFront.Decoder, out: seq<int>)
    requires GoodBlock(c) && pos <= |c.symbols|
  {
    && d.Decoder? && |d.list| == 256 && AlphaSize(c.inUse) <= 258
    && MoveToFront.Run(d, c.symbols[pos..], AlphaSize(c.inUse) - 1, 100000 * bs) == MoveToFront.Finished(out)
  }

  lemma {:induction false} OverfullStays(syms: seq<int>, d: MoveToFront.Decoder, eob: int, limit: nat)
    requires !d.Decoder? && 2 <= eob && forall i :: 0 <= i < |syms| ==> 0 <= syms[i] <= eob
    ensures MoveToFront.Run(d, syms, eob, limit) == d
    decreases |syms|
  {
    if syms != [] {
      OverfullStays(syms[1..], d, eob, limit);
    }
  }

  /** One symbol of the sequence: either it goes on, or it was the last. */
  lemma DecodesStep(c: Coded, bs: nat, pos: nat, d: MoveToFront.Decoder, out: seq<int>)
    requires GoodBlock(c) && pos < |c.symbols| && EndsOnce(c.symbols, AlphaSize(c.inUse) - 1)
    requires Decodes(c, bs, pos, d, out)
    ensures 0 <= c.symbols[pos] <= AlphaSize(c.inUse) - 1 <= 257
    ensures var d' := MoveToFront.Step(d, c.symbols[pos], AlphaSize(c.inUse) - 1, 100000 * bs);
      if pos == |c.symbols| - 1 then d' == MoveToFront.Finished(out) else Decodes(c, bs, pos + 1, d', out)
  {
    hide MtfEncoder.UsedBelow, GoodLengths;
    var eob := AlphaSize(c.inUse) - 1;
    var d' := MoveToFront.Step(d, c.symbols[pos], eob, 100000 * bs);
    assert c.symbols[pos..][1..] == c.symbols[pos + 1..];
    if !d'.Decoder? {
      OverfullStays(c.symbols[pos + 1..], d', eob, 100000 * bs);
    }
  }

  lemma {:induction false} CodesParse(c: Coded, bs: nat, pos: nat, d: MoveToFront.Decoder, out: seq<int>)
    requires GoodBlock(c) && pos < |c.symbols| && EndsOnce(c.symbols, AlphaSize(c.inUse) - 1)
    requires Decodes(c, bs, pos, d, out) && c.origPtr < |out|
    ensures Leads(NextSymbol(CodingOf(c, bs), pos, d), Codes(c, pos), Block(CodingOf(c, bs), out))
    decreases |c.symbols| - pos
  {
    hide Leads, GoodBlock, AlphaSize, EndsOnce, Decodes, LengthsAt, Bits, Code, PrefixCodes.IsCode, MoveToFront.Step,
         GoodCoding;
    var e, sym := CodingOf(c, bs), c.symbols[pos];
    GoodAt(c, bs, pos);
    CodingGood(c, bs);
    DecodesFacts(c, bs, pos, d, out);
    DecodesStep(c, bs, pos, d, out);
    CodeParses(e, pos, d, sym);
    var code := Bits(Code(LengthsAt(e, pos), sym), LengthsAt(e, pos)[sym]);
    if pos + 1 < |c.symbols| {
      var d' := MoveToFront.Step(d, sym, AlphaSize(c.inUse) - 1, 100000 * bs);
      DecodesFacts(c, bs, pos + 1, d', out);
      CodesParse(c, bs, pos + 1, d', out);
      Then(Sym(e, pos, d), code, NextSymbol(e, pos + 1, d'), Codes(c, pos + 1), Block(e, out));
    } else {
      assert code + [] == code;
    }
  }

  lemma DecodesFacts(c: Coded, bs: nat, pos: nat, d: MoveToFront.Decoder, out: seq<int>)
    requires GoodBlock(c) && pos <= |c.symbols| && Decodes(c, bs, pos, d, out)
    ensures d.Decoder? && |d.list| == 256
  {
  }

  // ---------- The block, and the stream ----------

  /** A printed block parses back to its checksum, pointer, bytes in use, selectors, lengths and
      the bytes its symbols stand for. */
  lemma BlockParses(c: Coded, bs: nat, out: seq<int>)
    requires GoodBlock(c) && EndsOnce(c.symbols, AlphaSize(c.inUse) - 1)
    requires Decodes(c, bs, 0, FirstDecoder(), out) && c.origPtr < |out| <= 100000 * bs
    ensures Leads(BlockMagic(bs, 1), BlockBits(c), Block(CodingOf(c, bs), out))
  {
    hide *;
    GoodBlockFacts(c);
    CodingGood(c, bs);
    var h, n := Head(bs, c.crc, false, c.origPtr), |c.lens|;
    var e := CodingOf(c, bs);
    HeaderParses(c, bs);
    MappingParsesAll(h, c.inUse);
    SelectorsParse(h, c.inUse, n, c.selectors);
    TablesParse(c, bs);
    CodesParse(c, bs, 0, FirstDecoder(), out);
    BlockBitsUnfold(c);
    Chain5(BlockMagic(bs, 1), HeaderBits(c), Map16(h, []), Mapping(c.inUse), Groups(h, c.inUse),
           Selectors(n, c.selectors), FirstLength(Coding(h, c.inUse, c.selectors, []), n), LengthTables(c.lens),
           NextSymbol(e, 0, FirstDecoder()), Codes(c, 0), Block(e, out));
  }

  ghost function HeaderBits(c: Coded): seq<bool> {
    Bytes(BLOCK_MAGIC) + Word(c.crc) + [false] + Bits(c.origPtr, 24)
  }

  lemma BlockBitsUnfold(c: Coded)
    requires GoodBlock(c)
    ensures |c.inUse| == 256 && (forall i :: 0 <= i < |c.selectors| ==> c.selectors[i] < |c.lens|)
    ensures forall t :: 0 <= t < |c.lens| ==> c.lens[t] != []
    ensures BlockBits(c) == HeaderBits(c) + Mapping(c.inUse) + Selectors(|c.lens|, c.selectors)
                            + LengthTables(c.lens) + Codes(c, 0)
  {
  }

  lemma GoodBlockFacts(c: Coded)
    requires GoodBlock(c)
    ensures |c.inUse| == 256 && 3 <= AlphaSize(c.inUse) && c.crc < 0x1_0000_0000 && c.origPtr < 0x100_0000
    ensures 2 <= |c.lens| <= 6 && 1 <= |c.selectors| <= MAX_SELECTORS < 0x8000 && 1 <= |c.symbols|
    ensures forall i :: 0 <= i < |c.selectors| ==> c.selectors[i] < |c.lens|
    ensures forall t :: 0 <= t < |c.lens| ==> c.lens[t] != []
  {
    hide MtfEncoder.UsedBelow;
    forall t | 0 <= t < |c.lens| ensures c.lens[t] != [] {
      assert GoodLengths(c.lens[t], AlphaSize(c.inUse));
    }
  }

  lemma HeaderParses(c: Coded, bs: nat)
    requires c.crc < 0x1_0000_0000 && c.origPtr < 0x100_0000 && c.origPtr <= 100000 * bs
    ensures Leads(BlockMagic(bs, 1), HeaderBits(c), Map16(Head(bs, c.crc, false, c.origPtr), []))
  {
    hide Leads, Bytes, Word, Bits;
    BlockMagicParses(bs, 1);
    assert BLOCK_MAGIC[0..] == BLOCK_MAGIC;
    BlockSumParses(bs, c.crc);
    OneFlag(RandBit(bs, c.crc), false);
    OriginParses(bs, c.crc, false, c.origPtr);
    Chain4(BlockMagic(bs, 1), Bytes(BLOCK_MAGIC), BlockSum(bs, 1, 0), Word(c.crc), RandBit(bs, c.crc), [false],
           Origin(Head(bs, c.crc, false, 0), 1), Bits(c.origPtr, 24), Map16(Head(bs, c.crc, false, c.origPtr), []));
  }

  lemma MappingParsesAll(h: Head, u: seq<bool>)
    requires |u| == 256 && 3 <= AlphaSize(u)
    ensures Leads(Map16(h, []), Mapping(u), Groups(h, u))
  {
    hide Leads, AlphaSize, Mapped, UsedGroups;
    var u16 := Used16(u);
    Map16Parses(h, u16, 0);
    assert u16[..0] == [] && u16[0..] == u16 && u[..0] == [];
    MappingParses(h, u, 0);
    Then(Map16(h, []), u16, Mapped(h, u16, []), UsedGroups(u, 0), Groups(h, u));
  }

  lemma TablesParse(c: Coded, bs: nat)
    requires GoodBlock(c)
    ensures forall t :: 0 <= t < |c.lens| ==> c.lens[t] != []
    ensures Leads(FirstLength(Coding(Head(bs, c.crc, false, c.origPtr), c.inUse, c.selectors, []), |c.lens|),
                  LengthTables(c.lens), NextSymbol(CodingOf(c, bs), 0, FirstDecoder()))
  {
    hide Leads, GoodBlock, GoodCoding, LengthTables, NextSymbol;
    CodingGood(c, bs);
    GoodBlockFacts(c);
    LengthTablesParse(CodingOf(c, bs), 0);
    assert c.lens[..0] == [] && c.lens[0..] == c.lens;
  }

  lemma Chain5(p: Phase, s: seq<bool>, p1: Phase, s1: seq<bool>, p2: Phase, s2: seq<bool>, p3: Phase, s3: seq<bool>,
               p4: Phase, s4: seq<bool>, p5: Phase)
    requires Leads(p, s, p1) && Leads(p1, s1, p2) && Leads(p2, s2, p3) && Leads(p3, s3, p4) && Leads(p4, s4, p5)
    ensures Leads(p, s + s1 + s2 + s3 + s4, p5)
  {
    hide Leads;
    Chain4(p, s, p1, s1, p2, s2, p3, s3, p4);
    Then(p, s + s1 + s2 + s3, p4, s4, p5);
  }

  // ---------- The stream ----------

  lemma {:induction false} RunShrinks(p: Phase, bits: seq<bool>)
    requires Valid(p)
    ensures |Run(p, bits).1| <= |bits|
    ensures Run(p, bits).0 != p ==> |Run(p, bits).1| < |bits|
    decreases |bits|
  {
    hide Valid, Need, Resume, Value;
    if !Stopped(p) && |bits| >= Need(p) {
      var v := Value(bits[..Need(p)]);
      ResumeValid(p, v);
      RunShrinks(Resume(p, v), bits[Need(p)..]);
    }
  }

  /** One block as parsed. */
  datatype Parsed = Parsed(c: Coding, out: seq<int>)

  /** The whole session: after each block the machine waits for the next block header. */
  ghost function Session(p: Phase, bits: seq<bool>): (r: (seq<Parsed>, Phase, seq<bool>))
    requires Valid(p) && !p.Block?
    decreases |bits|
  {
    var q := Run(p, bits);
    RunShrinks(p, bits);
    if q.0.Block? then
      var r := Session(BlockMagic(q.0.c.head.bs, 1), q.1);
      ([Parsed(q.0.c, q.0.out)] + r.0, r.1, r.2)
    else ([], q.0, q.1)
  }

  ghost function ParsedOf(cs: seq<Coded>, bs: nat, outs: seq<seq<int>>): (s: seq<Parsed>)
    requires |cs| == |outs|
    ensures |s| == |cs|
  {
    seq(|cs|, i requires 0 <= i < |cs| => Parsed(CodingOf(cs[i], bs), outs[i]))
  }

  /** Block i is well formed and its symbols stand for outs[i]. */
  ghost predicate BlockStandsFor(c: Coded, bs: nat, out: seq<int>) {
    && GoodBlock(c) && EndsOnce(c.symbols, AlphaSize(c.inUse) - 1)
    && Decodes(c, bs, 0, FirstDecoder(), out) && c.origPtr < |out| <= 100000 * bs
  }

  lemma {:induction false} BlocksParse(cs: seq<Coded>, bs: nat, outs: seq<seq<int>>, combined: nat, pad: seq<bool>)
    requires |cs| == |outs| && forall i :: 0 <= i < |cs| ==> BlockStandsFor(cs[i], bs, outs[i])
    requires combined < 0x1_0000_0000
    ensures forall i :: 0 <= i < |cs| ==> GoodBlock(cs[i])
    ensures Session(BlockMagic(bs, 1), BlocksBits(cs) + (Bytes(END_MAGIC) + Word(combined) + pad))
         == (ParsedOf(cs, bs, outs), End(combined), pad)
    decreases |cs|
  {
    hide Run, BlockStandsFor, BlockBits, Bytes, Word, CodingOf, GoodBlock;
    forall i | 0 <= i < |cs| ensures GoodBlock(cs[i]) { StandsForGood(cs[i], bs, outs[i]); }
    var tail := Bytes(END_MAGIC) + Word(combined) + pad;
    if cs == [] {
      EndParses(bs, combined);
      LeadsOn(BlockMagic(bs, 1), Bytes(END_MAGIC) + Word(combined), End(combined), pad);
      assert BlocksBits(cs) + tail == tail;
      assert ParsedOf(cs, bs, outs) == [];
    } else {
      StandsForParses(cs[0], bs, outs[0]);
      var rest := BlocksBits(cs[1..]) + tail;
      BlocksParse(cs[1..], bs, outs[1..], combined, pad);
      LeadsOn(BlockMagic(bs, 1), BlockBits(cs[0]), Block(CodingOf(cs[0], bs), outs[0]), rest);
      assert BlocksBits(cs) + tail == BlockBits(cs[0]) + rest;
      CodingOfBs(cs[0], bs);
      assert ParsedOf(cs, bs, outs) == [Parsed(CodingOf(cs[0], bs), outs[0])] + ParsedOf(cs[1..], bs, outs[1..]);
    }
  }

  lemma CodingOfBs(c: Coded, bs: nat)
    ensures CodingOf(c, bs).head.bs == bs
  {
  }

  lemma StandsForGood(c: Coded, bs: nat, out: seq<int>)
    requires BlockStandsFor(c, bs, out)
    ensures GoodBlock(c)
  {
  }

  lemma StandsForParses(c: Coded, bs: nat, out: seq<int>)
    requires BlockStandsFor(c, bs, out)
    ensures GoodBlock(c) && Leads(BlockMagic(bs, 1), BlockBits(c), Block(CodingOf(c, bs), out))
  {
    hide Leads;
    BlockParses(c, bs, out);
  }

  /** A stopped phase is reached whatever bits follow, and leaves them alone. */
  lemma LeadsOn(p: Phase, s: seq<bool>, q: Phase, rest: seq<bool>)
    requires Leads(p, s, q) && Stopped(q)
    ensures Valid(p) && Run(p, s + rest) == (q, rest)
  {
    hide Valid, Need;
    RunConcat(p, s, rest);
    assert [] + rest == rest;
  }

  lemma EndMagicByte(bs: nat, k: nat)
    requires 2 <= k <= 6
    ensures Leads(EndMagic(bs, k), Bits(END_MAGIC[k - 1], 8), if k < 6 then EndMagic(bs, k + 1) else EndSum(1, 0))
  {
    hide Leads, Bits;
    OneByte(EndMagic(bs, k), END_MAGIC[k - 1]);
  }

  lemma {:induction false} EndMagicParses(bs: nat, k: nat)
    requires 2 <= k <= 6
    ensures Leads(EndMagic(bs, k), Bytes(END_MAGIC[k - 1..]), EndSum(1, 0))
    decreases 6 - k
  {
    hide Leads, Bits, Bytes;
    var p := EndMagic(bs, k);
    EndMagicByte(bs, k);
    BytesNext(END_MAGIC[k - 1..]);
    if k < 6 {
      assert END_MAGIC[k - 1..][1..] == END_MAGIC[k..];
      EndMagicParses(bs, k + 1);
      Then(p, Bits(END_MAGIC[k - 1], 8), EndMagic(bs, k + 1), Bytes(END_MAGIC[k..]), EndSum(1, 0));
    } else {
      assert END_MAGIC[5..] == [0x90];
      BytesOne(0x90);
    }
  }

  lemma EndParses(bs: nat, combined: nat)
    requires combined < 0x1_0000_0000
    ensures Leads(BlockMagic(bs, 1), Bytes(END_MAGIC) + Word(combined), End(combined))
  {
    hide Leads, Bits, Word;
    OneByte(BlockMagic(bs, 1), 0x17);
    EndMagicParses(bs, 2);
    assert END_MAGIC[0] == 0x17 && END_MAGIC[1..] == END_MAGIC[2 - 1..];
    Then(BlockMagic(bs, 1), Bits(0x17, 8), EndMagic(bs, 2), Bytes(END_MAGIC[1..]), EndSum(1, 0));
    EndSumParses(combined);
    Then(BlockMagic(bs, 1), Bytes(END_MAGIC), EndSum(1, 0), Word(combined), End(combined));
  }

  lemma EndSumByte(k: nat, acc: nat, v: nat)
    requires 1 <= k <= 4 && v < 256
    ensures Leads(EndSum(k, acc), Bits(v, 8), if k < 4 then EndSum(k + 1, 256 * acc + v) else End(256 * acc + v))
  {
    hide Leads, Bits;
    OneByte(EndSum(k, acc), v);
  }

  lemma EndSumParses(crc: nat)
    requires crc < 0x1_0000_0000
    ensures Leads(EndSum(1, 0), Word(crc), End(crc))
  {
    hide *;
    var a, b, c, d := WordParts(crc);
    EndSumByte(1, 0, a);
    EndSumByte(2, a, b);
    EndSumByte(3, 256 * a + b, c);
    EndSumByte(4, 256 * (256 * a + b) + c, d);
    Chain4(EndSum(1, 0), Bits(a, 8), EndSum(2, a), Bits(b, 8), EndSum(3, 256 * a + b), Bits(c, 8),
           EndSum(4, 256 * (256 * a + b) + c), Bits(d, 8), End(crc));
  }

  lemma MagicByte(k: nat, v: nat)
    requires if 1 <= k <= 3 then v == STREAM_MAGIC[k - 1] else k == 4 && 0x31 <= v <= 0x39
    ensures Leads(Magic(k), Bits(v, 8), if k < 4 then Magic(k + 1) else BlockMagic(v - 0x30, 1))
  {
    hide Leads, Bits;
    OneByte(Magic(k), v);
  }

  lemma MagicParses(level: nat)
    requires 1 <= level <= 9
    ensures Leads(Magic(1), Bytes([0x42, 0x5a, 0x68, 0x30 + level]), BlockMagic(level, 1))
  {
    hide Leads, Bits, Bytes;
    BytesFour(0x42, 0x5a, 0x68, 0x30 + level);
    MagicByte(1, 0x42);
    MagicByte(2, 0x5a);
    MagicByte(3, 0x68);
    MagicByte(4, 0x30 + level);
    Chain4(Magic(1), Bits(0x42, 8), Magic(2), Bits(0x5a, 8), Magic(3), Bits(0x68, 8), Magic(4), Bits(0x30 + level, 8),
           BlockMagic(level, 1));
  }

  /** A printed stream parses back, block by block, to the end, and stops before the padding. */
  lemma StreamParses(level: nat, cs: seq<Coded>, outs: seq<seq<int>>, combined: nat, pad: seq<bool>)
    requires 1 <= level <= 9 && combined < 0x1_0000_0000
    requires |cs| == |outs| && forall i :: 0 <= i < |cs| ==> BlockStandsFor(cs[i], level, outs[i])
    ensures forall i :: 0 <= i < |cs| ==> GoodBlock(cs[i])
    ensures Session(Magic(1), StreamBits(level, cs, combined) + pad)
         == (ParsedOf(cs, level, outs), End(combined), pad)
  {
    hide Run, BlockStandsFor, Bytes, Word, GoodBlock, Session, BlocksBits, Leads;
    BlocksParse(cs, level, outs, combined, pad);
    MagicParses(level);
    var m, rest := Bytes([0x42, 0x5a, 0x68, 0x30 + level]), BlocksBits(cs) + (Bytes(END_MAGIC) + Word(combined) + pad);
    assert StreamBits(level, cs, combined) + pad == m + rest;
    SessionSkips(Magic(1), m, BlockMagic(level, 1), rest);
  }

  lemma SessionSkips(p: Phase, s: seq<bool>, q: Phase, rest: seq<bool>)
    requires Leads(p, s, q) && !p.Block? && !q.Block?
    ensures Valid(q) && Valid(p) && Session(p, s + rest) == Session(q, rest)
  {
    hide Valid, Need, Run;
    RunConcat(p, s, rest);
    assert [] + rest == rest;
  }
}
