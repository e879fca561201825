/** BZ2_decompress as a resumable machine (dep/bzip2/decompress.c:36-98, 186-476, 577-604):
    each phase is one suspension point of the coroutine together with exactly what is alive
    there, and Resume is what happens from one GET_BITS to the next. */
module BlockParser {
  import opened Powers
  import opened Counting
  import opened CanonicalCodes
  import opened BlockFormat
  import MoveToFront
  import MtfEncoder

  /** Entries of selector and selectorMtf.  The source compares the number of selectors, which
      has fifteen bits, with nothing. */
  const MAX_SELECTORS: nat := 18002

  // ---------- What is alive at each suspension ----------

  /** From the block header: block size in units of 100000, checksum, randomised bit, origPtr. */
  datatype Head = Head(bs: nat, crc: nat, rand: bool, orig: nat)

  /** From the tables: bytes in use, table by group, code lengths by table. */
  datatype Coding = Coding(head: Head, inUse: seq<bool>, sel: seq<nat>, lens: seq<seq<nat>>)

  datatype Phase =
    | Magic(k: nat)                                      // BZ_X_MAGIC_1..4
    | BlockMagic(bs: nat, k: nat)                        // BZ_X_BLKHDR_1..6
    | BlockSum(bs: nat, k: nat, acc: nat)                // BZ_X_BCRC_1..4
    | RandBit(bs: nat, crc: nat)                         // BZ_X_RANDBIT
    | Origin(h: Head, k: nat)                            // BZ_X_ORIGPTR_1..3
    | Map16(h: Head, u16: seq<bool>)                     // BZ_X_MAPPING_1
    | Map(h: Head, u16: seq<bool>, u: seq<bool>)         // BZ_X_MAPPING_2
    | Groups(h: Head, u: seq<bool>)                      // BZ_X_SELECTOR_1
    | HowMany(h: Head, u: seq<bool>, n: nat)             // BZ_X_SELECTOR_2
    | Selector(h: Head, u: seq<bool>, n: nat, count: nat, mtf: seq<nat>, j: nat)  // BZ_X_SELECTOR_3
    | FirstLength(c: Coding, n: nat)                     // BZ_X_CODING_1
    | LengthMore(c: Coding, n: nat, cur: seq<nat>, curr: nat)  // BZ_X_CODING_2
    | LengthUpDown(c: Coding, n: nat, cur: seq<nat>, curr: nat)  // BZ_X_CODING_3
    | Sym(c: Coding, pos: nat, d: MoveToFront.Decoder)   // BZ_X_MTF_1, 3 and 5
    | SymBit(c: Coding, pos: nat, d: MoveToFront.Decoder, zn: nat, zvec: nat)  // BZ_X_MTF_2, 4 and 6
    | Block(c: Coding, out: seq<int>)                    // BZ_X_OUTPUT
    | EndMagic(bs: nat, k: nat)                          // BZ_X_ENDHDR_2..6
    | EndSum(k: nat, acc: nat)                           // BZ_X_CCRC_1..4
    | End(combined: nat)                                 // BZ_X_IDLE, BZ_STREAM_END
    | BadMagic                                           // BZ_DATA_ERROR_MAGIC
    | BadData                                            // BZ_DATA_ERROR
    | Undefined  // the source has left a 32-bit range or an array: C says nothing of what follows

  ghost predicate Stopped(p: Phase) {
    p.Block? || p.End? || p.BadMagic? || p.BadData? || p.Undefined?
  }

  // ---------- Tables and symbols ----------

  ghost function Least(len: seq<nat>): (m: nat)
    requires len != []
    ensures m in len && forall i :: 0 <= i < |len| ==> m <= len[i]
  {
    if |len| == 1 then len[0]
    else
      var m := Least(len[..|len| - 1]);
      if len[|len| - 1] < m then len[|len| - 1] else m
  }

  ghost function Greatest(len: seq<nat>): (m: nat)
    requires len != []
    ensures m in len && forall i :: 0 <= i < |len| ==> len[i] <= m
  {
    if |len| == 1 then len[0]
    else
      var m := Greatest(len[..|len| - 1]);
      if len[|len| - 1] > m then len[|len| - 1] else m
  }

  lemma PlaceExists(len: seq<nat>, k: nat)
    requires k < |len|
    ensures exists i: nat :: i < |len| && Place(len, i) == k
  {
    var i := PlaceOnto(len, k);
  }

  ghost function SymbolAt(len: seq<nat>, k: nat): (i: nat)
    requires k < |len|
    ensures i < |len| && Place(len, i) == k
  {
    PlaceExists(len, k);
    var i: nat :| i < |len| && Place(len, i) == k;
    i
  }

  ghost predicate Lengths(len: seq<nat>) {
    1 <= |len| <= MAX_ALPHA && forall i :: 0 <= i < |len| ==> 1 <= len[i] <= LONGEST
  }

  /** The decoding tables for a length vector. */
  ghost function TableOf(len: seq<nat>): (t: Tables)
    requires Lengths(len)
    ensures |t.limit| == |t.base| == |t.perm| == MAX_ALPHA && t.minLen == Least(len)
  {
    var lo, hi := Least(len), Greatest(len);
    Tables(lo,
           seq(MAX_ALPHA, n requires 0 <= n => if lo <= n <= hi then LastCode(len, n) else 0),
           seq(MAX_ALPHA, n requires 0 <= n => if lo <= n <= hi then FirstCode(len, n) - CountLess(len, n) else |len|),
           seq(MAX_ALPHA, k requires 0 <= k => if k < |len| then SymbolAt(len, k) else 0))
  }

  lemma TableOfIsTables(len: seq<nat>)
    requires Lengths(len)
    ensures TablesFor(len, Greatest(len), TableOf(len))
    ensures 1 <= TableOf(len).minLen <= LONGEST
  {
    hide FirstCode, CountEq, CountLess;
    var t := TableOf(len);
    forall i | 0 <= i < |len| ensures t.perm[Place(len, i)] == i {
      var k := Place(len, i);
      if SymbolAt(len, k) != i {
        PlaceInjective(len, SymbolAt(len, k), i);
      }
    }
  }

  ghost predicate GoodCoding(c: Coding) {
    && |c.inUse| == 256 && 3 <= AlphaSize(c.inUse)
    && 1 <= |c.sel| <= MAX_SELECTORS && 1 <= |c.lens| <= 6
    && (forall i :: 0 <= i < |c.sel| ==> c.sel[i] < |c.lens|)
    && (forall t :: 0 <= t < |c.lens| ==> |c.lens[t]| == AlphaSize(c.inUse) && Lengths(c.lens[t]))
  }

  ghost predicate Decoding(c: Coding, pos: nat, d: MoveToFront.Decoder) {
    GoodCoding(c) && pos < GROUP * |c.sel| && d.Decoder? && |d.list| == 256
  }

  ghost function LengthsAt(c: Coding, pos: nat): (len: seq<nat>)
    requires GoodCoding(c) && pos < GROUP * |c.sel|
    ensures Lengths(len) && |len| == AlphaSize(c.inUse)
  {
    c.lens[c.sel[pos / GROUP]]
  }

  /** Between symbols: a new group needs a selector. */
  ghost function NextSymbol(c: Coding, pos: nat, d: MoveToFront.Decoder): Phase {
    if pos >= GROUP * |c.sel| then BadData else Sym(c, pos, d)
  }

  ghost function Took(c: Coding, pos: nat, d: MoveToFront.Decoder, sym: int): Phase
    requires Decoding(c, pos, d)
  {
    var eob := AlphaSize(c.inUse) - 1;
    if !(0 <= sym <= eob) then BadData
    else
      match MoveToFront.Step(d, sym, eob, 100000 * c.head.bs)
      case Overfull => BadData
      case Overflowed => Undefined
      case Finished(out) => if c.head.orig >= |out| then BadData else Block(c, out)
      case Decoder(_, _, _, _) => NextSymbol(c, pos + 1, MoveToFront.Step(d, sym, eob, 100000 * c.head.bs))
  }

  /** zn bits of value zvec against the table. */
  ghost function Judge(c: Coding, pos: nat, d: MoveToFront.Decoder, zn: nat, zvec: nat): Phase
    requires Decoding(c, pos, d) && zn <= 21
  {
    var t := TableOf(LengthsAt(c, pos));
    if zn > LONGEST then BadData
    else if zvec <= t.limit[zn] then
      var k := zvec - t.base[zn];
      if k < 0 || k >= MAX_ALPHA then BadData else Took(c, pos, d, t.perm[k])
    else SymBit(c, pos, d, zn + 1, zvec)
  }

  // ---------- The header ----------

  /** Sixteen bytes that are not in use. */
  ghost function NoneUsed(): (u: seq<bool>)
    ensures |u| == 16 && forall j :: 0 <= j < 16 ==> !u[j]
  {
    seq(16, j => false)
  }

  /** Groups of sixteen bytes that are not in use take no bits. */
  ghost function SkipUnused(u16: seq<bool>, u: seq<bool>): (r: seq<bool>)
    requires |u16| == 16 && |u| <= 256 && |u| % 16 == 0
    ensures |u| <= |r| <= 256 && |r| % 16 == 0 && (|r| < 256 ==> u16[|r| / 16])
    decreases 256 - |u|
  {
    if |u| == 256 || u16[|u| / 16] then u else SkipUnused(u16, u + NoneUsed())
  }

  /** After a group: more flags, or the number of tables. */
  ghost function Mapped(h: Head, u16: seq<bool>, u: seq<bool>): Phase
    requires |u16| == 16 && |u| <= 256
  {
    if |u| % 16 != 0 then Map(h, u16, u)
    else
      var r := SkipUnused(u16, u);
      if |r| < 256 then Map(h, u16, r)
      else if MtfEncoder.UsedBelow(r, 256) == 0 then BadData
      else Groups(h, r)
  }

  /** Undo the move-to-front of the selectors. */
  ghost function Undone(pos: seq<int>, mtf: seq<nat>): (sel: seq<int>)
    requires forall i :: 0 <= i < |mtf| ==> mtf[i] < |pos|
    ensures |sel| == |mtf|
    ensures forall i :: 0 <= i < |sel| ==> sel[i] in pos
    decreases |mtf|
  {
    if mtf == [] then []
    else
      var l := MoveToFront.Front(pos, mtf[0]);
      FrontElements(pos, mtf[0]);
      [pos[mtf[0]]] + Undone(l, mtf[1..])
  }

  lemma FrontElements(l: seq<int>, p: nat)
    requires p < |l|
    ensures forall x :: x in MoveToFront.Front(l, p) ==> x in l
  {
  }

  ghost function Naturals(s: seq<int>): (n: seq<nat>)
    requires forall i :: 0 <= i < |s| ==> 0 <= s[i]
    ensures n == s
  {
    seq(|s|, i requires 0 <= i < |s| => s[i])
  }

  ghost function UndoneSelectors(n: nat, mtf: seq<nat>): (sel: seq<nat>)
    requires forall i :: 0 <= i < |mtf| ==> mtf[i] < n
    ensures |sel| == |mtf| && forall i :: 0 <= i < |sel| ==> sel[i] < n
  {
    Naturals(Undone(MtfEncoder.Identity(n), mtf))
  }

  /** A code length must be in range before each further bit. */
  ghost function LengthCheck(c: Coding, n: nat, cur: seq<nat>, curr: nat): Phase {
    if curr < 1 || curr > 20 then BadData else LengthMore(c, n, cur, curr)
  }

  ghost function InitialList(): (l: seq<int>) {
    MtfEncoder.Identity(256)
  }

  /** The symbol machine before the first symbol. */
  ghost function FirstDecoder(): MoveToFront.Decoder {
    MoveToFront.Decoder(InitialList(), [], 0, 1)
  }

  /** One more length: go on with this table, the next table, or the symbols. */
  ghost function LengthDone(c: Coding, n: nat, cur: seq<nat>, curr: nat): Phase
    requires |c.inUse| == 256
  {
    if |cur| < AlphaSize(c.inUse) then LengthCheck(c, n, cur, curr)
    else
      var c' := c.(lens := c.lens + [cur]);
      if |c'.lens| < n then FirstLength(c', n)
      else NextSymbol(c', 0, FirstDecoder())
  }

  /** What holds at each suspension. */
  ghost predicate Valid(p: Phase) {
    match p
    case Magic(k) => 1 <= k <= 4
    case BlockMagic(_, k) => 1 <= k <= 6
    case BlockSum(_, k, _) => 1 <= k <= 4
    case Origin(_, k) => 1 <= k <= 3
    case Map16(_, u16) => |u16| < 16
    case Map(_, u16, u) => |u16| == 16 && |u| < 256 && u16[|u| / 16]
    case Groups(_, u) => |u| == 256 && 3 <= AlphaSize(u)
    case HowMany(_, u, n) => |u| == 256 && 3 <= AlphaSize(u) && 2 <= n <= 6
    case Selector(_, u, n, count, mtf, j) =>
      && |u| == 256 && 3 <= AlphaSize(u) && 2 <= n <= 6 && |mtf| < count && j < n && |mtf| <= MAX_SELECTORS
      && forall i :: 0 <= i < |mtf| ==> mtf[i] < n
    case FirstLength(c, n) => GoodTables(c, n)
    case LengthMore(c, n, cur, curr) => GoodTables(c, n) && Partial(c, cur) && 1 <= curr <= 20
    case LengthUpDown(c, n, cur, curr) => GoodTables(c, n) && Partial(c, cur) && 1 <= curr <= 20
    case Sym(c, pos, d) => Decoding(c, pos, d)
    case SymBit(c, pos, d, zn, zvec) =>
      && Decoding(c, pos, d) && 2 <= zn <= 21 && Least(LengthsAt(c, pos)) < zn
      && TableOf(LengthsAt(c, pos)).limit[zn - 1] < zvec
    case Block(c, out) => GoodCoding(c) && c.head.orig < |out| <= 100000 * c.head.bs
    case EndMagic(_, k) => 2 <= k <= 6
    case EndSum(k, _) => 1 <= k <= 4
    case _ => true
  }

  ghost predicate GoodTables(c: Coding, n: nat) {
    && |c.inUse| == 256 && 3 <= AlphaSize(c.inUse) && 2 <= n <= 6 && |c.lens| < n
    && 1 <= |c.sel| <= MAX_SELECTORS && (forall i :: 0 <= i < |c.sel| ==> c.sel[i] < n)
    && (forall t :: 0 <= t < |c.lens| ==> |c.lens[t]| == AlphaSize(c.inUse) && Lengths(c.lens[t]))
  }

  ghost predicate Partial(c: Coding, cur: seq<nat>)
    requires |c.inUse| == 256
  {
    |cur| < AlphaSize(c.inUse) && forall i :: 0 <= i < |cur| ==> 1 <= cur[i] <= LONGEST
  }

  // ---------- From one GET_BITS to the next ----------

  /** How many bits the machine waits for. */
  ghost function Need(p: Phase): (n: nat)
    requires Valid(p) && !Stopped(p)
    ensures 1 <= n <= 20
  {
    match p
    case Magic(_) => 8
    case BlockMagic(_, _) => 8
    case BlockSum(_, _, _) => 8
    case Origin(_, _) => 8
    case EndMagic(_, _) => 8
    case EndSum(_, _) => 8
    case Groups(_, _) => 3
    case HowMany(_, _, _) => 15
    case FirstLength(_, _) => 5
    case Sym(c, pos, _) => TableOfIsTables(LengthsAt(c, pos)); TableOf(LengthsAt(c, pos)).minLen
    case _ => 1
  }

  const STREAM_MAGIC: seq<nat> := [0x42, 0x5a, 0x68]

  ghost function Resume(p: Phase, v: nat): (p': Phase)
    requires Valid(p) && !Stopped(p) && v < Pow2(Need(p))
  {
    match p
    case Magic(k) =>
      if k < 4 then if v == STREAM_MAGIC[k - 1] then Magic(k + 1) else BadMagic
      else if v < 0x31 || v > 0x39 then BadMagic
      else BlockMagic(v - 0x30, 1)
    case BlockMagic(bs, k) =>
      if k == 1 && v == END_MAGIC[0] then EndMagic(bs, 2)
      else if v != BLOCK_MAGIC[k - 1] then BadData
      else if k < 6 then BlockMagic(bs, k + 1)
      else BlockSum(bs, 1, 0)
    case BlockSum(bs, k, acc) =>
      if k < 4 then BlockSum(bs, k + 1, 256 * acc + v) else RandBit(bs, 256 * acc + v)
    case RandBit(bs, crc) => Origin(Head(bs, crc, v == 1, 0), 1)
    case Origin(h, k) =>
      var orig := 256 * h.orig + v;
      if k < 3 then Origin(h.(orig := orig), k + 1)
      else if orig > 10 + 100000 * h.bs then BadData
      else Map16(h.(orig := orig), [])
    case Map16(h, u16) =>
      var u16' := u16 + [v == 1];
      if |u16'| < 16 then Map16(h, u16') else Mapped(h, u16', [])
    case Map(h, u16, u) => Mapped(h, u16, u + [v == 1])
    case Groups(h, u) => if v < 2 || v > 6 then BadData else HowMany(h, u, v)
    case HowMany(h, u, n) => if v < 1 then BadData else Selector(h, u, n, v, [], 0)
    case Selector(h, u, n, count, mtf, j) =>
      if v == 1 then
        if j + 1 >= n then BadData else Selector(h, u, n, count, mtf, j + 1)
      else
        var mtf' := mtf + [j];
        if |mtf| >= MAX_SELECTORS then Undefined
        else if |mtf'| < count then Selector(h, u, n, count, mtf', 0)
        else FirstLength(Coding(h, u, UndoneSelectors(n, mtf'), []), n)
    case FirstLength(c, n) => LengthCheck(c, n, [], v)
    case LengthMore(c, n, cur, curr) =>
      if v == 1 then LengthUpDown(c, n, cur, curr) else LengthDone(c, n, cur + [curr], curr)
    case LengthUpDown(c, n, cur, curr) => LengthCheck(c, n, cur, if v == 0 then curr + 1 else curr - 1)
    case Sym(c, pos, d) => Judge(c, pos, d, Need(p), v)
    case SymBit(c, pos, d, zn, zvec) => Judge(c, pos, d, zn, 2 * zvec + v)
    case EndMagic(bs, k) =>
      if v != END_MAGIC[k - 1] then BadData
      else if k < 6 then EndMagic(bs, k + 1)
      else EndSum(1, 0)
    case EndSum(k, acc) => if k < 4 then EndSum(k + 1, 256 * acc + v) else End(256 * acc + v)
  }

  lemma MappedValid(h: Head, u16: seq<bool>, u: seq<bool>)
    requires |u16| == 16 && |u| <= 256 && (|u| % 16 != 0 ==> u16[|u| / 16])
    ensures Valid(Mapped(h, u16, u))
  {
    hide MtfEncoder.UsedBelow;
    assert |u| % 16 != 0 ==> |u| < 256;
  }

  lemma LengthDoneValid(c: Coding, n: nat, cur: seq<nat>, curr: nat)
    requires GoodTables(c, n) && |cur| <= AlphaSize(c.inUse) && 1 <= curr <= 20
    requires forall i :: 0 <= i < |cur| ==> 1 <= cur[i] <= LONGEST
    ensures Valid(LengthDone(c, n, cur, curr))
  {
    hide MtfEncoder.UsedBelow;
  }

  /** What the symbol machine keeps within bounds. */
  lemma StepBounds(d: MoveToFront.Decoder, sym: int, eob: int, limit: nat)
    requires d.Decoder? && |d.list| == 256 && 0 <= sym <= eob && 2 <= eob <= 257
    ensures var d' := MoveToFront.Step(d, sym, eob, limit);
      && (d'.Decoder? ==> |d'.list| == 256)
      && (d'.Finished? ==> |d'.out| <= limit)
  {
  }

  lemma TookValid(c: Coding, pos: nat, d: MoveToFront.Decoder, sym: int)
    requires Decoding(c, pos, d)
    ensures Valid(Took(c, pos, d, sym))
  {
    hide MtfEncoder.UsedBelow, MoveToFront.Step;
    var eob := AlphaSize(c.inUse) - 1;
    AlphaBound(c.inUse);
    if 0 <= sym <= eob {
      StepBounds(d, sym, eob, 100000 * c.head.bs);
    }
  }

  lemma AlphaBound(inUse: seq<bool>)
    requires |inUse| == 256
    ensures 2 <= AlphaSize(inUse) <= 258
  {
  }

  lemma JudgeValid(c: Coding, pos: nat, d: MoveToFront.Decoder, zn: nat, zvec: nat)
    requires Decoding(c, pos, d) && 1 <= zn <= 21 && Least(LengthsAt(c, pos)) <= zn
    ensures Valid(Judge(c, pos, d, zn, zvec))
  {
    hide Took, MtfEncoder.UsedBelow, Least, LengthsAt, TableOf;
    if zn <= LONGEST {
      var t := TableOf(LengthsAt(c, pos));
      var k := zvec - t.base[zn];
      if zvec <= t.limit[zn] && 0 <= k < MAX_ALPHA {
        TookValid(c, pos, d, t.perm[k]);
      }
    }
  }

  /** Magic numbers, checksums and origPtr. */
  lemma FrameValid(p: Phase, v: nat)
    requires Valid(p) && !Stopped(p) && v < Pow2(Need(p))
    requires p.Magic? || p.BlockMagic? || p.BlockSum? || p.RandBit? || p.Origin? || p.EndMagic? || p.EndSum?
    ensures Valid(Resume(p, v))
  {
    hide Judge, Mapped, LengthDone, AlphaSize, UndoneSelectors, Lengths, GoodTables, Decoding, GoodCoding, Partial,
      Pow2;
  }

  /** Every suspension point reached is a valid one. */
  lemma ResumeValid(p: Phase, v: nat)
    requires Valid(p) && !Stopped(p) && v < Pow2(Need(p))
    ensures Valid(Resume(p, v))
  {
    hide Judge, Mapped, LengthDone, MtfEncoder.UsedBelow, Least, LengthsAt, TableOf, AlphaSize, UndoneSelectors,
      Lengths;
    if p.Magic? || p.BlockMagic? || p.BlockSum? || p.RandBit? || p.Origin? || p.EndMagic? || p.EndSum? {
      FrameValid(p, v);
      return;
    }
    match p {
      case Map16(h, u16) => MappedValid16(h, u16 + [v == 1]);
      case Map(h, u16, u) => MappedValid(h, u16, u + [v == 1]);
      case LengthMore(c, n, cur, curr) => LengthMoreValid(c, n, cur, curr);
      case FirstLength(c, n) => AlphaBound(c.inUse);
      case Sym(c, pos, d) => JudgeFirst(c, pos, d); JudgeValid(c, pos, d, Need(p), v);
      case SymBit(c, pos, d, zn, zvec) => JudgeValid(c, pos, d, zn, 2 * zvec + v);
      case _ =>
    }
  }

  lemma MappedValid16(h: Head, u16: seq<bool>)
    requires |u16| <= 16
    ensures |u16| == 16 ==> Valid(Mapped(h, u16, []))
  {
    if |u16| == 16 {
      MappedValid(h, u16, []);
    }
  }

  lemma LengthMoreValid(c: Coding, n: nat, cur: seq<nat>, curr: nat)
    requires GoodTables(c, n) && Partial(c, cur) && 1 <= curr <= 20
    ensures Valid(LengthDone(c, n, cur + [curr], curr))
  {
    LengthDoneValid(c, n, cur + [curr], curr);
  }

  lemma JudgeFirst(c: Coding, pos: nat, d: MoveToFront.Decoder)
    requires Decoding(c, pos, d)
    ensures Need(Sym(c, pos, d)) == Least(LengthsAt(c, pos))
  {
  }
}
