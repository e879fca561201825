/** BZ2_decompress: the resumable decoder as the object it is, with its label, its save area and
    its arrays (dep/bzip2/decompress.c:99-646). */
module Decompressor {
  import opened Sequences
  import opened Rotations
  import opened Powers
  import opened BitStrings
  import opened BlockFormat
  import opened BlockParser
  import opened BlockRoundTrip
  import opened CanonicalCodes
  import opened Counting
  import opened DecodeTables
  import opened UsedBytes
  import opened RunLength
  import BitReader
  import ColumnStore
  import MoveToFront
  import MtfDecoder
  import MtfEncoder
  import DecodeVectors

  // ---------- Labels (dep/bzip2/bzlib_private.h:291-334) ----------

  const IDLE := 1
  const OUTPUT := 2
  const MAGIC_1 := 10
  const BLKHDR_1 := 14
  const BCRC_1 := 20
  const RANDBIT := 24
  const ORIGPTR_1 := 25
  const MAPPING_1 := 28
  const MAPPING_2 := 29
  const SELECTOR_1 := 30
  const SELECTOR_2 := 31
  const SELECTOR_3 := 32
  const CODING_1 := 33
  const CODING_2 := 34
  const CODING_3 := 35
  const MTF_1 := 36
  const MTF_2 := 37
  const MTF_3 := 38
  const MTF_4 := 39
  const MTF_5 := 40
  const MTF_6 := 41
  const ENDHDR_2 := 42
  const CCRC_1 := 47

  datatype Ret = Continue | Ok | StreamEnd | DataError | MagicError
               | Undef  // the model stops where C does not say what the program does

  /** What the coroutine returns on reaching a phase; Continue is to read more bits. */
  ghost function Answer(p: Phase): Ret {
    match p
    case Block(_, _) => Ok
    case End(_) => StreamEnd
    case BadMagic => MagicError
    case BadData => DataError
    case Undefined => Undef
    case _ => Continue
  }

  // ---------- Small steps on values ----------

  /** The list and the bytes so far only hold numbers of bytes in use. */
  ghost predicate Numbered(d: MoveToFront.Decoder, n: nat) {
    d.Decoder? && n <= |d.list| && (forall k :: 0 <= k < n ==> 0 <= d.list[k] < n) && forall k :: 0 <= k < |d.out| ==> 0 <= d.out[k] < n
  }

  lemma StepNumbered(d: MoveToFront.Decoder, sym: int, eob: int, limit: nat, n: nat)
    requires Numbered(d, n) && |d.list| == 256 && 1 <= n && eob == n + 1 && 0 <= sym <= eob <= 257
    ensures MoveToFront.Step(d, sym, eob, limit).Decoder? ==> Numbered(MoveToFront.Step(d, sym, eob, limit), n)
  {
    var d' := MoveToFront.Step(d, sym, eob, limit);
    if d'.Decoder? && sym > 1 {
      forall k | 0 <= k < n ensures 0 <= d'.list[k] < n {
        MoveToFront.FrontAt(d.list, sym - 1, k);
      }
    }
  }

  lemma Skip(u16: seq<bool>, u: seq<bool>, i: nat)
    requires |u16| == 16 && i <= 16 && |u| == 16 * i
    ensures i == 16 || u16[i] ==> SkipUnused(u16, u) == u
    ensures i < 16 && !u16[i] ==> SkipUnused(u16, u) == SkipUnused(u16, u + NoneUsed())
  {
  }

  lemma MappedSame(h: Head, u16: seq<bool>, u: seq<bool>, v: seq<bool>)
    requires |u16| == 16 && |u| <= 256 && |v| <= 256 && |u| % 16 == |v| % 16 == 0
      && SkipUnused(u16, u) == SkipUnused(u16, v)
    ensures Mapped(h, u16, u) == Mapped(h, u16, v)
  {
  }

  lemma MappedAt(h: Head, u16: seq<bool>, u: seq<bool>, i: nat)
    requires |u16| == 16 && i <= 16 && |u| == 16 * i && (i < 16 ==> u16[i])
    ensures Mapped(h, u16, u) == if i < 16 then BlockParser.Map(h, u16, u)
      else if MtfEncoder.UsedBelow(u, 256) == 0 then BadData else BlockParser.Groups(h, u)
  {
    Skip(u16, u, i);
  }

  /** i selectors are undone, and `l` is the list now. */
  ghost predicate Undoing(sel: seq<nat>, l: seq<int>, mtf: seq<nat>, i: nat, n: nat) {
    && |l| == n && i <= |mtf| && (forall k :: 0 <= k < |mtf| ==> mtf[k] < n)
    && sel + Undone(l, mtf[i..]) == Undone(MtfEncoder.Identity(n), mtf)
  }

  lemma UndoingStart(l: seq<int>, mtf: seq<nat>, n: nat)
    requires l == MtfEncoder.Identity(n) && forall k :: 0 <= k < |mtf| ==> mtf[k] < n
    ensures Undoing([], l, mtf, 0, n)
  {
    hide Undone;
    assert mtf[0..] == mtf;
    assert [] + Undone(l, mtf) == Undone(l, mtf);
  }

  lemma UndoingStep(sel: seq<nat>, l: seq<int>, mtf: seq<nat>, i: nat, n: nat, x: nat)
    requires Undoing(sel, l, mtf, i, n) && i < |mtf| && mtf[i] < n == |l| && x == l[mtf[i]]
    ensures Undoing(sel + [x], MoveToFront.Front(l, mtf[i]), mtf, i + 1, n)
  {
    var rest := mtf[i..];
    assert rest[0] == mtf[i] && rest[1..] == mtf[i + 1..];
    Assoc(sel, [x], Undone(MoveToFront.Front(l, mtf[i]), mtf[i + 1..]));
  }

  lemma UndoingEnd(sel: seq<nat>, l: seq<int>, mtf: seq<nat>, n: nat)
    requires Undoing(sel, l, mtf, |mtf|, n)
    ensures (forall k :: 0 <= k < |mtf| ==> mtf[k] < n) && sel == UndoneSelectors(n, mtf)
  {
    assert mtf[|mtf|..] == [];
    assert sel + [] == sel;
  }

  /** Undoing the move-to-front of the selectors, with the list in a small array. */
  method UndoSelectors(nGroups: nat, selectorMtf: array<nat>, selector: array<nat>, nSelectors: nat)
    requires selectorMtf != selector && nSelectors <= selectorMtf.Length && nSelectors <= selector.Length
      && 2 <= nGroups <= 6
    requires forall k :: 0 <= k < nSelectors ==> selectorMtf[..nSelectors][k] < nGroups
    modifies selector
    ensures selector[..nSelectors] == UndoneSelectors(nGroups, selectorMtf[..nSelectors])
  {
    hide Undoing, UndoneSelectors, MoveToFront.Front;
    ghost var mtf := selectorMtf[..nSelectors];
    var pos := new nat[6];
    var v := 0;
    while v < nGroups
      invariant v <= nGroups && forall k :: 0 <= k < v ==> pos[k] == k
      modifies pos
    {
      pos[v] := v;
      v := v + 1;
    }
    assert pos[..nGroups] == MtfEncoder.Identity(nGroups);
    assert selector[..0] == [];
    UndoingStart(pos[..nGroups], mtf, nGroups);
    var i := 0;
    while i < nSelectors
      invariant i <= nSelectors && selectorMtf[..nSelectors] == mtf
        && Undoing(selector[..i], pos[..nGroups], mtf, i, nGroups)
      modifies pos, selector
    {
      assert selectorMtf[i] == mtf[i];
      UndoingStep(selector[..i], pos[..nGroups], mtf, i, nGroups, pos[mtf[i]]);
      ghost var before := selector[..i];
      var tmp := ToFront(pos, nGroups, selectorMtf[i]);
      selector[i] := tmp;
      assert selector[..i + 1] == before + [tmp];
      i := i + 1;
    }
    UndoingEnd(selector[..nSelectors], pos[..nGroups], mtf, nGroups);
  }

  /** Entry p moves to the front of the first n. */
  method ToFront(pos: array<nat>, n: nat, p: nat) returns (tmp: nat)
    requires p < n <= pos.Length
    modifies pos
    ensures tmp == old(pos[p]) && pos[..n] == MoveToFront.Front(old(pos[..n]), p)
  {
    tmp := pos[p];
    var v := p;
    while v > 0
      invariant v <= p
      invariant forall k :: v < k <= p ==> pos[k] == old(pos[k - 1])
      invariant forall k :: 0 <= k < n && !(v < k <= p) ==> pos[k] == old(pos[k])
    {
      pos[v] := pos[v - 1];
      v := v - 1;
    }
    pos[0] := tmp;
    forall k | 0 <= k < n ensures pos[k] == MoveToFront.Front(old(pos[..n]), p)[k] {
      MoveToFront.FrontAt(old(pos[..n]), p, k);
    }
  }

  /** Which group symbol pos is in. */
  lemma GroupArith(pos: nat, m: nat)
    ensures pos % GROUP == 0 ==> (pos + GROUP - 1) / GROUP == pos / GROUP && (pos / GROUP >= m <==> pos >= GROUP * m)
    ensures pos % GROUP != 0 ==> (pos + GROUP - 1) / GROUP - 1 == pos / GROUP
    ensures pos % GROUP != 0 && pos <= GROUP * m ==> pos < GROUP * m
    ensures pos < GROUP * m ==> pos / GROUP < m
  {
  }

  lemma GroupStep(pos: nat)
    ensures var q := pos + 1;
      && (q + GROUP - 1) / GROUP - 1 == pos / GROUP
      && (if q % GROUP == 0 then pos % GROUP == GROUP - 1 else pos % GROUP + 1 == q % GROUP && q / GROUP == pos / GROUP)
  {
  }

  /** The run's bytes are out. */
  ghost function Flushed(d: MoveToFront.Decoder): MoveToFront.Decoder
    requires d.Decoder? && d.list != []
  {
    MoveToFront.Decoder(d.list, d.out + MoveToFront.Fill(d.list[0], d.run), 0, 1)
  }

  lemma FilledColumn(inUse: seq<bool>, out: seq<int>, x: int, k: nat, unseq: seq<byte>, n: nat)
    requires |inUse| == 256 && |unseq| == 256 && n <= 256 && unseq[..n] == BytesInUse(inUse, 256) && 0 <= x < n
    ensures Column(inUse, out + MoveToFront.Fill(x, k)) == Column(inUse, out) + Repeat(unseq[x], k)
    ensures Column(inUse, out + [x]) == Column(inUse, out) + [unseq[x]]
  {
    assert unseq[x] == unseq[..n][x];
  }

  /** A byte is as frequent as its number. */
  lemma {:induction false} ColumnCount(inUse: seq<bool>, out: seq<int>, x: int, unseq: seq<byte>, n: nat)
    requires |inUse| == 256 && |unseq| == 256 && n <= 256 && unseq[..n] == BytesInUse(inUse, 256) && 0 <= x < n
    requires forall k :: 0 <= k < |out| ==> 0 <= out[k] < n
    ensures CountEq(Column(inUse, out), unseq[x]) == CountEq(out, x)
    decreases |out|
  {
    if out != [] {
      var m := |out| - 1;
      ColumnCount(inUse, out[..m], x, unseq, n);
      assert Column(inUse, out)[..m] == Column(inUse, out[..m]);
      assert unseq[x] == unseq[..n][x] && unseq[out[m]] == unseq[..n][out[m]];
      BytesDistinct(inUse, 256, x, out[m]);
    }
  }

  lemma LiteralStep(d: MoveToFront.Decoder, sym: int, eob: int, limit: nat)
    requires d.Decoder? && |d.list| == 256 && 2 <= sym < eob <= 257 && d.run == 0 && d.weight == 1 && |d.out| < limit
    ensures MoveToFront.Step(d, sym, eob, limit)
         == MoveToFront.Decoder(MoveToFront.Front(d.list, sym - 1), d.out + [d.list[sym - 1]], 0, 1)
  {
    assert d.out + MoveToFront.Fill(d.list[0], 0) == d.out;
  }

  /** What a symbol does when no run is being read. */
  lemma TookPlain(c: Coding, pos: nat, d: MoveToFront.Decoder, sym: int)
    requires BlockParser.Decoding(c, pos, d) && |c.inUse| == 256 && 0 <= sym < AlphaSize(c.inUse) <= 258 && d.Decoder?
    requires d.run == 0 && d.weight == 1 && |d.out| <= 100000 * c.head.bs && 3 <= AlphaSize(c.inUse) && |d.list| == 256
    ensures var eob := AlphaSize(c.inUse) - 1;
      Took(c, pos, d, sym) ==
        if sym == eob then (if c.head.orig >= |d.out| then BadData else BlockParser.Block(c, d.out))
        else if sym == 0 || sym == 1 then AfterDigit(c, pos, d, sym)
        else if |d.out| >= 100000 * c.head.bs then BadData
        else NextSymbol(c, pos + 1, MoveToFront.Step(d, sym, eob, 100000 * c.head.bs))
  {
    hide MtfEncoder.UsedBelow, BlockParser.Decoding;
    assert d.out + MoveToFront.Fill(d.list[0], 0) == d.out;
  }

  /** What a symbol does when a run is being read. */
  lemma TookInRun(c: Coding, pos: nat, d: MoveToFront.Decoder, sym: int)
    requires BlockParser.Decoding(c, pos, d) && |c.inUse| == 256 && 0 <= sym < AlphaSize(c.inUse) <= 258
      && 3 <= AlphaSize(c.inUse)
    requires d.Decoder? && |d.list| == 256
    ensures BlockParser.Decoding(c, pos, Flushed(d))
    ensures sym == 0 || sym == 1 ==> Took(c, pos, d, sym) == AfterDigit(c, pos, d, sym)
    ensures sym >= 2 && MoveToFront.TooFrequent(d) ==> Took(c, pos, d, sym) == Undefined
    ensures sym >= 2 && !MoveToFront.TooFrequent(d) && |d.out| + d.run > 100000 * c.head.bs ==> Took(c, pos, d, sym) == BadData
    ensures sym >= 2 && !MoveToFront.TooFrequent(d) && |d.out| + d.run <= 100000 * c.head.bs ==>
      Took(c, pos, d, sym) == Took(c, pos, Flushed(d), sym)
  {
    hide MtfEncoder.UsedBelow, BlockParser.GoodCoding;
    var f := Flushed(d);
    assert f.out + MoveToFront.Fill(f.list[0], 0) == f.out;
  }

  /** One more digit of a run. */
  ghost function AfterDigit(c: Coding, pos: nat, d: MoveToFront.Decoder, sym: int): Phase
    requires d.Decoder? && (sym == 0 || sym == 1)
  {
    if 2 * d.weight > INT_MAX then Undefined
    else NextSymbol(c, pos + 1, d.(run := d.run + (sym + 1) * d.weight, weight := 2 * d.weight))
  }

  /** The run read so far fits es, and the weight N is a power of two that fits. */
  ghost predicate RunFits(d: MoveToFront.Decoder) {
    d.Decoder? && d.run <= 2 * (d.weight - 1) && exists k: nat :: k <= 30 && d.weight == Pow2(k)
  }

  lemma RunFitsNext(d: MoveToFront.Decoder, sym: int)
    requires RunFits(d) && (sym == 0 || sym == 1)
    ensures 1 <= d.weight <= 0x4000_0000 && d.run < INT_MAX
    ensures 2 * d.weight <= INT_MAX ==>
      && d.weight <= 0x2000_0000 && d.run + (sym + 1) * d.weight <= INT_MAX
      && RunFits(d.(run := d.run + (sym + 1) * d.weight, weight := 2 * d.weight))
  {
    hide Pow2;
    Powers.Pow2Thirty();
    var k: nat :| k <= 30 && d.weight == Pow2(k);
    Pow2Monotone(k, 30);
    DigitValue(sym, d.weight);
    if k < 30 {
      Pow2Monotone(k, 29);
      Pow2Next(k);
      assert 2 * d.weight == Pow2(k + 1);
    }
  }

  lemma DigitValue(sym: int, w: nat)
    requires sym == 0 || sym == 1
    ensures w <= (sym + 1) * w <= 2 * w
  {
  }

  lemma RunFitsStart(d: MoveToFront.Decoder)
    requires d.Decoder? && d.run == 0 && d.weight == 1
    ensures RunFits(d)
  {
    Pow2Next(0);
    assert d.weight == Pow2(0);
  }

  lemma ReachedZn(l: seq<nat>, zn: nat, zvec: nat)
    requires Lengths(l) && Reached(l, zn, zvec)
    ensures zn <= LONGEST + 1 && |l| <= MAX_ALPHA == 258
    ensures forall c, pos, d, zn, zvec :: Answer(BlockParser.SymBit(c, pos, d, zn, zvec)) == Continue
  {
  }

  lemma JudgeIs(c: Coding, pos: nat, d: MoveToFront.Decoder, zn: nat, zvec: nat)
    requires BlockParser.Decoding(c, pos, d) && zn <= 21
    ensures GoodCoding(c) && pos < GROUP * |c.sel|
    ensures var t := TableOf(LengthsAt(c, pos));
      && (zn > LONGEST ==> Judge(c, pos, d, zn, zvec) == BadData)
      && (zn <= LONGEST && zvec <= t.limit[zn] && 0 <= zvec - t.base[zn] < MAX_ALPHA ==>
            Judge(c, pos, d, zn, zvec) == Took(c, pos, d, t.perm[zvec - t.base[zn]]))
      && (zn <= LONGEST && zvec > t.limit[zn] ==> Judge(c, pos, d, zn, zvec) == BlockParser.SymBit(c, pos, d, zn + 1, zvec))
  {
    hide Took, TableOf, LengthsAt, GoodCoding;
  }

  lemma ReachedFirst(l: seq<nat>, v: nat)
    requires Lengths(l)
    ensures Reached(l, Least(l), v)
  {
  }

  lemma SymResume(c: Coding, pos: nat, d: MoveToFront.Decoder, v: nat)
    requires BlockParser.Valid(BlockParser.Sym(c, pos, d)) && v < Pow2(Need(BlockParser.Sym(c, pos, d)))
    ensures GoodCoding(c) && pos < GROUP * |c.sel| && BlockParser.Decoding(c, pos, d)
    ensures Least(LengthsAt(c, pos)) <= 21
    ensures Resume(BlockParser.Sym(c, pos, d), v) == Judge(c, pos, d, Least(LengthsAt(c, pos)), v)
  {
    hide Judge, Least, LengthsAt;
  }

  lemma SymBitResume(c: Coding, pos: nat, d: MoveToFront.Decoder, zn: nat, zvec: nat, v: nat)
    requires BlockParser.Valid(BlockParser.SymBit(c, pos, d, zn, zvec))
      && v < 2 == Pow2(Need(BlockParser.SymBit(c, pos, d, zn, zvec)))
    ensures GoodCoding(c) && pos < GROUP * |c.sel| && BlockParser.Decoding(c, pos, d) && zn <= 21
    ensures Resume(BlockParser.SymBit(c, pos, d, zn, zvec), v) == Judge(c, pos, d, zn, 2 * zvec + v)
    ensures Reached(LengthsAt(c, pos), zn, 2 * zvec + v)
  {
    hide Judge, Least, LengthsAt;
  }

  lemma LengthDoneIs(c: Coding, n: nat, cur: seq<nat>, curr: nat)
    requires |c.inUse| == 256
    ensures LengthDone(c, n, cur, curr) ==
      if |cur| < AlphaSize(c.inUse) then LengthCheck(c, n, cur, curr)
      else if |c.lens| + 1 < n then BlockParser.FirstLength(c.(lens := c.lens + [cur]), n)
      else NextSymbol(c.(lens := c.lens + [cur]), 0, FirstDecoder())
  {
  }

  class DState {
    const r: BitReader.Reader
    const st: ColumnStore.Store
    const mtf: MtfDecoder.MtfList
    const tables: seq<CodeTable>
    /** The coding tables and the two selector arrays. */
    ghost const TableRepr: set<object>

    var state: nat
    var blockSize100k: nat
    var storedBlockCRC: nat
    var storedCombinedCRC: nat
    var blockRandomised: bool
    var origPtr: nat
    var inUse16: seq<bool>
    var inUse: seq<bool>
    var nInUse: nat
    var seqToUnseq: seq<byte>
    const selectorMtf: array<nat>
    const selector: array<nat>

    // the save area
    var i: nat
    var j: nat
    var t: nat
    var alphaSize: nat
    var nGroups: nat
    var nSelectors: nat
    var eob: nat
    var groupNo: int
    var groupPos: nat
    var nblockMAX: nat
    var es: Int32
    var weight: Int32            // N
    var curr: nat
    var zn: nat
    var zvec: nat
    var gSel: nat
    var gMinlen: nat

    /** Where the decoder is, as a value. */
    ghost var phase: Phase

    // ---------- What the fields hold at each label ----------

    ghost predicate Shaped() {
      && |tables| == 6 && st.Shaped() && mtf.Shaped()
      && selectorMtf.Length == selector.Length == MAX_SELECTORS && selectorMtf != selector && {selectorMtf as object, selector} <= TableRepr
      && (forall k :: 0 <= k < 6 ==> selectorMtf !in tables[k].Repr && selector !in tables[k].Repr)
      && (forall k :: 0 <= k < 6 ==> tables[k].Valid() && tables[k].Repr <= TableRepr)
      && (forall k, l :: 0 <= k < l < 6 ==> tables[k].Repr !! tables[l].Repr)
      && TableRepr !! st.Repr + {mtf.mtfa as object, mtf.mtfbase as object, r as object, this}
      && {mtf.mtfa as object, mtf.mtfbase as object} !! st.Repr + {r as object, this}
      && {r as object, this} !! st.Repr && r as object != this
    }

    /** The parts are separate objects. */
    lemma Parts()
      requires Shaped()
      ensures this !in TableRepr && this !in st.Repr && r as object != this && |tables| == 6 && st in st.Repr
      ensures {mtf.mtfa as object, mtf.mtfbase as object} !! st.Repr + TableRepr + {this, r as object}
      ensures TableRepr !! st.Repr + {r as object} && r as object !in st.Repr && mtf.Shaped() && st.Shaped()
      ensures forall k :: 0 <= k < 6 ==> tables[k].Valid() && tables[k].Repr <= TableRepr
      ensures forall k, l :: 0 <= k < l < 6 ==> tables[k].Repr !! tables[l].Repr
      ensures selectorMtf.Length == selector.Length == MAX_SELECTORS == 18002 && selectorMtf != selector
      ensures selectorMtf in TableRepr && selector in TableRepr
      ensures forall k :: 0 <= k < 6 ==> selectorMtf !in tables[k].Repr && selector !in tables[k].Repr
    {
    }

    ghost predicate Sized()
      reads this`inUse16, this`inUse, this`seqToUnseq
    {
      |inUse16| == 16 && |inUse| == 256 && |seqToUnseq| == 256
    }

    ghost predicate HeadIs(h: Head)
      reads this`blockSize100k, this`storedBlockCRC, this`blockRandomised, this`origPtr
    {
      blockSize100k == h.bs && 1 <= h.bs <= 9 && storedBlockCRC == h.crc && blockRandomised == h.rand && origPtr == h.orig
    }

    /** The mapping table and what follows from it. */
    ghost predicate MapIs(u: seq<bool>)
      reads this`inUse, this`nInUse, this`seqToUnseq, this`alphaSize
    {
      && inUse == u && |u| == 256 && |seqToUnseq| == 256 && nInUse == MtfEncoder.UsedBelow(u, 256) && 1 <= nInUse
      && alphaSize == nInUse + 2 && seqToUnseq[..nInUse] == BytesInUse(u, 256)
    }

    /** The first lengths of table k. */
    ghost predicate LengthsAre(k: nat, l: seq<nat>)
      requires Shaped()
      reads if k < |tables| then {tables[k].len} else {}
    {
      k < 6 && |l| <= MAX_ALPHA && tables[k].len[..|l|] == l
    }

    /** Selectors and the tables read so far. */
    ghost predicate CodingIs(c: Coding, n: nat)
      requires Shaped()
      reads this`blockSize100k, this`storedBlockCRC, this`blockRandomised, this`origPtr, this`inUse, this`nInUse,
        this`seqToUnseq, this`alphaSize,
        this`nGroups, this`nSelectors, TableRepr
    {
      && HeadIs(c.head) && MapIs(c.inUse) && nGroups == n && 2 <= n <= 6
      && nSelectors == |c.sel| <= MAX_SELECTORS && selector[..nSelectors] == c.sel
      && |c.lens| <= n && forall k :: 0 <= k < |c.lens| ==> LengthsAre(k, c.lens[k])
    }

    ghost predicate TablesReady(c: Coding)
      requires Shaped()
      reads TableRepr
    {
      |c.lens| <= 6 && forall k :: 0 <= k < |c.lens| ==> tables[k].Ready(c.lens[k])
    }

    /** The group that symbol pos is in. */
    ghost predicate GroupIs(c: Coding, pos: nat)
      requires Shaped()
      reads this`groupNo, this`groupPos, this`gSel, this`gMinlen, TableRepr
    {
      && pos < GROUP * |c.sel| && groupNo == pos / GROUP && groupPos == GROUP - 1 - pos % GROUP
      && gSel == c.sel[pos / GROUP] < 6 && gMinlen == tables[gSel].minLen
    }

    /** Between symbols. */
    ghost predicate Boundary(c: Coding, pos: nat)
      requires Shaped()
      reads this`groupNo, this`groupPos, this`gSel, this`gMinlen, TableRepr
    {
      && pos <= GROUP * |c.sel| && groupNo == (pos + GROUP - 1) / GROUP - 1
      && groupPos == (if pos % GROUP == 0 then 0 else GROUP - pos % GROUP)
      && (pos % GROUP != 0 ==> gSel == c.sel[pos / GROUP] < 6 && gMinlen == tables[gSel].minLen)
    }

    /** The list and the column. */
    ghost predicate ListIs(c: Coding, d: MoveToFront.Decoder)
      requires Shaped()
      reads this`nInUse, this`alphaSize, this`eob, this`nblockMAX, st, st.tt, st.ll16, st.ll4, st.unzftab, mtf.mtfa,
        mtf.mtfbase
    {
      && mtf.Valid() && st.Valid() && d.Decoder? && mtf.List() == d.list && |c.inUse| == 256
      && Numbered(d, nInUse) && st.col == Column(c.inUse, d.out)
      && eob == alphaSize - 1 && nblockMAX == 100000 * c.head.bs <= 900000 && |d.out| <= nblockMAX
    }

    /** The list, the column and a run being read. */
    ghost predicate DecoderIs(c: Coding, d: MoveToFront.Decoder, inRun: bool)
      requires Shaped()
      reads this`nInUse, this`alphaSize, this`eob, this`nblockMAX, this`es, this`weight,
        st, st.tt, st.ll16, st.ll4, st.unzftab, mtf.mtfa, mtf.mtfbase
    {
      && ListIs(c, d)
      && (inRun ==> es == d.run - 1 && weight == d.weight && 1 <= d.run && RunFits(d))
      && (!inRun ==> d.run == 0 && d.weight == 1)
    }

    ghost predicate SymbolIs(c: Coding, pos: nat, d: MoveToFront.Decoder, inRun: bool)
      requires Shaped()
      reads this`blockSize100k, this`storedBlockCRC, this`blockRandomised, this`origPtr, this`inUse, this`nInUse,
        this`seqToUnseq, this`alphaSize,
        this`nGroups, this`nSelectors, TableRepr,
        this`groupNo, this`groupPos, this`gSel, this`gMinlen, this`eob, this`nblockMAX, this`es, this`weight,
        st, st.tt, st.ll16, st.ll4, st.unzftab, mtf.mtfa, mtf.mtfbase
    {
      CodingIs(c, |c.lens|) && TablesReady(c) && GroupIs(c, pos) && DecoderIs(c, d, inRun)
    }

    /** The label and the fields agree with the phase: everything alive at a suspension is in a
        field, none of it in a local variable. */
    ghost predicate Agrees()
      requires Shaped()
      reads this, TableRepr, st, st.tt, st.ll16, st.ll4, st.unzftab, st.cftab, mtf.mtfa, mtf.mtfbase
    {
      match phase
      case Magic(k) => state == MAGIC_1 + k - 1
      case BlockMagic(bs, k) => state == BLKHDR_1 + k - 1 && blockSize100k == bs && 1 <= bs <= 9
      case BlockSum(bs, k, acc) => state == BCRC_1 + k - 1 && blockSize100k == bs && 1 <= bs <= 9 && storedBlockCRC == acc
      case RandBit(bs, crc) => state == RANDBIT && blockSize100k == bs && 1 <= bs <= 9 && storedBlockCRC == crc
      case Origin(h, k) => state == ORIGPTR_1 + k - 1 && HeadIs(h)
      case Map16(h, u16) => state == MAPPING_1 && HeadIs(h) && Sized() && i == |u16| < 16 && inUse16[..i] == u16
      case Map(h, u16, u) =>
        && state == MAPPING_2 && HeadIs(h) && inUse16 == u16 && 16 * i + j == |u| < 256 && j < 16
        && Sized() && inUse[..|u|] == u && forall x :: |u| <= x < 256 ==> !inUse[x]
      case Groups(h, u) => state == SELECTOR_1 && HeadIs(h) && MapIs(u)
      case HowMany(h, u, n) => state == SELECTOR_2 && HeadIs(h) && MapIs(u) && nGroups == n
      case Selector(h, u, n, count, mtfs, jj) =>
        && state == SELECTOR_3 && HeadIs(h) && MapIs(u) && nGroups == n && nSelectors == count
        && |mtfs| <= MAX_SELECTORS && selectorMtf[..|mtfs|] == mtfs
        && i == |mtfs| && j == jj
      case FirstLength(c, n) => state == CODING_1 && CodingIs(c, n) && t == |c.lens|
      case LengthMore(c, n, cur, cr) =>
        state == CODING_2 && CodingIs(c, n) && t == |c.lens| && i == |cur| && LengthsAre(t, cur) && curr == cr
      case LengthUpDown(c, n, cur, cr) =>
        state == CODING_3 && CodingIs(c, n) && t == |c.lens| && i == |cur| && LengthsAre(t, cur) && curr == cr
      case Sym(c, pos, d) => state in {MTF_1, MTF_3, MTF_5} && SymbolIs(c, pos, d, state == MTF_3) && zn == gMinlen
      case SymBit(c, pos, d, n, v) =>
        state in {MTF_2, MTF_4, MTF_6} && SymbolIs(c, pos, d, state == MTF_4) && zn == n && zvec == v
      case Block(c, out) =>
        && state == OUTPUT && HeadIs(c.head) && st.Valid() && |c.inUse| == 256 && st.col == Column(c.inUse, out)
        && c.head.orig < |out| <= 100000 * c.head.bs
        && forall v :: 0 <= v <= 256 ==> st.cftab[v] == CountLess(st.col, v)
      case EndMagic(bs, k) => state == ENDHDR_2 + k - 2 && blockSize100k == bs
      case EndSum(k, acc) => state == CCRC_1 + k - 1 && storedCombinedCRC == acc
      case End(combined) => state == IDLE && storedCombinedCRC == combined
      case BadMagic => MAGIC_1 <= state
      case BadData => MAGIC_1 <= state
      case Undefined => MAGIC_1 <= state
    }

    /** All but the bit buffer. */
    ghost predicate Composed()
      reads this, TableRepr, st, st.tt, st.ll16, st.ll4, st.unzftab, st.cftab, mtf.mtfa, mtf.mtfbase
    {
      Shaped() && Sized() && BlockParser.Valid(phase) && Agrees() && DecodeVectorsPacked()
    }

    ghost predicate Ready()
      reads this, r, TableRepr, st, st.tt, st.ll16, st.ll4, st.unzftab, st.cftab, mtf.mtfa, mtf.mtfbase
    {
      Composed() && r.Valid()
    }

    ghost predicate DecodeVectorsPacked()
      reads st.ll16, st.ll4
    {
      DecodeVectors.Packed(st.ll16, st.ll4, 900000)
    }

    /** BZ2_bzDecompressInit. */
    constructor (small: bool)
      ensures Ready() && phase == Magic(1) && r.Rest() == [] && st.small == small
      ensures fresh(r) && fresh(st.Repr) && fresh(mtf.mtfa) && fresh(mtf.mtfbase) && fresh(TableRepr)
    {
      hide *;
      var reader, store, list := Buffers(small);
      var ts, sm, se, repr := Arrays();
      r, st, mtf, tables, selectorMtf, selector := reader, store, list, ts, sm, se;
      TableRepr := repr + {sm as object, se as object};
      MagicLabel();
      state, phase := MAGIC_1, Magic(1);
      inUse16, inUse, seqToUnseq := seq(16, x => false), seq(256, x => false), seq(256, x => 0);
      blockSize100k, storedBlockCRC, storedCombinedCRC, blockRandomised, origPtr, nInUse := 0, 0, 0, false, 0, 0;
      i, j, t, alphaSize, nGroups, nSelectors, eob, groupNo, groupPos, nblockMAX := 0, 0, 0, 0, 0, 0, 0, 0, 0, 0;
      es, weight, curr, zn, zvec, gSel, gMinlen := 0, 0, 0, 0, 0, 0, 0;
      new;
      StartShaped(repr);
      StartReady();
    }

    static lemma MagicLabel()
      ensures MAGIC_1 == 10
    {
    }

    /** The bit buffer, the block and the list. */
    static method Buffers(small: bool) returns (reader: BitReader.Reader, store: ColumnStore.Store, list: MtfDecoder.MtfList)
      ensures fresh(reader) && fresh(store.Repr) && fresh(list.mtfa) && fresh(list.mtfbase)
      ensures reader.Valid() && reader.Rest() == [] && store.Shaped() && store in store.Repr && list.Shaped()
        && store.small == small
      ensures DecodeVectors.Packed(store.ll16, store.ll4, 900000)
      ensures reader !in store.Repr && {list.mtfa as object, list.mtfbase as object} !! store.Repr + {reader as object}
    {
      hide *;
      reader := new BitReader.Reader();
      store := new ColumnStore.Store(small);
      list := new MtfDecoder.MtfList();
      StoreIn(store);
    }

    /** The coding tables and the selectors. */
    static method Arrays() returns (ts: seq<CodeTable>, sm: array<nat>, se: array<nat>, ghost repr: set<object>)
      ensures fresh(repr) && fresh(sm) && fresh(se) && sm != se && sm.Length == se.Length == MAX_SELECTORS
      ensures |ts| == 6 && sm !in repr && se !in repr
      ensures forall k :: 0 <= k < 6 ==> ts[k].Valid() && ts[k].Repr <= repr
      ensures forall k, l :: 0 <= k < l < 6 ==> ts[k].Repr !! ts[l].Repr
    {
      hide *;
      Selectors18002();
      ts, repr := NewTables(6);
      sm, se := new nat[MAX_SELECTORS], new nat[MAX_SELECTORS];
    }

    static lemma Selectors18002()
      ensures MAX_SELECTORS == 18002
    {
    }

    static lemma StoreIn(store: ColumnStore.Store)
      requires store.Shaped()
      ensures store in store.Repr
    {
    }

    lemma StartShaped(repr: set<object>)
      requires |tables| == 6 && st.Shaped() && mtf.Shaped() && st in st.Repr
      requires selectorMtf.Length == selector.Length == MAX_SELECTORS && selectorMtf != selector
      requires TableRepr == repr + {selectorMtf as object, selector} && selectorMtf !in repr && selector !in repr
      requires forall k :: 0 <= k < 6 ==> tables[k].Valid() && tables[k].Repr <= repr
      requires forall k, l :: 0 <= k < l < 6 ==> tables[k].Repr !! tables[l].Repr
      requires TableRepr !! st.Repr + {mtf.mtfa as object, mtf.mtfbase as object, r as object, this}
      requires {mtf.mtfa as object, mtf.mtfbase as object} !! st.Repr + {r as object, this}
      requires {r as object, this} !! st.Repr && r as object != this
      ensures Shaped()
    {
    }

    lemma StartReady()
      requires Shaped() && r.Valid() && DecodeVectors.Packed(st.ll16, st.ll4, 900000)
      requires |inUse16| == 16 && |inUse| == 256 && |seqToUnseq| == 256 && phase == Magic(1) && state == MAGIC_1
      ensures Ready()
    {
      hide DecodeVectors.Packed, Shaped;
    }

    // ---------- Magic numbers, checksums, origPtr ----------

    method OnMagic(v: nat) returns (ret: Ret)
      requires Shaped() && Sized() && Agrees() && BlockParser.Valid(phase) && phase.Magic?
        && v < 256 == Pow2(Need(phase))
      modifies this`state, this`blockSize100k, this`phase
      ensures Agrees() && phase == Resume(old(phase), v) && ret == Answer(phase)
    {
      hide Shaped, SymbolIs, CodingIs, LengthsAre, TablesReady, BlockParser.Decoding, BlockParser.GoodCoding,
        BlockParser.GoodTables;
      phase := Resume(phase, v);
      match state {
        case 10 =>
          if v != 0x42 { return MagicError; }
          state := 11;
        case 11 =>
          if v != 0x5a { return MagicError; }
          state := 12;
        case 12 =>
          if v != 0x68 { return MagicError; }
          state := 13;
        case _ =>
          blockSize100k := v;
          if blockSize100k < 0x31 || blockSize100k > 0x39 { return MagicError; }
          blockSize100k := blockSize100k - 0x30;
          state := BLKHDR_1;
      }
      ret := Continue;
    }

    method OnBlockHeader(v: nat) returns (ret: Ret)
      requires Shaped() && Sized() && Agrees() && BlockParser.Valid(phase) && phase.BlockMagic?
        && v < 256 == Pow2(Need(phase))
      modifies this`state, this`storedBlockCRC, this`phase
      ensures Agrees() && phase == Resume(old(phase), v) && ret == Answer(phase)
    {
      hide Shaped, SymbolIs, CodingIs, LengthsAre, TablesReady, BlockParser.Decoding, BlockParser.GoodCoding,
        BlockParser.GoodTables;
      phase := Resume(phase, v);
      match state {
        case 14 =>
          if v == 0x17 { state := ENDHDR_2; return Continue; }
          if v != 0x31 { return DataError; }
          state := 15;
        case 15 =>
          if v != 0x41 { return DataError; }
          state := 16;
        case 16 =>
          if v != 0x59 { return DataError; }
          state := 17;
        case 17 =>
          if v != 0x26 { return DataError; }
          state := 18;
        case 18 =>
          if v != 0x53 { return DataError; }
          state := 19;
        case _ =>
          if v != 0x59 { return DataError; }
          storedBlockCRC := 0;
          state := BCRC_1;
      }
      ret := Continue;
    }

    method OnBlockSum(v: nat) returns (ret: Ret)
      requires Shaped() && Sized() && Agrees() && BlockParser.Valid(phase) && phase.BlockSum?
        && v < 256 == Pow2(Need(phase))
      modifies this`state, this`storedBlockCRC, this`phase
      ensures Agrees() && phase == Resume(old(phase), v) && ret == Answer(phase)
    {
      hide Shaped, SymbolIs, CodingIs, LengthsAre, TablesReady, BlockParser.Decoding, BlockParser.GoodCoding,
        BlockParser.GoodTables;
      phase := Resume(phase, v);
      storedBlockCRC := storedBlockCRC * 256 + v;
      state := state + 1;
      ret := Continue;
    }

    method OnRandBit(v: nat) returns (ret: Ret)
      requires Shaped() && Sized() && Agrees() && BlockParser.Valid(phase) && phase.RandBit?
        && v < 2 == Pow2(Need(phase))
      modifies this`state, this`blockRandomised, this`origPtr, this`phase
      ensures Agrees() && phase == Resume(old(phase), v) && ret == Answer(phase)
    {
      hide Shaped, SymbolIs, CodingIs, LengthsAre, TablesReady, BlockParser.Decoding, BlockParser.GoodCoding,
        BlockParser.GoodTables;
      phase := Resume(phase, v);
      blockRandomised := v == 1;
      origPtr := 0;
      state := ORIGPTR_1;
      ret := Continue;
    }

    method OnOrigin(v: nat) returns (ret: Ret)
      requires Shaped() && Sized() && Agrees() && BlockParser.Valid(phase) && phase.Origin?
        && v < 256 == Pow2(Need(phase))
      modifies this`state, this`origPtr, this`i, this`phase
      ensures Agrees() && phase == Resume(old(phase), v) && ret == Answer(phase)
    {
      hide Shaped, SymbolIs, CodingIs, LengthsAre, TablesReady, BlockParser.Decoding, BlockParser.GoodCoding,
        BlockParser.GoodTables;
      phase := Resume(phase, v);
      origPtr := origPtr * 256 + v;
      if state < ORIGPTR_1 + 2 {
        state := state + 1;
      } else {
        if origPtr > 10 + 100000 * blockSize100k { return DataError; }
        i := 0;
        state := MAPPING_1;
        assert inUse16[..0] == [];
      }
      ret := Continue;
    }

    method OnEndHeader(v: nat) returns (ret: Ret)
      requires Shaped() && Sized() && Agrees() && BlockParser.Valid(phase) && phase.EndMagic?
        && v < 256 == Pow2(Need(phase))
      modifies this`state, this`storedCombinedCRC, this`phase
      ensures Agrees() && phase == Resume(old(phase), v) && ret == Answer(phase)
    {
      hide Shaped, SymbolIs, CodingIs, LengthsAre, TablesReady, BlockParser.Decoding, BlockParser.GoodCoding,
        BlockParser.GoodTables;
      phase := Resume(phase, v);
      match state {
        case 42 =>
          if v != 0x72 { return DataError; }
          state := 43;
        case 43 =>
          if v != 0x45 { return DataError; }
          state := 44;
        case 44 =>
          if v != 0x38 { return DataError; }
          state := 45;
        case 45 =>
          if v != 0x50 { return DataError; }
          state := 46;
        case _ =>
          if v != 0x90 { return DataError; }
          storedCombinedCRC := 0;
          state := CCRC_1;
      }
      ret := Continue;
    }

    method OnEndSum(v: nat) returns (ret: Ret)
      requires Shaped() && Sized() && Agrees() && BlockParser.Valid(phase) && phase.EndSum?
        && v < 256 == Pow2(Need(phase))
      modifies this`state, this`storedCombinedCRC, this`phase
      ensures Agrees() && phase == Resume(old(phase), v) && ret == Answer(phase)
    {
      hide Shaped, SymbolIs, CodingIs, LengthsAre, TablesReady, BlockParser.Decoding, BlockParser.GoodCoding,
        BlockParser.GoodTables;
      phase := Resume(phase, v);
      storedCombinedCRC := storedCombinedCRC * 256 + v;
      if state < CCRC_1 + 3 {
        state := state + 1;
        return Continue;
      }
      state := IDLE;
      ret := StreamEnd;
    }

    // ---------- The mapping table ----------

    method OnMap16(v: nat) returns (ret: Ret)
      requires Shaped() && Sized() && Agrees() && BlockParser.Valid(phase) && phase.Map16? && v < 2 == Pow2(Need(phase))
      modifies this`state, this`inUse16, this`inUse, this`i, this`j, this`phase, this`nInUse, this`seqToUnseq,
        this`alphaSize
      ensures Sized() && Agrees() && phase == Resume(old(phase), v) && ret == Answer(phase)
    {
      hide *;
      MapFacts(v);
      ghost var h, u16, p := phase.h, phase.u16, Resume(phase, v);
      inUse16 := inUse16[i := v == 1];
      assert inUse16[..i + 1] == u16 + [v == 1];
      i := i + 1;
      if i < 16 {
        phase := p;
        MapAgrees();
        return Continue;
      }
      assert inUse16 == inUse16[..16];
      inUse := seq(256, x => false);
      i := 0;
      assert inUse[..0] == [];
      SizedIf();
      ret := NextMapGroup(h, []);
    }

    method OnMap(v: nat) returns (ret: Ret)
      requires Shaped() && Sized() && Agrees() && BlockParser.Valid(phase) && phase.Map? && v < 2 == Pow2(Need(phase))
      modifies this`state, this`inUse, this`i, this`j, this`phase, this`nInUse, this`seqToUnseq, this`alphaSize
      ensures Sized() && Agrees() && phase == Resume(old(phase), v) && ret == Answer(phase)
    {
      hide *;
      MapFacts(v);
      ghost var h, u, p := phase.h, phase.u, Resume(phase, v);
      if v == 1 {
        inUse := inUse[i * 16 + j := true];
      }
      assert inUse[..|u| + 1] == u + [v == 1];
      j := j + 1;
      if j < 16 {
        phase := p;
        MapAgrees();
        return Continue;
      }
      i := i + 1;
      SizedIf();
      ret := NextMapGroup(h, u + [v == 1]);
    }

    lemma SizedIf()
      requires |inUse16| == 16 && |inUse| == 256 && |seqToUnseq| == 256
      ensures Sized()
    {
    }

    lemma MapFacts(v: nat)
      requires Shaped() && Sized() && Agrees() && BlockParser.Valid(phase) && (phase.Map16? || phase.Map?) && v < 2 == Pow2(Need(phase))
      ensures |inUse16| == 16 && |inUse| == 256 && |seqToUnseq| == 256 && HeadIs(phase.h) && MAGIC_1 == 10
      ensures MAPPING_1 == 28 && MAPPING_2 == 29 && !Stopped(phase)
      ensures phase.Map16? ==> state == MAPPING_1 && i == |phase.u16| < 16 && inUse16[..i] == phase.u16
      ensures phase.Map16? ==>
        var w := phase.u16 + [v == 1]; Resume(phase, v) == if |w| < 16 then BlockParser.Map16(phase.h, w) else Mapped(phase.h, w, [])
      ensures phase.Map? ==> state == MAPPING_2 && 16 * i + j == |phase.u| < 256 && j < 16 && i < 16 && inUse16 == phase.u16
      ensures phase.Map? ==> inUse[..|phase.u|] == phase.u && forall x :: |phase.u| <= x < 256 ==> !inUse[x]
      ensures phase.Map? ==> Resume(phase, v) == Mapped(phase.h, inUse16, phase.u + [v == 1])
      ensures phase.Map? && j + 1 < 16 ==> Resume(phase, v) == BlockParser.Map(phase.h, inUse16, phase.u + [v == 1])
      ensures phase.Map? && j + 1 < 16 ==> Answer(Resume(phase, v)) == Continue
      ensures phase.Map16? && i + 1 < 16 ==> Answer(Resume(phase, v)) == Continue
    {
      hide Shaped, HeadIs, MapIs, MtfEncoder.UsedBelow, CodingIs, SymbolIs, GoodTables, BlockParser.Decoding, Judge,
        LengthsAt, Least,
        TableOf, LengthDone, LengthCheck, UndoneSelectors, Pow2, Mapped;
      if phase.Map? {
        MappedInside(phase.h, phase.u16, phase.u + [v == 1]);
      }
    }

    lemma MapAgrees()
      requires Shaped() && |inUse16| == 16 && |inUse| == 256 && |seqToUnseq| == 256 && (phase.Map16? || phase.Map?) && HeadIs(phase.h)
      requires phase.Map16? ==> state == MAPPING_1 && i == |phase.u16| < 16 && inUse16[..i] == phase.u16
      requires phase.Map? ==> state == MAPPING_2 && 16 * i + j == |phase.u| < 256 && j < 16 && inUse16 == phase.u16
      requires phase.Map? ==> inUse[..|phase.u|] == phase.u && forall x :: |phase.u| <= x < 256 ==> !inUse[x]
      ensures Sized() && Agrees()
    {
      hide Shaped, HeadIs;
    }

    /** On to the next group of sixteen flags, or past the table. */
    method NextMapGroup(ghost h: Head, ghost u: seq<bool>) returns (ret: Ret)
      requires Shaped() && Sized() && HeadIs(h) && i <= 16 && |u| == 16 * i && inUse[..|u|] == u
      requires forall x :: |u| <= x < 256 ==> !inUse[x]
      requires MAGIC_1 <= state
      modifies this`state, this`i, this`j, this`phase, this`nInUse, this`seqToUnseq, this`alphaSize
      ensures Sized() && Agrees() && phase == Mapped(h, inUse16, u) && ret == Answer(phase)
    {
      hide Mapped, HeadIs, MapIs;
      hide Shaped, SymbolIs, CodingIs, LengthsAre, TablesReady, MtfEncoder.UsedBelow, BytesInUse, SkipUnused;
      ghost var w := u;
      while i < 16 && !inUse16[i]
        invariant old(i) <= i <= 16 && |w| == 16 * i && inUse[..|w|] == w
        invariant SkipUnused(inUse16, w) == SkipUnused(inUse16, u)
        decreases 16 - i
        modifies this`i
      {
        Skip(inUse16, w, i);
        assert inUse[..|w| + 16] == w + NoneUsed();
        w := w + NoneUsed();
        i := i + 1;
      }
      Skip(inUse16, w, i);
      MappedSame(h, inUse16, u, w);
      MappedAt(h, inUse16, w, i);
      if i < 16 {
        j := 0;
        state := MAPPING_2;
        phase := BlockParser.Map(h, inUse16, w);
        return Continue;
      }
      assert inUse == w;
      ret := EndMap(h);
    }

    /** makeMaps_d, and on to the selectors. */
    method EndMap(ghost h: Head) returns (ret: Ret)
      requires Shaped() && Sized() && HeadIs(h)
      requires MAGIC_1 <= state
      modifies this`state, this`phase, this`nInUse, this`seqToUnseq, this`alphaSize
      ensures Sized() && Agrees() && ret == Answer(phase)
      ensures phase == if MtfEncoder.UsedBelow(inUse, 256) == 0 then BadData else BlockParser.Groups(h, inUse)
    {
      hide Shaped, SymbolIs, CodingIs, LengthsAre, TablesReady, MtfEncoder.UsedBelow, BytesInUse, HeadIs;
      nInUse, seqToUnseq := MakeMaps(inUse, seqToUnseq);
      if nInUse == 0 {
        phase := BadData;
        return DataError;
      }
      alphaSize := nInUse + 2;
      state := SELECTOR_1;
      phase := BlockParser.Groups(h, inUse);
      ret := Continue;
    }

    // ---------- Selectors ----------

    method OnGroups(v: nat) returns (ret: Ret)
      requires Shaped() && Sized() && Agrees() && BlockParser.Valid(phase) && phase.Groups?
        && v < 8 == Pow2(Need(phase))
      modifies this`state, this`nGroups, this`phase
      ensures Agrees() && phase == Resume(old(phase), v) && ret == Answer(phase)
    {
      hide Shaped, SymbolIs, CodingIs, LengthsAre, TablesReady, HeadIs, MapIs, MtfEncoder.UsedBelow;
      phase := Resume(phase, v);
      nGroups := v;
      if nGroups < 2 || nGroups > 6 { return DataError; }
      state := SELECTOR_2;
      ret := Continue;
    }

    method OnHowMany(v: nat) returns (ret: Ret)
      requires Shaped() && Sized() && Agrees() && BlockParser.Valid(phase) && phase.HowMany?
        && v < 0x8000 == Pow2(Need(phase))
      modifies this`state, this`nSelectors, this`i, this`j, this`phase
      ensures Agrees() && phase == Resume(old(phase), v) && ret == Answer(phase)
    {
      hide *;
      Parts();
      HowManyFacts(v);
      phase := Resume(phase, v);
      nSelectors := v;
      if nSelectors < 1 {
        BadAgrees();
        return DataError;
      }
      i, j := 0, 0;
      assert selectorMtf[..0] == [];
      state := SELECTOR_3;
      SelectorAgrees();
      ret := Continue;
    }

    lemma HowManyFacts(v: nat)
      requires Shaped() && Agrees() && BlockParser.Valid(phase) && phase.HowMany? && v < 0x8000 == Pow2(Need(phase))
      ensures state == SELECTOR_2 && HeadIs(phase.h) && MapIs(phase.u) && nGroups == phase.n
      ensures Resume(phase, v) == if v < 1 then BadData else BlockParser.Selector(phase.h, phase.u, phase.n, v, [], 0)
      ensures Answer(BadData) == DataError
        && Answer(BlockParser.Selector(phase.h, phase.u, phase.n, v, [], 0)) == Continue
      ensures SELECTOR_2 == 31 && SELECTOR_3 == 32 && MAGIC_1 == 10 && !Stopped(phase)
    {
      hide Shaped, HeadIs, MapIs, MtfEncoder.UsedBelow, CodingIs, SymbolIs, GoodTables, BlockParser.Decoding, Judge,
        LengthsAt, Least,
        TableOf, LengthDone, LengthCheck, UndoneSelectors, Pow2;
    }

    method OnSelector(v: nat) returns (ret: Ret)
      requires Shaped() && Sized() && Agrees() && BlockParser.Valid(phase) && phase.Selector?
        && v < 2 == Pow2(Need(phase))
      modifies this`state, selectorMtf, selector, this`i, this`j, this`t, this`phase
      ensures Agrees() && phase == Resume(old(phase), v) && ret == Answer(phase)
    {
      hide *;
      Parts();
      SelectorFacts(v);
      ghost var p := phase;
      phase := Resume(p, v);
      if v != 0 {
        j := j + 1;
        if j >= nGroups {
          BadAgrees();
          return DataError;
        }
        SelectorAgrees();
        return Continue;
      }
      if i >= MAX_SELECTORS {
        BadAgrees();
        return Undef;  // the source writes past the end of selectorMtf
      }
      selectorMtf[i] := j;
      assert selectorMtf[..i + 1] == p.mtf + [j];
      i := i + 1;
      if i < nSelectors {
        j := 0;
        SelectorAgrees();
        return Continue;
      }
      ret := EndSelectors(p.h, p.u);
    }

    lemma SelectorFacts(v: nat)
      requires Shaped() && Agrees() && BlockParser.Valid(phase) && phase.Selector? && v < 2 == Pow2(Need(phase))
      ensures state == SELECTOR_3 && HeadIs(phase.h) && MapIs(phase.u) && nGroups == phase.n && 2 <= nGroups <= 6
      ensures nSelectors == phase.count && i == |phase.mtf| < nSelectors && i <= MAX_SELECTORS && j == phase.j
      ensures selectorMtf[..i] == phase.mtf && j < nGroups && forall k :: 0 <= k < i ==> phase.mtf[k] < nGroups
      ensures v != 0 && j + 1 >= nGroups ==> Resume(phase, v) == BadData
      ensures v != 0 && j + 1 < nGroups ==> Resume(phase, v) == phase.(j := j + 1)
      ensures v == 0 && i >= MAX_SELECTORS ==> Resume(phase, v) == Undefined
      ensures v == 0 && i < MAX_SELECTORS && i + 1 < nSelectors ==> Resume(phase, v) == phase.(mtf := phase.mtf + [j], j := 0)
      ensures v == 0 && i < MAX_SELECTORS && i + 1 == nSelectors ==>
        Resume(phase, v) == BlockParser.FirstLength(Coding(phase.h, phase.u, UndoneSelectors(nGroups, phase.mtf + [j]), []), nGroups)
      ensures Answer(BadData) == DataError && Answer(Undefined) == Undef
        && Answer(phase) == Answer(phase.(j := j + 1)) == Continue
      ensures MAX_SELECTORS == 18002 && SELECTOR_3 == 32 && MAGIC_1 == 10 && !Stopped(phase)
      ensures v == 0 && i < MAX_SELECTORS && i + 1 < nSelectors ==> Answer(Resume(phase, v)) == Continue
    {
      hide Shaped, HeadIs, MapIs, MtfEncoder.UsedBelow, CodingIs, SymbolIs, GoodTables, BlockParser.Decoding, Judge,
        LengthsAt, Least,
        TableOf, LengthDone, LengthCheck, UndoneSelectors, Pow2;
    }

    lemma SelectorAgrees()
      requires Shaped() && phase.Selector? && state == SELECTOR_3 && HeadIs(phase.h) && MapIs(phase.u)
        && nGroups == phase.n
      requires nSelectors == phase.count && i == |phase.mtf| <= MAX_SELECTORS && j == phase.j
        && selectorMtf[..i] == phase.mtf
      ensures Agrees()
    {
      hide Shaped, HeadIs, MapIs;
    }

    method EndSelectors(ghost h: Head, ghost u: seq<bool>) returns (ret: Ret)
      requires Shaped() && HeadIs(h) && MapIs(u) && 2 <= nGroups <= 6 && nSelectors <= MAX_SELECTORS
      requires selectorMtf.Length == MAX_SELECTORS
      requires forall k :: 0 <= k < nSelectors ==> selectorMtf[..nSelectors][k] < nGroups
      requires phase == BlockParser.FirstLength(Coding(h, u, UndoneSelectors(nGroups, selectorMtf[..nSelectors]), []), nGroups)
      modifies this`state, selector, this`t
      ensures Agrees() && ret == Answer(phase)
    {
      hide Shaped, SymbolIs, LengthsAre, TablesReady, HeadIs, MapIs, MtfEncoder.UsedBelow, UndoneSelectors;
      Parts();
      UndoSelectors(nGroups, selectorMtf, selector, nSelectors);
      t := 0;
      state := CODING_1;
      ret := Continue;
    }

    // ---------- Code lengths ----------

    /** A code length must be in range before each further bit. */
    method CheckLength(ghost c: Coding, ghost n: nat, ghost cur: seq<nat>) returns (ret: Ret)
      requires Shaped() && CodingIs(c, n) && t == |c.lens| && i == |cur| && LengthsAre(t, cur)
      requires MAGIC_1 <= state
      modifies this`state, this`phase
      ensures Agrees() && phase == LengthCheck(c, n, cur, curr) && ret == Answer(phase)
    {
      hide Shaped, SymbolIs, LengthsAre, TablesReady, HeadIs, MapIs, CodingIs, MtfEncoder.UsedBelow;
      Parts();
      phase := LengthCheck(c, n, cur, curr);
      if curr < 1 || curr > 20 { return DataError; }
      state := CODING_2;
      ret := Continue;
    }

    method OnFirstLength(v: nat) returns (ret: Ret)
      requires Shaped() && Sized() && Agrees() && BlockParser.Valid(phase) && phase.FirstLength?
        && v < 32 == Pow2(Need(phase))
      modifies this`state, this`curr, this`i, this`phase
      ensures Agrees() && phase == Resume(old(phase), v) && ret == Answer(phase)
    {
      hide Shaped, SymbolIs, TablesReady, HeadIs, MapIs, MtfEncoder.UsedBelow;
      Parts();
      ghost var c, n := phase.c, phase.n;
      curr, i := v, 0;
      assert tables[t].len[..0] == [];
      ret := CheckLength(c, n, []);
    }

    method OnUpDown(v: nat) returns (ret: Ret)
      requires Shaped() && Sized() && Agrees() && BlockParser.Valid(phase) && phase.LengthUpDown?
        && v < 2 == Pow2(Need(phase))
      modifies this`state, this`curr, this`phase
      ensures Agrees() && phase == Resume(old(phase), v) && ret == Answer(phase)
    {
      hide Shaped, SymbolIs, TablesReady, HeadIs, MapIs, LengthsAre, MtfEncoder.UsedBelow;
      Parts();
      ghost var c, n, cur := phase.c, phase.n, phase.cur;
      if v == 0 {
        curr := curr + 1;
      } else {
        curr := curr - 1;
      }
      ret := CheckLength(c, n, cur);
    }

    lemma MoreFacts(v: nat)
      requires Shaped() && Agrees() && BlockParser.Valid(phase) && phase.LengthMore? && v < 2 == Pow2(Need(phase))
      ensures GoodTables(phase.c, phase.n) && Partial(phase.c, phase.cur) && CodingIs(phase.c, phase.n)
      ensures t == |phase.c.lens| < 6 && i == |phase.cur| < alphaSize == AlphaSize(phase.c.inUse) <= 258
        && nGroups == phase.n
      ensures LengthsAre(t, phase.cur) && curr == phase.curr && 1 <= curr <= 20 && state == CODING_2
      ensures |phase.c.inUse| == 256 && Lengths(phase.cur + [curr]) && !Stopped(phase)
      ensures v != 0 ==> Resume(phase, v) == BlockParser.LengthUpDown(phase.c, phase.n, phase.cur, curr)
      ensures v != 0 ==> Answer(Resume(phase, v)) == Continue
      ensures v == 0 ==> Resume(phase, v) == LengthDone(phase.c, phase.n, phase.cur + [curr], curr)
      ensures MAGIC_1 == 10 && CODING_2 == 34 && CODING_3 == 35
    {
      hide Shaped, SymbolIs, LengthsAre, TablesReady, HeadIs, MtfEncoder.UsedBelow, Pow2, LengthDone;
    }

    lemma TableParts()
      requires Shaped()
      ensures |tables| == 6 && forall k :: 0 <= k < 6 ==> tables[k].len in TableRepr
    {
      Parts();
    }

    lemma UpDownAgrees()
      requires Shaped() && phase.LengthUpDown? && state == CODING_3 && CodingIs(phase.c, phase.n) && t == |phase.c.lens|
      requires i == |phase.cur| && LengthsAre(t, phase.cur) && curr == phase.curr
      ensures Agrees()
    {
      hide Shaped, CodingIs, LengthsAre;
    }

    method OnMore(v: nat) returns (ret: Ret)
      requires Shaped() && Sized() && Agrees() && BlockParser.Valid(phase) && phase.LengthMore?
        && v < 2 == Pow2(Need(phase))
      requires DecodeVectorsPacked()
      modifies this`i, this`t, this`state, this`phase, this`groupNo, this`groupPos, this`gSel, this`gMinlen, this`zn,
        this`eob, this`nblockMAX, TableRepr, st, st.unzftab, mtf.mtfa, mtf.mtfbase
      ensures Agrees() && phase == Resume(old(phase), v) && ret == Answer(phase) && DecodeVectorsPacked()
    {
      hide *;
      Parts();
      MoreFacts(v);
      ghost var c, n, cur := phase.c, phase.n, phase.cur;
      if v != 0 {
        phase := Resume(phase, v);
        state := CODING_3;
        UpDownAgrees();
        return Continue;
      }
      TableParts();
      StoreLength(c, n, cur);
      LengthDoneIs(c, n, cur + [curr], curr);
      if i < alphaSize {
        ret := CheckLength(c, n, cur + [curr]);
      } else {
        ret := TableDone(c, n, cur + [curr]);
      }
    }

    /** s->len[t][i] = curr. */
    method StoreLength(ghost c: Coding, ghost n: nat, ghost cur: seq<nat>)
      requires Shaped() && CodingIs(c, n) && t == |c.lens| < 6 && i == |cur| < 258 && LengthsAre(t, cur)
      modifies this`i, tables[t].len
      ensures i == |cur| + 1 && CodingIs(c, n) && LengthsAre(t, cur + [curr])
    {
      hide HeadIs, MapIs;
      Parts();
      tables[t].len[i] := curr;
      i := i + 1;
      forall k | 0 <= k < |c.lens| ensures LengthsAre(k, c.lens[k]) {
        assert old(LengthsAre(k, c.lens[k]));
      }
    }

    /** The lengths of a table are complete. */
    method TableDone(ghost c: Coding, ghost n: nat, ghost cur: seq<nat>) returns (ret: Ret)
      requires Shaped() && CodingIs(c, n) && t == |c.lens| < 6 && nGroups == n && LengthsAre(t, cur) && GoodTables(c, n)
      requires |cur| == AlphaSize(c.inUse) && Lengths(cur) && DecodeVectorsPacked()
      requires MAGIC_1 <= state
      modifies this`t, this`state, this`phase, this`groupNo, this`groupPos, this`gSel, this`gMinlen, this`zn,
        this`eob, this`nblockMAX, TableRepr, st, st.unzftab, mtf.mtfa, mtf.mtfbase
      ensures Agrees() && ret == Answer(phase) && DecodeVectorsPacked()
      ensures phase == if |c.lens| + 1 < n then BlockParser.FirstLength(c.(lens := c.lens + [cur]), n)
        else NextSymbol(c.(lens := c.lens + [cur]), 0, FirstDecoder())
    {
      hide Shaped, SymbolIs, LengthsAre, TablesReady, HeadIs, MapIs, MtfEncoder.UsedBelow, Lengths, DecodeVectorsPacked;
      Parts();
      ghost var c' := c.(lens := c.lens + [cur]);
      t := t + 1;
      assert CodingIs(c', n);
      if t < nGroups {
        state := CODING_1;
        phase := BlockParser.FirstLength(c', n);
        return Continue;
      }
      ret := StartSymbols(c');
    }

    /** The first k tables have been made. */
    ghost predicate Built(c: Coding, k: nat)
      requires Shaped()
      reads TableRepr
    {
      k <= 6 && k <= |c.lens| && forall u :: 0 <= u < k ==> tables[u].Ready(c.lens[u])
    }

    /** limit, base and perm of every table. */
    method BuildTables(ghost c: Coding)
      requires Shaped() && CodingIs(c, |c.lens|) && nGroups == |c.lens| && GoodCoding(c)
      modifies TableRepr
      ensures CodingIs(c, |c.lens|) && TablesReady(c)
    {
      hide *;
      Parts();
      TableCount(c);
      var k := 0;
      while k < nGroups
        invariant k <= nGroups && CodingIs(c, |c.lens|) && Built(c, k)
        modifies TableRepr
      {
        BuildTable(c, k);
        k := k + 1;
      }
      AllBuilt(c, k);
    }

    lemma TableCount(c: Coding)
      requires Shaped() && CodingIs(c, |c.lens|)
      ensures |c.lens| <= 6 && Built(c, 0)
    {
    }

    lemma AllBuilt(c: Coding, k: nat)
      requires Shaped() && Built(c, k) && k == |c.lens|
      ensures TablesReady(c)
    {
    }

    method BuildTable(ghost c: Coding, k: nat)
      requires Shaped() && CodingIs(c, |c.lens|) && nGroups == |c.lens| && GoodCoding(c) && Built(c, k) && k < nGroups
      modifies TableRepr
      ensures CodingIs(c, |c.lens|) && Built(c, k + 1)
    {
      hide HeadIs, MtfEncoder.UsedBelow, Lengths, CodeTable.Ready, MapIs;
      Parts();
      CodingFacts(c, |c.lens|);
      LengthsOf(c, k);
      assert LengthsAre(k, c.lens[k]);
      tables[k].Build(alphaSize);
      assert forall u :: 0 <= u < |c.lens| && u != k ==> old(LengthsAre(u, c.lens[u]));
      assert forall u :: 0 <= u < k ==> old(tables[u].Ready(c.lens[u]));
    }

    lemma LengthsOf(c: Coding, k: nat)
      requires GoodCoding(c) && k < |c.lens|
      ensures |c.lens[k]| == AlphaSize(c.inUse) && Lengths(c.lens[k])
    {
      hide Lengths;
    }

    /** From the tables to the first symbol. */
    method StartSymbols(ghost c: Coding) returns (ret: Ret)
      requires Shaped() && CodingIs(c, |c.lens|) && nGroups == |c.lens| && GoodCoding(c) && DecodeVectorsPacked()
      requires MAGIC_1 <= state
      modifies this`state, this`phase, this`groupNo, this`groupPos, this`gSel, this`gMinlen, this`zn,
        this`eob, this`nblockMAX, TableRepr, st, st.unzftab, mtf.mtfa, mtf.mtfbase
      ensures Agrees() && phase == NextSymbol(c, 0, FirstDecoder()) && ret == Answer(phase)
      ensures DecodeVectorsPacked()
    {
      hide *;
      Parts();
      ghost var d := FirstDecoder();
      BuildTables(c);
      InitDecoder(c, d);
      groupNo, groupPos := -1, 0;
      NextSymbolIs(c, 0, d);
      BoundaryStart(c);
      ret := NextGet(MTF_1, c, 0, d);
    }

    lemma BoundaryStart(c: Coding)
      requires Shaped() && groupNo == -1 && groupPos == 0
      ensures Boundary(c, 0)
    {
    }

    /** The end-of-block symbol, the limit, the frequencies and the list. */
    method InitDecoder(ghost c: Coding, ghost d: MoveToFront.Decoder)
      requires Shaped() && CodingIs(c, |c.lens|) && TablesReady(c) && DecodeVectorsPacked()
      requires d == FirstDecoder()
      modifies this`eob, this`nblockMAX, st, st.unzftab, mtf.mtfa, mtf.mtfbase
      ensures CodingIs(c, |c.lens|) && TablesReady(c) && DecoderIs(c, d, false) && DecodeVectorsPacked()
    {
      hide *;
      Parts();
      CodingFacts(c, |c.lens|);
      PackedParts();
      eob := nInUse + 1;
      nblockMAX := 100000 * blockSize100k;
      st.Clear();
      mtf.Init();
      FreshDecoder(c, d);
    }

    lemma PackedParts()
      requires DecodeVectorsPacked()
      ensures DecodeVectors.Packed(st.ll16, st.ll4, 900000)
    {
    }

    lemma FreshDecoder(c: Coding, d: MoveToFront.Decoder)
      requires Shaped() && mtf.Valid() && st.Valid() && mtf.List() == seq(256, x => x) && st.col == []
        && |c.inUse| == 256
      requires d == FirstDecoder() && 1 <= nInUse <= 256 && eob == nInUse + 1 && alphaSize == nInUse + 2
      requires nblockMAX == 100000 * blockSize100k && blockSize100k == c.head.bs <= 9
      ensures DecoderIs(c, d, false) && DecodeVectorsPacked()
    {
      hide MtfDecoder.MtfList.Valid, MtfDecoder.MtfList.List, CountEq, Shaped;
      assert mtf.List() == d.list;
      assert Column(c.inUse, []) == [];
    }

    lemma GoodCodingFacts(c: Coding)
      requires GoodCoding(c)
      ensures |c.inUse| == 256 && 1 <= |c.lens| <= 6
      ensures forall k :: 0 <= k < |c.sel| ==> c.sel[k] < |c.lens|
    {
    }

    lemma CodingFacts(c: Coding, n: nat)
      requires Shaped() && CodingIs(c, n)
      ensures |c.inUse| == 256 && 1 <= nInUse <= 256 && alphaSize == nInUse + 2 == AlphaSize(c.inUse)
        && nSelectors == |c.sel| <= MAX_SELECTORS == selector.Length && selector[..nSelectors] == c.sel
      ensures 1 <= blockSize100k == c.head.bs <= 9 && origPtr == c.head.orig
      ensures |seqToUnseq| == 256 && seqToUnseq[..nInUse] == BytesInUse(c.inUse, 256)
    {
      hide MtfEncoder.UsedBelow, LengthsAre;
    }

    method EnterGroup(ghost c: Coding, ghost pos: nat) returns (more: bool)
      requires Shaped() && Boundary(c, pos) && nSelectors == |c.sel| <= selector.Length
        && selector[..nSelectors] == c.sel
      requires forall k :: 0 <= k < |c.sel| ==> c.sel[k] < 6
      modifies this`groupNo, this`groupPos, this`gSel, this`gMinlen
      ensures more <==> pos < GROUP * |c.sel|
      ensures more ==> groupNo == pos / GROUP < |c.sel| && groupPos == GROUP - pos % GROUP && gSel == c.sel[pos / GROUP] < 6
      ensures more ==> gMinlen == tables[gSel].minLen
    {
      Parts();
      hide Shaped;
      GroupArith(pos, |c.sel|);
      if groupPos == 0 {
        groupNo := groupNo + 1;
        if groupNo >= nSelectors {
          return false;
        }
        groupPos := GROUP;
        assert selector[groupNo] == selector[..nSelectors][groupNo];
        gSel := selector[groupNo];
        gMinlen := tables[gSel].minLen;
      }
      more := true;
    }

    /** The head of GET_MTF_VAL: on to the next group when one is used up. */
    method NextGet(lab: nat, ghost c: Coding, ghost pos: nat, ghost d: MoveToFront.Decoder) returns (ret: Ret)
      requires Shaped() && CodingIs(c, |c.lens|) && TablesReady(c) && lab in {MTF_1, MTF_3, MTF_5} && GoodCoding(c)
      requires Boundary(c, pos) && DecoderIs(c, d, lab == MTF_3)
      requires MAGIC_1 <= state
      modifies this`state, this`phase, this`groupNo, this`groupPos, this`gSel, this`gMinlen, this`zn
      ensures Agrees() && phase == NextSymbol(c, pos, d) && ret == Answer(phase)
    {
      hide *;
      Parts();
      CodingFacts(c, |c.lens|);
      GoodCodingFacts(c);
      NextSymbolIs(c, pos, d);
      var more := EnterGroup(c, pos);
      if !more {
        phase := BadData;
        BadAgrees();
        return DataError;
      }
      AwaitCode(lab, c, pos, d);
      ret := Continue;
    }

    /** Suspended with the shortest code's bits to come. */
    method AwaitCode(lab: nat, ghost c: Coding, ghost pos: nat, ghost d: MoveToFront.Decoder)
      requires Shaped() && CodingIs(c, |c.lens|) && TablesReady(c) && DecoderIs(c, d, lab == MTF_3)
        && lab in {MTF_1, MTF_3, MTF_5}
      requires pos < GROUP * |c.sel| && groupNo == pos / GROUP < |c.sel| && groupPos == GROUP - pos % GROUP
      requires gSel == c.sel[pos / GROUP] < 6 <= |tables| && gMinlen == tables[gSel].minLen
      modifies this`groupPos, this`zn, this`state, this`phase
      ensures phase == BlockParser.Sym(c, pos, d) && Agrees()
    {
      hide *;
      Parts();
      NextSymbolIs(c, pos, d);
      groupPos := groupPos - 1;
      zn := gMinlen;
      state := lab;
      phase := BlockParser.Sym(c, pos, d);
      InGroup(c, pos);
      SymAgrees(c, pos, d);
    }

    lemma NextSymbolIs(c: Coding, pos: nat, d: MoveToFront.Decoder)
      ensures NextSymbol(c, pos, d) == if pos >= GROUP * |c.sel| then BadData else BlockParser.Sym(c, pos, d)
      ensures Answer(BlockParser.Sym(c, pos, d)) == Continue && Answer(BadData) == DataError
      ensures GROUP == 50 && MTF_1 == 36 && MTF_3 == 38 && MTF_5 == 40 && LONGEST == 20 && MAX_ALPHA == 258
      ensures |c.sel| <= GROUP * |c.sel| && pos % GROUP <= 49
    {
    }

    lemma InGroup(c: Coding, pos: nat)
      requires Shaped() && pos < GROUP * |c.sel| && groupNo == pos / GROUP < |c.sel|
        && groupPos + 1 == GROUP - pos % GROUP
      requires gSel == c.sel[pos / GROUP] < 6 <= |tables| && gMinlen == tables[gSel].minLen
      ensures GroupIs(c, pos)
    {
    }

    lemma SymAgrees(c: Coding, pos: nat, d: MoveToFront.Decoder)
      requires Shaped() && CodingIs(c, |c.lens|) && TablesReady(c) && GroupIs(c, pos) && DecoderIs(c, d, state == MTF_3)
      requires phase == BlockParser.Sym(c, pos, d) && state in {MTF_1, MTF_3, MTF_5} && zn == gMinlen
      ensures Agrees()
    {
      hide Shaped, CodingIs, TablesReady, GroupIs, DecoderIs;
    }

    lemma BadAgrees()
      requires Shaped() && (phase.BadData? || phase.BadMagic? || phase.Undefined?) && MAGIC_1 <= state
      ensures Agrees()
    {
    }

    // ---------- Symbols ----------

    lemma AfterSymbol(c: Coding, pos: nat)
      requires Shaped() && GroupIs(c, pos)
      ensures Boundary(c, pos + 1)
    {
      GroupStep(pos);
    }

    /** RUNA or RUNB: one more digit of the run's length.  es and N are signed 32-bit numbers; all
        that is added and doubled stays in their range up to the thirtieth digit. */
    method RunDigit(sym: int, ghost c: Coding, ghost pos: nat, ghost d: MoveToFront.Decoder) returns (ret: Ret)
      requires Shaped() && CodingIs(c, |c.lens|) && TablesReady(c) && GroupIs(c, pos) && ListIs(c, d) && GoodCoding(c)
      requires d.Decoder? && es == d.run - 1 && weight == d.weight && (sym == 0 || sym == 1) && RunFits(d)
      requires MAGIC_1 <= state
      modifies this`es, this`weight, this`state, this`phase, this`groupNo, this`groupPos, this`gSel, this`gMinlen,
        this`zn
      ensures Agrees() && ret == Answer(phase) && phase == AfterDigit(c, pos, d, sym)
    {
      hide *;
      Parts();
      AfterSymbol(c, pos);
      RunFitsNext(d, sym);
      DigitIs(c, pos, d, sym);
      if weight > INT_MAX / 2 {
        phase := Undefined;  // N * 2 leaves the 32-bit range
        BadAgrees();
        return Undef;
      }
      ghost var d' := d.(run := d.run + (sym + 1) * d.weight, weight := 2 * d.weight);
      es := es + (sym + 1) * weight;
      weight := weight * 2;
      ListKept(c, d, d');
      ret := NextGet(MTF_3, c, pos + 1, d');
    }

    lemma DigitIs(c: Coding, pos: nat, d: MoveToFront.Decoder, sym: int)
      requires d.Decoder? && (sym == 0 || sym == 1)
      ensures INT_MAX == 0x7fff_ffff && Answer(Undefined) == Undef
      ensures AfterDigit(c, pos, d, sym) == if 2 * d.weight > INT_MAX then Undefined
        else NextSymbol(c, pos + 1, d.(run := d.run + (sym + 1) * d.weight, weight := 2 * d.weight))
    {
    }

    lemma ListKept(c: Coding, d: MoveToFront.Decoder, d': MoveToFront.Decoder)
      requires Shaped() && ListIs(c, d) && d.Decoder? && d'.Decoder? && d'.list == d.list && d'.out == d.out
      ensures es == d'.run - 1 && weight == d'.weight && 1 <= d'.run && RunFits(d') ==> DecoderIs(c, d', true)
      ensures MTF_1 == 36 && MTF_3 == 38 && MTF_5 == 40
    {
    }

    /** The run is over: its bytes go into the block. */
    method FlushRun(ghost c: Coding, ghost d: MoveToFront.Decoder) returns (lost: bool, bad: bool)
      requires Shaped() && CodingIs(c, |c.lens|) && DecoderIs(c, d, true) && d.list != []
      modifies this`es, st, st.tt, st.ll16, st.unzftab
      ensures lost <==> MoveToFront.TooFrequent(d)
      ensures !lost ==> (bad <==> |d.out| + d.run > 100000 * c.head.bs)
      ensures !lost && !bad ==> DecoderIs(c, Flushed(d), false)
      ensures DecodeVectorsPacked()
    {
      hide Shaped, LengthsAre, TablesReady, MtfEncoder.UsedBelow, CodingIs, HeadIs, MapIs, MtfDecoder.Windows,
        RunFits, CountEq;
      Parts();
      CodingFacts(c, |c.lens|);
      RunFitsNext(d, 0);
      es := es + 1;
      FrontEntry();
      var uc := seqToUnseq[mtf.mtfa[mtf.mtfbase[0]]];
      FilledColumn(c.inUse, d.out, d.list[0], d.run, seqToUnseq, nInUse);
      ColumnCount(c.inUse, d.out, d.list[0], seqToUnseq, nInUse);
      lost := st.unzftab[uc] > INT_MAX - es;  // unzftab[uc] + es leaves the 32-bit range
      bad := false;
      if !lost {
        bad := st.Fill(uc, es, nblockMAX);
      }
    }

    /** mtfa[mtfbase[0]] is the front of the list. */
    lemma FrontEntry()
      requires mtf.Valid()
      ensures mtf.mtfa.Length == 4096 && mtf.mtfbase.Length == 16 && 0 <= mtf.mtfbase[0] < 4096
      ensures mtf.mtfa[mtf.mtfbase[0]] == mtf.List()[0]
    {
    }

    /** A byte by its place in the list, which moves to the front. */
    method Literal(sym: int, ghost c: Coding, ghost d: MoveToFront.Decoder)
      requires Shaped() && CodingIs(c, |c.lens|) && DecoderIs(c, d, false) && 2 <= sym < eob && |d.out| < nblockMAX
      requires |d.list| == 256 && |d.list| >= eob - 1 && 2 <= eob
      modifies st, st.tt, st.ll16, st.unzftab, mtf.mtfa, mtf.mtfbase
      ensures DecoderIs(c, MoveToFront.Step(d, sym, eob, nblockMAX), false)
    {
      hide Shaped, LengthsAre, TablesReady, MtfEncoder.UsedBelow, CodingIs, HeadIs, MapIs, MtfDecoder.MtfList.Valid,
        MtfDecoder.ListOf;
      Parts();
      CodingFacts(c, |c.lens|);
      LiteralStep(d, sym, eob, nblockMAX);
      StepNumbered(d, sym, eob, nblockMAX, nInUse);
      FilledColumn(c.inUse, d.out, d.list[sym - 1], 0, seqToUnseq, nInUse);
      var uc := mtf.Move(sym - 1);
      st.Append(seqToUnseq[uc]);
    }

    /** The end of the block: cftab, and on to output. */
    method FinishBlock(ghost c: Coding, ghost d: MoveToFront.Decoder) returns (ret: Ret)
      requires Shaped() && CodingIs(c, |c.lens|) && DecoderIs(c, d, false)
      requires MAGIC_1 <= state
      modifies this`state, this`phase, st.cftab
      ensures Agrees() && ret == Answer(phase)
      ensures phase == if c.head.orig >= |d.out| then BadData else BlockParser.Block(c, d.out)
    {
      hide Shaped, LengthsAre, TablesReady, MtfEncoder.UsedBelow, CodingIs, MapIs, CountLess, CountEq,
        MtfDecoder.MtfList.Valid,
        MtfDecoder.ListOf, Numbered;
      Parts();
      CodingFacts(c, |c.lens|);
      CodingHead(c, |c.lens|);
      if origPtr >= st.nblock {
        phase := BadData;
        return DataError;
      }
      var sane := st.Finish();
      ret := if sane then Ok else DataError;
      phase := BlockParser.Block(c, d.out);
      if sane {
        state := OUTPUT;
      }
    }

    lemma CodingHead(c: Coding, n: nat)
      requires Shaped() && CodingIs(c, n)
      ensures HeadIs(c.head)
    {
      hide MapIs, LengthsAre;
    }

    /** A symbol when no run is being read. */
    method PlainSymbol(sym: int, ghost c: Coding, ghost pos: nat, ghost d: MoveToFront.Decoder) returns (ret: Ret)
      requires Shaped() && CodingIs(c, |c.lens|) && TablesReady(c) && GroupIs(c, pos) && DecoderIs(c, d, false)
      requires GoodCoding(c) && BlockParser.Decoding(c, pos, d) && 0 <= sym <= eob
      requires MAGIC_1 <= state
      modifies this`state, this`phase, this`groupNo, this`groupPos, this`gSel, this`gMinlen, this`zn,
        this`es, this`weight, st, st.tt, st.ll16, st.unzftab, st.cftab, mtf.mtfa, mtf.mtfbase
      ensures Agrees() && ret == Answer(phase) && phase == Took(c, pos, d, sym) && DecodeVectorsPacked()
    {
      hide *;
      Parts();
      PlainFacts(c, pos, d);
      TookPlain(c, pos, d, sym);
      if sym == eob {
        ret := FinishBlock(c, d);
        return;
      }
      if sym == 0 || sym == 1 {
        es := -1;
        weight := 1;
        RunFitsStart(d);
        ret := RunDigit(sym, c, pos, d);
        return;
      }
      if st.nblock >= nblockMAX {
        phase := BadData;
        BadAgrees();
        return DataError;
      }
      Literal(sym, c, d);
      DecoderPacked(c, MoveToFront.Step(d, sym, eob, nblockMAX), false);
      AfterSymbol(c, pos);
      ret := NextGet(MTF_5, c, pos + 1, MoveToFront.Step(d, sym, eob, nblockMAX));
    }

    lemma PlainFacts(c: Coding, pos: nat, d: MoveToFront.Decoder)
      requires Shaped() && CodingIs(c, |c.lens|) && DecoderIs(c, d, false) && BlockParser.Decoding(c, pos, d)
      ensures |c.inUse| == 256 && eob == AlphaSize(c.inUse) - 1 && 2 <= eob <= 257 && nblockMAX == 100000 * c.head.bs
      ensures ListIs(c, d) && d.Decoder? && |d.list| == 256 && d.run == 0 && d.weight == 1
        && st.nblock == |d.out| <= nblockMAX
      ensures Answer(BadData) == DataError && MTF_1 == 36 && MTF_3 == 38 && MTF_5 == 40 && DecodeVectorsPacked()
    {
      hide MtfEncoder.UsedBelow, MapIs, MtfDecoder.MtfList.Valid, MtfDecoder.ListOf, Numbered, LengthsAre;
      CodingFacts(c, |c.lens|);
    }

    lemma DecoderPacked(c: Coding, d: MoveToFront.Decoder, inRun: bool)
      requires Shaped() && DecoderIs(c, d, inRun)
      ensures DecodeVectorsPacked()
    {
    }

    /** The symbol just read: a run goes on or ends, and then the symbol itself. */
    method Symbol(sym: int, ghost c: Coding, ghost pos: nat, ghost d: MoveToFront.Decoder) returns (ret: Ret)
      requires Shaped() && SymbolIs(c, pos, d, state in {MTF_3, MTF_4}) && BlockParser.Decoding(c, pos, d)
        && 0 <= sym <= eob
      requires MAGIC_1 <= state
      modifies this`state, this`phase, this`groupNo, this`groupPos, this`gSel, this`gMinlen, this`zn,
        this`es, this`weight, st, st.tt, st.ll16, st.unzftab, st.cftab, mtf.mtfa, mtf.mtfbase
      ensures Agrees() && ret == Answer(phase) && phase == Took(c, pos, d, sym) && DecodeVectorsPacked()
    {
      hide *;
      Parts();
      SymbolParts(c, pos, d, state in {MTF_3, MTF_4});
      if state == MTF_3 || state == MTF_4 {
        RunFacts(c, pos, d);
        TookInRun(c, pos, d, sym);
        if sym == 0 || sym == 1 {
          DecoderPacked(c, d, true);
          ret := RunDigit(sym, c, pos, d);
          return;
        }
        var lost, bad := FlushRun(c, d);
        if lost {
          phase := Undefined;
          BadAgrees();
          return Undef;
        }
        if bad {
          phase := BadData;
          BadAgrees();
          return DataError;
        }
        ret := PlainSymbol(sym, c, pos, Flushed(d));
      } else {
        ret := PlainSymbol(sym, c, pos, d);
      }
    }

    lemma SymbolParts(c: Coding, pos: nat, d: MoveToFront.Decoder, inRun: bool)
      requires Shaped() && SymbolIs(c, pos, d, inRun) && BlockParser.Decoding(c, pos, d)
      ensures CodingIs(c, |c.lens|) && TablesReady(c) && GroupIs(c, pos) && DecoderIs(c, d, inRun) && GoodCoding(c)
      ensures MTF_3 == 38 && MTF_4 == 39 && Answer(BadData) == DataError && Answer(Undefined) == Undef
        && pos < GROUP * |c.sel| && LONGEST == 20
    {
    }

    lemma RunFacts(c: Coding, pos: nat, d: MoveToFront.Decoder)
      requires Shaped() && CodingIs(c, |c.lens|) && DecoderIs(c, d, true) && BlockParser.Decoding(c, pos, d)
      ensures |c.inUse| == 256 && eob == AlphaSize(c.inUse) - 1 && 2 <= eob <= 257
      ensures ListIs(c, d) && d.Decoder? && |d.list| == 256 && es == d.run - 1 && weight == d.weight && 1 <= d.run
        && RunFits(d)
    {
      hide MtfEncoder.UsedBelow, MapIs, MtfDecoder.MtfList.Valid, MtfDecoder.ListOf, Numbered, LengthsAre;
      CodingFacts(c, |c.lens|);
    }

    /** The body of the loop in GET_MTF_VAL: zn bits of value zvec against the table. */
    method Lookup(ghost c: Coding, ghost pos: nat, ghost d: MoveToFront.Decoder) returns (ret: Ret)
      requires Shaped() && SymbolIs(c, pos, d, state in {MTF_3, MTF_4}) && BlockParser.Decoding(c, pos, d)
        && MTF_1 <= state <= MTF_6
      requires Reached(LengthsAt(c, pos), zn, zvec)
      modifies this`state, this`phase, this`groupNo, this`groupPos, this`gSel, this`gMinlen, this`zn,
        this`es, this`weight, st, st.tt, st.ll16, st.unzftab, st.cftab, mtf.mtfa, mtf.mtfbase
      ensures Agrees() && ret == Answer(phase) && phase == Judge(c, pos, d, old(zn), zvec) && DecodeVectorsPacked()
    {
      hide *;
      Parts();
      LookupFacts(c, pos, d);
      if zn > LONGEST {
        phase := BadData;
        BadAgrees();
        return DataError;
      }
      ret := DataError;
      if zvec <= tables[gSel].limit[zn] {
        var k := zvec - tables[gSel].base[zn];
        if !(k < 0 || k >= MAX_ALPHA) {
          ret := Symbol(tables[gSel].perm[k], c, pos, d);
        }
      } else {
        zn := zn + 1;
        AwaitBit(c, pos, d);
        ret := Continue;
      }
    }

    /** What the table says of zn bits of value zvec. */
    lemma LookupFacts(c: Coding, pos: nat, d: MoveToFront.Decoder)
      requires Shaped() && SymbolIs(c, pos, d, state in {MTF_3, MTF_4}) && BlockParser.Decoding(c, pos, d)
        && MTF_1 <= state <= MTF_6
      requires Reached(LengthsAt(c, pos), zn, zvec)
      ensures gSel < 6 && |tables| == 6 && tables[gSel].limit.Length == tables[gSel].base.Length == tables[gSel].perm.Length == MAX_ALPHA
      ensures LONGEST == 20 && MAX_ALPHA == 258 && MAGIC_1 == 10 && MTF_1 == 36 && Answer(BadData) == DataError
        && DecodeVectorsPacked()
      ensures Answer(BlockParser.SymBit(c, pos, d, zn + 1, zvec)) == Continue
      ensures zn > LONGEST ==> Judge(c, pos, d, zn, zvec) == BadData
      ensures zn <= LONGEST && zvec <= tables[gSel].limit[zn] ==>
        var k := zvec - tables[gSel].base[zn];
        0 <= k < MAX_ALPHA && 0 <= tables[gSel].perm[k] <= eob && Judge(c, pos, d, zn, zvec) == Took(c, pos, d, tables[gSel].perm[k])
      ensures zn <= LONGEST && zvec > tables[gSel].limit[zn] ==> Judge(c, pos, d, zn, zvec) == BlockParser.SymBit(c, pos, d, zn + 1, zvec)
    {
      hide *;
      Parts();
      SymbolParts(c, pos, d, state in {MTF_3, MTF_4});
      ghost var l := LengthsAt(c, pos);
      TableFacts(c, pos);
      DecoderPacked(c, d, state in {MTF_3, MTF_4});
      ReachedZn(l, zn, zvec);
      JudgeIs(c, pos, d, zn, zvec);
      EobIs(c, pos, d, state in {MTF_3, MTF_4});
      if zn <= LONGEST {
        LookupAgrees(l, Tables(tables[gSel].minLen, tables[gSel].limit[..], tables[gSel].base[..], tables[gSel].perm[..]), zn, zvec);
      }
    }

    method AwaitBit(ghost c: Coding, ghost pos: nat, ghost d: MoveToFront.Decoder)
      requires Shaped() && SymbolIs(c, pos, d, state in {MTF_3, MTF_4}) && MTF_1 <= state <= MTF_6
      modifies this`state, this`phase
      ensures phase == BlockParser.SymBit(c, pos, d, zn, zvec) && Agrees()
    {
      hide Shaped, SymbolIs;
      Parts();
      if state % 2 == 0 {
        state := state + 1;
      }
      phase := BlockParser.SymBit(c, pos, d, zn, zvec);
    }

    lemma EobIs(c: Coding, pos: nat, d: MoveToFront.Decoder, inRun: bool)
      requires Shaped() && SymbolIs(c, pos, d, inRun) && BlockParser.Decoding(c, pos, d)
      ensures |c.inUse| == 256 && eob == AlphaSize(c.inUse) - 1 && |LengthsAt(c, pos)| == AlphaSize(c.inUse)
    {
      hide MtfEncoder.UsedBelow, TablesReady, LengthsAre;
      CodingFacts(c, |c.lens|);
    }

    lemma TableFacts(c: Coding, pos: nat)
      requires Shaped() && GoodCoding(c) && TablesReady(c) && GroupIs(c, pos)
      ensures gSel < 6 && |tables| == 6 && tables[gSel].limit.Length == tables[gSel].base.Length == tables[gSel].perm.Length == MAX_ALPHA
      ensures var l := LengthsAt(c, pos);
        && Lengths(l) && tables[gSel].minLen == Least(l)
        && TablesFor(l, Greatest(l), Tables(tables[gSel].minLen, tables[gSel].limit[..], tables[gSel].base[..], tables[gSel].perm[..]))
      ensures LONGEST == 20 && MAX_ALPHA == 258 && Answer(BadData) == DataError && |c.lens| <= 6 && MAGIC_1 == 10
        && MTF_1 == 36
    {
      hide TablesFor, Least, Greatest, Lengths;
    }

    /** The first bits of a code. */
    method OnCode(v: nat) returns (ret: Ret)
      requires Shaped() && Agrees() && BlockParser.Valid(phase) && phase.Sym? && v < Pow2(Need(phase))
      modifies this`zvec, this`state, this`phase, this`groupNo, this`groupPos, this`gSel, this`gMinlen, this`zn,
        this`es, this`weight, st, st.tt, st.ll16, st.unzftab, st.cftab, mtf.mtfa, mtf.mtfbase
      ensures Agrees() && phase == Resume(old(phase), v) && ret == Answer(phase) && DecodeVectorsPacked()
    {
      hide *;
      Parts();
      SymFacts();
      ghost var c, pos, d := phase.c, phase.pos, phase.d;
      zvec := v;
      ReachedFirst(LengthsAt(c, pos), v);
      SymResume(c, pos, d, v);
      ret := Lookup(c, pos, d);
    }

    lemma SymFacts()
      requires Shaped() && Agrees() && BlockParser.Valid(phase) && phase.Sym?
      ensures SymbolIs(phase.c, phase.pos, phase.d, state == MTF_3) && BlockParser.Decoding(phase.c, phase.pos, phase.d)
      ensures GoodCoding(phase.c) && phase.pos < GROUP * |phase.c.sel|
      ensures zn == Least(LengthsAt(phase.c, phase.pos)) && state in {MTF_1, MTF_3, MTF_5}
      ensures MTF_1 == 36 && MTF_3 == 38 && MTF_4 == 39 && MTF_5 == 40 && MTF_6 == 41
    {
      hide CodingIs, DecoderIs, CodeTable.Ready, GoodCoding, Least, LengthsAt;
      TableFacts(phase.c, phase.pos);
    }

    /** One more bit of a code. */
    method OnCodeBit(v: nat) returns (ret: Ret)
      requires Shaped() && Agrees() && BlockParser.Valid(phase) && phase.SymBit? && v < 2 == Pow2(Need(phase))
      modifies this`zvec, this`state, this`phase, this`groupNo, this`groupPos, this`gSel, this`gMinlen, this`zn,
        this`es, this`weight, st, st.tt, st.ll16, st.unzftab, st.cftab, mtf.mtfa, mtf.mtfbase
      ensures Agrees() && phase == Resume(old(phase), v) && ret == Answer(phase) && DecodeVectorsPacked()
    {
      hide *;
      Parts();
      SymBitFacts();
      ghost var c, pos, d := phase.c, phase.pos, phase.d;
      SymBitResume(c, pos, d, zn, zvec, v);
      zvec := zvec * 2 + v;
      ret := Lookup(c, pos, d);
    }

    lemma SymBitFacts()
      requires Shaped() && Agrees() && BlockParser.Valid(phase) && phase.SymBit?
      ensures SymbolIs(phase.c, phase.pos, phase.d, state == MTF_4) && BlockParser.Decoding(phase.c, phase.pos, phase.d)
      ensures GoodCoding(phase.c) && phase.pos < GROUP * |phase.c.sel| && zn == phase.zn && zvec == phase.zvec
      ensures state in {MTF_2, MTF_4, MTF_6}
      ensures MTF_1 == 36 && MTF_2 == 37 && MTF_3 == 38 && MTF_4 == 39 && MTF_6 == 41
    {
      hide CodingIs, DecoderIs, CodeTable.Ready, GoodCoding, Least, LengthsAt, GroupIs;
    }

    /** What the label alone says of the phase. */
    lemma StateOf()
      requires Composed()
      ensures state == OUTPUT <==> phase.Block?
      ensures state == IDLE <==> phase.End?
      ensures state < MAGIC_1 ==> phase.Block? || phase.End?
      ensures phase.End? ==> storedCombinedCRC == phase.combined
      ensures phase.Block? ==> HeadIs(phase.c.head)
    {
      hide Shaped, CodingIs, SymbolIs, HeadIs, MapIs, LengthsAre, BlockParser.Decoding, GoodTables, LengthsAt, Least,
        TableOf,
        DecodeVectorsPacked;
    }

    /** The block has been handed out: the next header comes. */
    method NextBlock()
      requires Shaped() && Sized() && DecodeVectorsPacked() && phase.Block? && HeadIs(phase.c.head)
      modifies this`state, this`phase
      ensures Composed() && phase == BlockMagic(old(phase).c.head.bs, 1)
    {
      hide Shaped;
      Parts();
      phase := BlockMagic(phase.c.head.bs, 1);
      state := BLKHDR_1;
    }

    // ---------- The coroutine ----------

    /** The label names the kind of phase, and how many bits it waits for. */
    lemma Labels()
      requires Shaped() && Agrees() && BlockParser.Valid(phase) && !Stopped(phase)
      ensures 10 <= state <= 50
      ensures state <= 13 <==> phase.Magic?
      ensures 14 <= state <= 19 <==> phase.BlockMagic?
      ensures 20 <= state <= 23 <==> phase.BlockSum?
      ensures state == 24 <==> phase.RandBit?
      ensures 25 <= state <= 27 <==> phase.Origin?
      ensures state == 28 <==> phase.Map16?
      ensures state == 29 <==> phase.Map?
      ensures state == 30 <==> phase.Groups?
      ensures state == 31 <==> phase.HowMany?
      ensures state == 32 <==> phase.Selector?
      ensures state == 33 <==> phase.FirstLength?
      ensures state == 34 <==> phase.LengthMore?
      ensures state == 35 <==> phase.LengthUpDown?
      ensures state in {36, 38, 40} <==> phase.Sym?
      ensures state in {37, 39, 41} <==> phase.SymBit?
      ensures 42 <= state <= 46 <==> phase.EndMagic?
      ensures 47 <= state <==> phase.EndSum?
    {
      hide Shaped, CodingIs, SymbolIs, HeadIs, MapIs, LengthsAre, GoodTables, BlockParser.Decoding, AlphaSize,
        LengthsAt, Least, TableOf;
    }

    /** The third argument of each GET_BITS. */
    method Bits() returns (n: nat)
      requires Shaped() && Agrees() && BlockParser.Valid(phase) && !Stopped(phase)
      ensures n == Need(phase)
    {
      hide Shaped, Agrees, BlockParser.Valid, BlockParser.Decoding, LengthsAt, Least, TableOf;
      Labels();
      if state in {MTF_1, MTF_3, MTF_5} {
        SymNeed();
        return zn;
      }
      n := if state in {RANDBIT, MAPPING_1, MAPPING_2, SELECTOR_3, CODING_2, CODING_3, MTF_2, MTF_4, MTF_6} then 1
           else if state == SELECTOR_1 then 3
           else if state == SELECTOR_2 then 15
           else if state == CODING_1 then 5
           else 8;
    }

    lemma SymNeed()
      requires Shaped() && Agrees() && BlockParser.Valid(phase) && phase.Sym?
      ensures zn == Need(phase)
    {
      hide Shaped, Agrees, Least, LengthsAt, BlockParser.Decoding;
      SymFacts();
    }

    method StepFrame(v: nat) returns (ret: Ret)
      requires Shaped() && Sized() && Agrees() && BlockParser.Valid(phase) && !Stopped(phase) && v < Pow2(Need(phase))
      requires state <= ORIGPTR_1 + 2 || state >= ENDHDR_2
      modifies this`state, this`phase, this`blockSize100k, this`storedBlockCRC, this`storedCombinedCRC,
        this`blockRandomised,
        this`origPtr, this`i
      ensures Agrees() && phase == Resume(old(phase), v) && ret == Answer(phase)
    {
      hide *;
      Labels();
      NeedValue(phase);
      Constants();
      if state <= 13 {
        ret := OnMagic(v);
      } else if state <= 19 {
        ret := OnBlockHeader(v);
      } else if state <= 23 {
        ret := OnBlockSum(v);
      } else if state == RANDBIT {
        ret := OnRandBit(v);
      } else if state <= 27 {
        ret := OnOrigin(v);
      } else if state <= 46 {
        ret := OnEndHeader(v);
      } else {
        ret := OnEndSum(v);
      }
    }

    method StepTables(v: nat) returns (ret: Ret)
      requires Shaped() && Sized() && Agrees() && BlockParser.Valid(phase) && !Stopped(phase) && v < Pow2(Need(phase))
      requires MAPPING_1 <= state <= CODING_3 && DecodeVectorsPacked()
      modifies this, TableRepr, st, st.unzftab, mtf.mtfa, mtf.mtfbase
      ensures Sized() && Agrees() && phase == Resume(old(phase), v) && ret == Answer(phase) && DecodeVectorsPacked()
    {
      hide *;
      Parts();
      Labels();
      NeedValue(phase);
      Constants();
      if state == MAPPING_1 {
        ret := OnMap16(v);
      } else if state == MAPPING_2 {
        ret := OnMap(v);
      } else if state == SELECTOR_1 {
        ret := OnGroups(v);
      } else if state == SELECTOR_2 {
        ret := OnHowMany(v);
      } else if state == SELECTOR_3 {
        ret := OnSelector(v);
      } else if state == CODING_1 {
        ret := OnFirstLength(v);
      } else if state == CODING_2 {
        ret := OnMore(v);
      } else {
        ret := OnUpDown(v);
      }
    }

    /** From one GET_BITS to the next. */
    method Step(v: nat) returns (ret: Ret)
      requires Ready() && !Stopped(phase) && v < Pow2(Need(phase))
      modifies this, TableRepr, st, st.tt, st.ll16, st.unzftab, st.cftab, mtf.mtfa, mtf.mtfbase
      ensures Ready() && phase == Resume(old(phase), v) && ret == Answer(phase)
    {
      hide *;
      ReadyParts();
      Parts();
      Labels();
      NeedValue(phase);
      Constants();
      ResumeValid(phase, v);
      if state <= 27 || state >= 42 {
        ret := StepFrame(v);
      } else if state <= CODING_3 {
        ret := StepTables(v);
      } else if state % 2 == 0 {
        ret := OnCode(v);
      } else {
        ret := OnCodeBit(v);
      }
      ReadyIf();
    }

    lemma ComposedParts()
      requires Composed()
      ensures Shaped() && Sized() && Agrees() && BlockParser.Valid(phase) && DecodeVectorsPacked()
    {
    }

    lemma ReadyParts()
      requires Ready()
      ensures Composed() && Shaped() && Sized() && Agrees() && BlockParser.Valid(phase) && DecodeVectorsPacked()
        && r.Valid()
    {
    }

    lemma ReadyIf()
      requires Shaped() && Sized() && r.Valid() && BlockParser.Valid(phase) && Agrees() && DecodeVectorsPacked()
      ensures Ready()
    {
    }

    /** The input is taken no further than the next step of the machine needs. */
    ghost predicate Lean()
      reads this`phase, r
    {
      r.Lean(Want(phase))
    }

    lemma LeanMeans()
      ensures Lean() <==> r.Lean(Want(phase))
      ensures Lean() <==> |r.pending| < 8 || |r.pending| < Want(phase)
      ensures r.Lean(0) ==> Lean()
      ensures BlockParser.Valid(phase) && !Stopped(phase) ==> Want(phase) == Need(phase)
      ensures Stopped(phase) && Lean() ==> |r.pending| < 8
    {
    }

    /** One GET_BITS, and on to the next; or back to the caller when the bits do not suffice. */
    method Turn() returns (ret: Ret, ghost took: seq<bool>)
      requires Ready() && !Stopped(phase)
      modifies r, this, TableRepr, st, st.tt, st.ll16, st.unzftab, st.cftab, mtf.mtfa, mtf.mtfbase
      ensures Ready() && Leads(old(phase), took, phase) && old(r.Rest()) == took + r.Rest()
      ensures |r.nextIn| <= |old(r.nextIn)| && r.nextIn == old(r.nextIn)[|old(r.nextIn)| - |r.nextIn|..]
      ensures took == [] ==> !Stopped(phase) && ret == Ok && r.nextIn == [] && |r.Rest()| < Need(phase)
      ensures took != [] ==> ret == Answer(phase)
      ensures old(Lean()) ==> Lean()
    {
      hide *;
      ReadyParts();
      Parts();
      LeanMeans();
      Stay(phase);
      Nothing(r.Rest());
      took := [];
      var n := Bits();
      ghost var rest, p := r.Rest(), phase;
      NeedRange(phase);
      var ok, v := r.GetBits(n);
      ReadyIf();
      LeanMeans();
      if !ok {
        return Ok, [];
      }
      TakeBits(p, rest, n, v);
      ret := Step(v);
      took := rest[..n];
      LeanMeans();
    }

    lemma ReadyOf()
      requires Composed() && r.Valid()
      ensures Ready()
    {
    }

    /** BZ2_decompress: on until the input runs out or the phase is one that stops.  `taken` are
        the bits it has used. */
    method Decompress() returns (ret: Ret, ghost taken: seq<bool>)
      requires Ready() && !Stopped(phase)
      modifies r, this, TableRepr, st, st.tt, st.ll16, st.unzftab, st.cftab, mtf.mtfa, mtf.mtfbase
      ensures Ready() && Leads(old(phase), taken, phase) && old(r.Rest()) == taken + r.Rest()
      ensures ret == if Stopped(phase) then Answer(phase) else Ok
      ensures !Stopped(phase) ==> r.nextIn == [] && |r.Rest()| < Need(phase)
      ensures |r.nextIn| <= |old(r.nextIn)| && r.nextIn == old(r.nextIn)[|old(r.nextIn)| - |r.nextIn|..]
      ensures old(Lean()) ==> Lean()
    {
      hide *;
      ReadyParts();
      Parts();
      ghost var p0, all, given := phase, r.Rest(), r.nextIn;
      taken := [];
      ret := Continue;
      Stay(phase);
      Nothing(all);
      while ret == Continue
        invariant Ready() && Leads(p0, taken, phase) && all == taken + r.Rest()
        invariant |r.nextIn| <= |given| && r.nextIn == given[|given| - |r.nextIn|..]
        invariant ret == Continue ==> !Stopped(phase)
        invariant old(Lean()) ==> Lean()
        invariant ret != Continue ==> ret == if Stopped(phase) then Answer(phase) else Ok
        invariant ret != Continue && !Stopped(phase) ==> r.nextIn == [] && (ReadyParts(); |r.Rest()| < Need(phase))
        decreases ret == Continue, |r.Rest()|
      {
        ReadyParts();
        ghost var p, rest, took;
        p, rest := phase, r.Rest();
        ret, took := Turn();
        Then(p0, taken, p, took, phase);
        Assoc(taken, took, r.Rest());
        taken := taken + took;
        Answers(phase);
      }
    }
  }

  /** How many bits the machine waits for, if it waits. */
  ghost function Want(p: Phase): nat {
    if BlockParser.Valid(p) && !Stopped(p) then Need(p) else 0
  }

  lemma Constants()
    ensures RANDBIT == 24 && ORIGPTR_1 == 25 && MAPPING_1 == 28 && MAPPING_2 == 29 && SELECTOR_1 == 30
      && SELECTOR_2 == 31
    ensures SELECTOR_3 == 32 && CODING_1 == 33 && CODING_2 == 34 && CODING_3 == 35 && ENDHDR_2 == 42
  {
  }

  lemma NeedValue(p: Phase)
    requires BlockParser.Valid(p) && !Stopped(p)
    ensures p.Magic? || p.BlockMagic? || p.BlockSum? || p.Origin? || p.EndMagic? || p.EndSum? ==> Pow2(Need(p)) == 256
    ensures p.RandBit? || p.Map16? || p.Map? || p.Selector? || p.LengthMore? || p.LengthUpDown? || p.SymBit? ==> Pow2(Need(p)) == 2
    ensures p.Groups? ==> Pow2(Need(p)) == 8
    ensures p.HowMany? ==> Pow2(Need(p)) == 0x8000
    ensures p.FirstLength? ==> Pow2(Need(p)) == 32
  {
    hide BlockParser.Valid, BlockParser.Decoding, LengthsAt, Least, TableOf, Pow2;
    Powers15();
  }

  lemma Powers15()
    ensures Pow2(1) == 2 && Pow2(3) == 8 && Pow2(5) == 32 && Pow2(8) == 256 && Pow2(15) == 0x8000
  {
    Pow2Byte();
    Pow2Add(8, 7);
    assert Pow2(7) == 128;
  }

  lemma NeedRange(p: Phase)
    requires BlockParser.Valid(p) && !Stopped(p)
    ensures 1 <= Need(p) <= 20
  {
  }

  lemma Answers(p: Phase)
    ensures Answer(p) == Continue <==> !Stopped(p)
  {
  }

  /** n bits, read as a number, take the machine from p to the next phase. */
  lemma TakeBits(p: Phase, rest: seq<bool>, n: nat, v: nat)
    requires BlockParser.Valid(p) && !Stopped(p) && n == Need(p) <= |rest| && v == Value(rest[..n])
    ensures v < Pow2(Need(p)) && Leads(p, rest[..n], Resume(p, v))
    ensures rest == rest[..n] + rest[n..]
  {
    hide Leads, BlockParser.Valid, Need, Resume, Value, BitStrings.Bits;
    BitsOfValue(rest[..n]);
    One(p, v, n);
    assert rest == rest[..n] + rest[n..];
  }
}
