/** BZ2_compressBlock (dep/bzip2/compress.c:579-628) after the sort: symbols, tables and bits of
    one block, and the room they take. */
module BlockCompressor {
  import opened Sequences
  import opened Rotations
  import opened Powers
  import opened BitStrings
  import opened CanonicalCodes
  import opened BlockFormat
  import opened BitWriter
  import opened BlockWriter
  import opened TableChoice
  import BlockRoundTrip
  import InverseBwt
  import MoveToFront
  import MtfEncoder
  import PrefixCodes

  // ---------- How long a block can get ----------

  lemma {:induction false} UnariesLength(mtf: seq<nat>, n: nat)
    requires forall i :: 0 <= i < |mtf| ==> mtf[i] < n
    ensures |Unaries(mtf)| <= n * |mtf|
  {
    if mtf != [] {
      UnaryLength(mtf[0]);
      UnariesLength(mtf[1..], n);
      assert n * |mtf| == n * |mtf[1..]| + n;
    }
  }

  lemma {:induction false} DeltaLength(curr: nat, to: nat)
    ensures |Delta(curr, to)| == 1 + 2 * (if curr < to then to - curr else curr - to)
    decreases if curr < to then to - curr else curr - to
  {
    if curr < to {
      DeltaLength(curr + 1, to);
    } else if curr > to {
      DeltaLength(curr - 1, to);
    }
  }

  lemma {:induction false} DeltasLength(curr: nat, len: seq<nat>)
    requires 1 <= curr <= 17 && forall i :: 0 <= i < |len| ==> 1 <= len[i] <= 17
    ensures |Deltas(curr, len)| <= 33 * |len|
    decreases |len|
  {
    if len != [] {
      DeltaLength(curr, len[0]);
      DeltasLength(len[0], len[1..]);
    }
  }

  lemma {:induction false} LengthTablesLength(lens: seq<seq<nat>>)
    requires forall t :: 0 <= t < |lens| ==> lens[t] != [] && |lens[t]| <= MAX_ALPHA && Full(lens[t])
    ensures |LengthTables(lens)| <= 8519 * |lens|
  {
    hide PrefixCodes.Kraft;
    if lens != [] {
      DeltasLength(lens[0][0], lens[0]);
      LengthTablesLength(lens[1..]);
    }
  }

  lemma {:induction false} CodesLength(c: Coded, pos: nat)
    requires GoodBlock(c) && pos <= |c.symbols| && forall t :: 0 <= t < |c.lens| ==> Full(c.lens[t])
    ensures |Codes(c, pos)| <= 17 * (|c.symbols| - pos)
    decreases |c.symbols| - pos
  {
    hide Code, Bits, GoodBlock, PrefixCodes.Kraft, Codes;
    if pos < |c.symbols| {
      GoodBlockTables(c);
      CodesUnfold(c, pos);
      CodesLength(c, pos + 1);
    } else {
      CodesEnd(c);
    }
  }

  lemma GoodBlockTables(c: Coded)
    requires GoodBlock(c)
    ensures 2 <= |c.lens| <= 6 && |c.inUse| == 256 && forall t :: 0 <= t < |c.lens| ==> |c.lens[t]| == AlphaSize(c.inUse)
  {
    forall t | 0 <= t < |c.lens| ensures |c.lens[t]| == AlphaSize(c.inUse) {
      assert GoodLengths(c.lens[t], AlphaSize(c.inUse));
    }
  }

  lemma CodesEnd(c: Coded)
    requires GoodBlock(c)
    ensures Codes(c, |c.symbols|) == []
  {
  }

  /** A block of n symbols takes at most this many bits. */
  function BlockLimit(n: nat): nat {
    51600 + 18 * n
  }

  lemma BlockLength(c: Coded)
    requires GoodBlock(c) && GROUP * (|c.selectors| - 1) < |c.symbols|
    requires forall t :: 0 <= t < |c.lens| ==> Full(c.lens[t])
    ensures |BlockBits(c)| <= BlockLimit(|c.symbols|)
  {
    hide Codes, LengthTables, Full, Unaries, Bits, GoodBlock, UsedGroups, Bytes, Selectors;
    BlockRoundTrip.BlockBitsUnfold(c);
    GoodBlockTables(c);
    BlockRoundTrip.CodingGood(c, 1);
    CodesLength(c, 0);
    LengthTablesLength(c.lens);
    SelectorsLength(|c.lens|, c.selectors);
    UsedGroupsLength(c.inUse, 0);
    BytesLength(BLOCK_MAGIC);
    WordLength(c.crc);
    assert |Mapping(c.inUse)| <= 272;
    assert |c.selectors| * 50 <= |c.symbols| + 49;
  }

  lemma WordLength(u: nat)
    ensures |Word(u)| == 32
  {
    BytesLength([u / 0x100_0000 % 256, u / 0x1_0000 % 256, u / 0x100 % 256, u % 256]);
  }

  lemma SelectorsLength(n: nat, sel: seq<nat>)
    requires n <= 6 && forall i :: 0 <= i < |sel| ==> sel[i] < n
    ensures |Selectors(n, sel)| <= 18 + 6 * |sel|
  {
    hide Unaries, Bits;
    IdentityHas(n, sel);
    UnariesLength(SelectorMtf(MtfEncoder.Identity(n), sel), n);
    MulMonotone(n, 6, |sel|);
  }

  /** One block, with the stream header before it, the trailer after it, and what was pending
      in the bit buffer, fits behind the block in arr2 (dep/bzip2/bzlib.c:168-170,
      dep/bzip2/compress.c:595). */
  lemma FitsInArr2(level: nat, nblock: nat)
    requires 1 <= level <= 9 && nblock <= 100000 * level - 10
    ensures 31 + 32 + BlockLimit(nblock + 1) + 80 <= 8 * (4 * (100000 * level + 34) - nblock)
  {
  }

  // ---------- Printing ----------

  /** BLOCK_MAGIC, checksum, the bit that says not randomised, origPtr. */
  method SendHeader(w: Writer, crc: nat, origPtr: nat)
    requires w.Valid() && 105 <= w.Room() && crc < 0x1_0000_0000 && origPtr < 0x100_0000
    modifies w, w.zbits
    ensures w.Valid() && w.Room() == old(w.Room()) - 105
    ensures w.Written() == old(w.Written()) + (Bytes(BLOCK_MAGIC) + Word(crc) + [false] + Bits(origPtr, 24))
  {
    hide w.Valid, w.Room, w.Written, Bits, Bytes, Word;
    Pow2Word();
    ghost var s := w.Written();
    PutBytes(w, BLOCK_MAGIC);
    PutWord(w, crc);
    PutFlag(w, false);
    w.W(24, origPtr);
    AssocFour(s, Bytes(BLOCK_MAGIC), Word(crc), [false]);
    Assoc(s, Bytes(BLOCK_MAGIC) + Word(crc) + [false], Bits(origPtr, 24));
  }

  /** The lengths of all tables. */
  method SendAllLengths(w: Writer, len: seq<array<nat>>, alphaSize: nat, ghost lens: seq<seq<nat>>)
    requires Holds(len, lens, alphaSize) && 1 <= alphaSize
    requires forall t :: 0 <= t < |lens| ==> lens[t] != [] && lens[t][0] <= 20
    requires forall t :: 0 <= t < |len| ==> len[t] != w.zbits
    requires w.Valid() && |LengthTables(lens)| <= w.Room()
    modifies w, w.zbits
    ensures w.Valid() && w.Written() == old(w.Written()) + LengthTables(lens)
    ensures w.Room() == old(w.Room()) - |LengthTables(lens)|
    ensures Holds(len, lens, alphaSize)
  {
    hide w.Valid, w.Room, w.Written, LengthTable, Holds;
    HoldsSize(len, lens, alphaSize);
    var t := 0;
    assert lens[0..] == lens;
    while t < |len|
      invariant t <= |len| && w.Valid() && Holds(len, lens, alphaSize)
      invariant w.Room() == old(w.Room()) - |LengthTables(lens)| + |LengthTables(lens[t..])|
      invariant w.Written() + LengthTables(lens[t..]) == old(w.Written()) + LengthTables(lens)
    {
      HoldsAt(len, lens, alphaSize, t);
      assert lens[t..][0] == lens[t] && lens[t..][1..] == lens[t + 1..];
      ghost var before := w.Written();
      SendLengths(w, len[t], alphaSize);
      assert before + (LengthTable(lens[t]) + LengthTables(lens[t + 1..])) == (before + LengthTable(lens[t])) + LengthTables(lens[t + 1..]);
      t := t + 1;
    }
    assert w.Written() + [] == w.Written();
  }

  /** Everything sendMTFValues writes. */
  method SendBody(w: Writer, inUse: array<bool>, mtfv: array<int>, nMTF: nat, selector: array<nat>, selectorMtf: array<nat>,
                  nSelectors: nat, len: seq<array<nat>>, alphaSize: nat, ghost c: Coded)
    requires GoodBlock(c) && inUse.Length == 256 && c.inUse == inUse[..] && alphaSize == AlphaSize(c.inUse)
    requires nMTF <= 2 * mtfv.Length && c.symbols == MtfEncoder.Halves(mtfv[..], nMTF)
    requires nSelectors <= selector.Length && nSelectors <= selectorMtf.Length && c.selectors == selector[..nSelectors]
    requires GROUP * (nSelectors - 1) < nMTF && Holds(len, c.lens, alphaSize)
    requires inUse as object != w.zbits as object && mtfv as object != w.zbits as object
    requires selector != w.zbits && selectorMtf != w.zbits && selector != selectorMtf
    requires mtfv as object != selectorMtf as object && inUse as object != selectorMtf as object
    requires forall t :: 0 <= t < |len| ==> len[t] != w.zbits && len[t] != selectorMtf
    requires w.Valid() && |BodyBits(c)| <= w.Room()
    modifies w, w.zbits, selectorMtf
    ensures w.Valid() && w.Written() == old(w.Written()) + BodyBits(c) && w.Room() == old(w.Room()) - |BodyBits(c)|
  {
    hide w.Valid, w.Room, w.Written, GoodBlock, Mapping, Selectors, LengthTables, Codes, Holds, HoldsCodes, AlphaSize,
      BodyBits;
    ghost var s := w.Written();
    BlockRoundTrip.GoodBlockFacts(c);
    GoodTablesOf(c);
    HoldsSize(len, c.lens, alphaSize);
    BodyUnfold(c);
    var code := AssignAll(len, alphaSize, c.lens);
    SendMapping(w, inUse);
    SendSelectors(w, selector, selectorMtf, nSelectors, |len|);
    SendAllLengths(w, len, alphaSize, c.lens);
    SendCodes(w, mtfv, nMTF, selector, nSelectors, len, code, c);
    AssocFive(s, Mapping(c.inUse), Selectors(|c.lens|, c.selectors), LengthTables(c.lens), Codes(c, 0));
  }

  ghost function BodyBits(c: Coded): seq<bool>
    requires GoodBlock(c)
  {
    BlockRoundTrip.GoodBlockFacts(c);
    Mapping(c.inUse) + Selectors(|c.lens|, c.selectors) + LengthTables(c.lens) + Codes(c, 0)
  }

  lemma BodyUnfold(c: Coded)
    requires GoodBlock(c)
    ensures (forall i :: 0 <= i < |c.selectors| ==> c.selectors[i] < |c.lens|) && |c.inUse| == 256
    ensures forall t :: 0 <= t < |c.lens| ==> c.lens[t] != []
    ensures BodyBits(c) == Mapping(c.inUse) + Selectors(|c.lens|, c.selectors) + LengthTables(c.lens) + Codes(c, 0)
    ensures |BodyBits(c)| == |Mapping(c.inUse)| + |Selectors(|c.lens|, c.selectors)| + |LengthTables(c.lens)| + |Codes(c, 0)|
    ensures BlockBits(c) == BlockRoundTrip.HeaderBits(c) + BodyBits(c)
  {
    hide Mapping, Selectors, LengthTables, Codes, GoodBlock;
    hide BlockBits, BlockRoundTrip.HeaderBits;
    BlockRoundTrip.BlockBitsUnfold(c);
    AssocFive(BlockRoundTrip.HeaderBits(c), Mapping(c.inUse), Selectors(|c.lens|, c.selectors), LengthTables(c.lens),
                Codes(c, 0));
  }

  lemma GoodTablesOf(c: Coded)
    requires GoodBlock(c)
    ensures |c.inUse| == 256 && 3 <= AlphaSize(c.inUse)
    ensures forall t :: 0 <= t < |c.lens| ==> GoodLengths(c.lens[t], AlphaSize(c.inUse)) && c.lens[t] != [] && c.lens[t][0] <= 20
  {
    forall t | 0 <= t < |c.lens|
      ensures GoodLengths(c.lens[t], AlphaSize(c.inUse)) && c.lens[t] != [] && c.lens[t][0] <= 20
    {
      assert GoodLengths(c.lens[t], AlphaSize(c.inUse));
    }
  }

  // ---------- One block from its sorted rotations ----------

  /** How many coding tables to use. */
  function TableCount(nMTF: nat): (n: nat)
    ensures 2 <= n <= 6
  {
    if nMTF < 200 then 2 else if nMTF < 600 then 3 else if nMTF < 1200 then 4 else if nMTF < 2400 then 5 else 6
  }

  /** The compressor's arrays for tables, selectors and symbol frequencies. */
  class Workspace {
    const len: seq<array<nat>>
    const selector: array<nat>
    const selectorMtf: array<nat>
    const mtfFreq: array<int>

    ghost const Repr: set<object>

    ghost predicate Valid() {
      && |len| == 6 && Rows(len) && mtfFreq.Length == MAX_ALPHA
      && selector.Length == selectorMtf.Length == 18002 && selector != selectorMtf
      && (forall t :: 0 <= t < |len| ==> len[t] != selector && len[t] != selectorMtf && len[t] as object != mtfFreq as object)
      && (forall t, u :: 0 <= t < u < |len| ==> len[t] != len[u])
      && selector as object != mtfFreq as object && selectorMtf as object != mtfFreq as object
      && selector in Repr && selectorMtf in Repr && mtfFreq in Repr && forall t :: 0 <= t < |len| ==> len[t] in Repr
    }

    constructor ()
      ensures Valid() && fresh(Repr)
    {
      var rows := NewRows(6);
      len := rows;
      var s, m := new nat[18002], new nat[18002];
      var f := new int[MAX_ALPHA];
      selector, selectorMtf, mtfFreq := s, m, f;
      Repr := {s as object, m as object, f as object} + set t | 0 <= t < |rows| :: rows[t] as object;
    }
  }

  /** The block's bytes in sorted-rotation form and what marks the bytes in use. */
  ghost predicate Sorted(b: seq<byte>, p: seq<int>, inUse: seq<bool>) {
    && InRotationOrder(b, p) && b != [] && |inUse| == 256
    && forall x :: 0 <= x < |b| ==> inUse[b[x]]
  }

  lemma SortedFacts(b: seq<byte>, p: seq<int>, inUse: seq<bool>)
    requires Sorted(b, p, inUse)
    ensures |p| == |b| && |inUse| == 256 && (forall x :: 0 <= x < |b| ==> 0 <= p[x] < |b|)
    ensures forall x :: 0 <= x < |b| ==> inUse[b[x]]
    ensures 3 <= AlphaSize(inUse) <= 258
  {
    MtfEncoder.UsedMonotone(inUse, b[0], 256);
  }

  /** As many tables as the number of symbols asks for, each a cheapest code for how often each
      symbol occurs in the groups that its selectors give it. */
  ghost predicate TablesMade(c: Coded) {
    && |c.inUse| == 256 && |c.lens| == TableCount(|c.symbols|)
    && GROUP * (|c.selectors| - 1) < |c.symbols| <= GROUP * |c.selectors|
    && forall t :: 0 <= t < |c.lens| ==>
      MadeFor(c.lens[t], Uses(c.selectors, c.symbols, t, AlphaSize(c.inUse), |c.symbols|))
  }

  /** A coded block for these bytes. */
  ghost predicate CodedFrom(c: Coded, b: seq<byte>, p: seq<int>, inUse: seq<bool>, crc: nat, origPtr: nat)
    requires Sorted(b, p, inUse)
  {
    SortedFacts(b, p, inUse);
    && GoodBlock(c) && c.crc == crc && c.origPtr == origPtr && c.inUse == inUse
    && c.symbols == MtfEncoder.SymbolsOf(b, p, inUse) && TablesMade(c)
  }

  /** The symbols are few enough and all in the alphabet. */
  lemma SymbolsFit(b: seq<byte>, p: seq<int>, inUse: seq<bool>)
    requires Sorted(b, p, inUse)
    ensures |p| == |b| && |inUse| == 256 && (forall x :: 0 <= x < |b| ==> 0 <= p[x] < |b|)
    ensures forall x :: 0 <= x < |b| ==> inUse[b[x]]
    ensures var s := MtfEncoder.SymbolsOf(b, p, inUse);
      1 <= |s| <= |b| + 1 && Symbols(s, AlphaSize(inUse)) && BlockRoundTrip.EndsOnce(s, AlphaSize(inUse) - 1)
  {
    hide MoveToFront.Encode, MtfEncoder.UsedBelow;
    SortedFacts(b, p, inUse);
    var c := InverseBwt.LastColumn(b, p);
    forall x | 0 <= x < |c| ensures inUse[c[x]] {
    }
    var l, s := MtfEncoder.Identity(MtfEncoder.UsedBelow(inUse, 256)), MtfEncoder.Numbers(c, inUse);
    MtfEncoder.NumbersInList(c, inUse);
    MoveToFront.EncodeSymbols(l, 0, s, |l| + 1);
  }

  /** The arrays of the printing step are pairwise different. */
  ghost predicate Apart(w: Writer, ws: Workspace, arr1: array<int>, block: array<byte>, inUse: array<bool>) {
    && ws.Valid()
    && {w as object, w.zbits as object, arr1 as object, block as object, inUse as object} !! ws.Repr
    && arr1 as object !in {w as object, w.zbits as object, block as object, inUse as object}
    && w.zbits as object !in {w as object, block as object, inUse as object}
    && w as object !in {block as object, inUse as object}
  }

  lemma AlphaIs(inUse: seq<bool>)
    requires |inUse| == 256
    ensures AlphaSize(inUse) == MtfEncoder.UsedBelow(inUse, 256) + 2
  {
  }

  ghost function RowValues(len: seq<array<nat>>, alphaSize: nat): (lens: seq<seq<nat>>)
    requires Rows(len) && alphaSize <= MAX_ALPHA
    reads set t | 0 <= t < |len| :: len[t]
    ensures |lens| == |len| && forall t :: 0 <= t < |len| ==> lens[t] == len[t][..alphaSize]
  {
    seq(|len|, t requires 0 <= t < |len| reads set u | 0 <= u < |len| :: len[u] => len[t][..alphaSize])
  }

  lemma CodedIsGood(c: Coded, alphaSize: nat)
    requires c.crc < 0x1_0000_0000 && c.origPtr < 0x100_0000 && |c.inUse| == 256
    requires alphaSize == AlphaSize(c.inUse) && 3 <= alphaSize <= MAX_ALPHA
    requires 2 <= |c.lens| <= 6 && forall t :: 0 <= t < |c.lens| ==> |c.lens[t]| == alphaSize && Full(c.lens[t])
    requires 1 <= |c.symbols| <= GROUP * |c.selectors| && |c.selectors| <= 18002 && Symbols(c.symbols, alphaSize)
    requires forall i :: 0 <= i < |c.selectors| ==> c.selectors[i] < |c.lens|
    ensures GoodBlock(c)
  {
    hide PrefixCodes.Kraft, Full, GoodLengths;
    forall t | 0 <= t < |c.lens| ensures GoodLengths(c.lens[t], alphaSize) {
      FullIsGood(c.lens[t], alphaSize);
    }
  }

  lemma CodedNow(c: Coded, b: seq<byte>, p: seq<int>, inUse: seq<bool>, crc: nat, origPtr: nat)
    requires Sorted(b, p, inUse) && GoodBlock(c) && c.crc == crc && c.origPtr == origPtr && c.inUse == inUse
    requires |p| == |b| && |inUse| == 256 && (forall x :: 0 <= x < |b| ==> 0 <= p[x] < |b|)
    requires (forall x :: 0 <= x < |b| ==> inUse[b[x]]) && c.symbols == MtfEncoder.SymbolsOf(b, p, inUse)
    requires |c.lens| == TableCount(|c.symbols|)
    requires GROUP * (|c.selectors| - 1) < |c.symbols| <= GROUP * |c.selectors|
    requires forall t :: 0 <= t < |c.lens| ==>
      MadeFor(c.lens[t], Uses(c.selectors, c.symbols, t, AlphaSize(c.inUse), |c.symbols|))
    ensures CodedFrom(c, b, p, inUse, crc, origPtr)
  {
    hide Sorted, AlphaSize, MtfEncoder.SymbolsOf, GoodBlock, MadeFor, Uses;
  }

  /** Symbols, tables and selectors of the block, before anything of it is printed. */
  method PrepareBlock(ws: Workspace, arr1: array<int>, block: array<byte>, nblock: nat, inUse: array<bool>,
                      ghost crc: nat, ghost origPtr: nat)
    returns (alphaSize: nat, nMTF: nat, nSelectors: nat, ghost c: Coded)
    requires ws.Valid() && {arr1 as object, block as object, inUse as object} !! ws.Repr
    requires arr1 as object !in {block as object, inUse as object} && inUse.Length == 256
    requires 1 <= nblock <= 900000 && nblock <= arr1.Length && nblock <= block.Length
    requires Sorted(block[..nblock], arr1[..nblock], inUse[..])
    requires crc < 0x1_0000_0000 && origPtr < 0x100_0000
    modifies arr1, ws.Repr
    ensures CodedFrom(c, block[..nblock], old(arr1[..nblock]), inUse[..], crc, origPtr)
    ensures alphaSize == AlphaSize(inUse[..]) && nMTF <= nblock + 1 && nMTF <= 2 * arr1.Length
    ensures c.symbols == MtfEncoder.Halves(arr1[..], nMTF)
    ensures nSelectors <= 18002 && c.selectors == ws.selector[..nSelectors] && GROUP * (nSelectors - 1) < nMTF
    ensures Holds(ws.len[..TableCount(nMTF)], c.lens, alphaSize)
    ensures forall t :: 0 <= t < |c.lens| ==> Full(c.lens[t])
  {
    hide Sorted, AlphaSize, MtfEncoder.SymbolsOf, MtfEncoder.Halves, GoodBlock, BlockBits, Full, Symbols,
      TableChoice.Short, GoodLengths, MadeFor, Uses, TablesMade, CodedFrom;
    ghost var b, p, used := block[..nblock], arr1[..nblock], inUse[..];
    SymbolsFit(b, p, used);
    SortedFacts(b, p, used);
    assert forall x :: 0 <= x < nblock ==> block[x] == b[x] && arr1[x] == p[x];
    var nInUse;
    nInUse, nMTF := MtfEncoder.GenerateMtfValues(arr1, block, nblock, inUse, ws.mtfFreq);
    ghost var syms, a := MtfEncoder.Halves(arr1[..], nMTF), arr1[..];
    AlphaIs(used);
    alphaSize := nInUse + 2;
    var rows := ws.len[..TableCount(nMTF)];
    FirstGuess(rows, ws.mtfFreq, nMTF, alphaSize);
    assert arr1[..] == a;
    nSelectors := ChooseTables(arr1, nMTF, rows, ws.selector, alphaSize);
    assert arr1[..] == a;
    c := Coded(crc, origPtr, used, RowValues(rows, alphaSize), ws.selector[..nSelectors], syms);
    CodedIsGood(c, alphaSize);
    CodedNow(c, b, p, used, crc, origPtr);
  }

  /** Everything of BZ2_compressBlock that concerns the block itself, once it is sorted. */
  method WriteBlock(w: Writer, ws: Workspace, arr1: array<int>, block: array<byte>, nblock: nat, inUse: array<bool>,
                    crc: nat, origPtr: nat) returns (ghost c: Coded)
    requires Apart(w, ws, arr1, block, inUse) && inUse.Length == 256
    requires 1 <= nblock <= 900000 && nblock <= arr1.Length && nblock <= block.Length
    requires Sorted(block[..nblock], arr1[..nblock], inUse[..])
    requires crc < 0x1_0000_0000 && origPtr < 0x100_0000
    requires w.Valid() && BlockLimit(nblock + 1) <= w.Room()
    modifies w, w.zbits, arr1, ws.Repr
    ensures CodedFrom(c, block[..nblock], old(arr1[..nblock]), inUse[..], crc, origPtr)
    ensures w.Valid() && w.Written() == old(w.Written()) + BlockBits(c)
    ensures w.Room() >= old(w.Room()) - BlockLimit(nblock + 1)
  {
    hide *;
    ApartFacts(w, ws, arr1, block, inUse);
    LimitGrows(0, nblock + 1);
    ghost var s, b, p, used := w.Written(), block[..nblock], arr1[..nblock], inUse[..];
    SendHeader(w, crc, origPtr);
    ghost var s1 := w.Written();
    var alphaSize, nMTF, nSelectors;
    alphaSize, nMTF, nSelectors, c := PrepareBlock(ws, arr1, block, nblock, inUse, crc, origPtr);
    CodedFacts(c, b, p, used, crc, origPtr);
    BlockLength(c);
    BodyUnfold(c);
    HeaderLength(c);
    LimitGrows(|c.symbols|, nblock + 1);
    SendBody(w, inUse, arr1, nMTF, ws.selector, ws.selectorMtf, nSelectors, ws.len[..TableCount(nMTF)], alphaSize, c);
    assert w.Written() == s + BlockRoundTrip.HeaderBits(c) + BodyBits(c);
    Assoc(s, BlockRoundTrip.HeaderBits(c), BodyBits(c));
  }

  lemma CodedFacts(c: Coded, b: seq<byte>, p: seq<int>, inUse: seq<bool>, crc: nat, origPtr: nat)
    requires Sorted(b, p, inUse) && CodedFrom(c, b, p, inUse, crc, origPtr)
    ensures GoodBlock(c) && c.crc == crc && c.origPtr == origPtr && c.inUse == inUse
  {
  }

  lemma ApartFacts(w: Writer, ws: Workspace, arr1: array<int>, block: array<byte>, inUse: array<bool>)
    requires Apart(w, ws, arr1, block, inUse)
    ensures ws.Valid() && |ws.len| == 6 && ws.selector.Length == ws.selectorMtf.Length == 18002
    ensures {w as object, w.zbits as object, arr1 as object, block as object, inUse as object} !! ws.Repr
    ensures arr1 as object !in {w as object, w.zbits as object, block as object, inUse as object}
    ensures w.zbits as object !in {w as object, block as object, inUse as object}
    ensures w as object !in {block as object, inUse as object}
    ensures ws.selectorMtf in ws.Repr && ws.selector in ws.Repr
    ensures ws.selector != ws.selectorMtf
    ensures forall t :: 0 <= t < |ws.len| ==> ws.len[t] in ws.Repr && ws.len[t] != ws.selectorMtf
  {
  }

  lemma LimitGrows(m: nat, n: nat)
    requires m <= n
    ensures 105 <= BlockLimit(m) <= BlockLimit(n)
  {
  }

  lemma HeaderLength(c: Coded)
    ensures |BlockRoundTrip.HeaderBits(c)| == 105
    ensures BlockRoundTrip.HeaderBits(c) == Bytes(BLOCK_MAGIC) + Word(c.crc) + [false] + Bits(c.origPtr, 24)
  {
    BytesLength(BLOCK_MAGIC);
    WordLength(c.crc);
  }

  // ---------- What a printed block decodes to ----------

  /** The coded block is that of a sorting of b, and names the row of b itself. */
  ghost predicate Represents(c: Coded, b: seq<byte>) {
    exists p :: Sorting(c, b, p)
  }

  ghost predicate Sorting(c: Coded, b: seq<byte>, p: seq<int>) {
    && Sorted(b, p, c.inUse) && CodedFrom(c, b, p, c.inUse, c.crc, c.origPtr)
    && c.origPtr < |b| && |p| == |b| && p[c.origPtr] == 0
  }

  /** The symbols of a printed block decode, within the decoder's limit, to the last column. */
  lemma PrintedDecodes(c: Coded, b: seq<byte>, p: seq<int>, level: nat)
    requires Sorting(c, b, p) && |b| <= 100000 * level && level <= 9
    ensures (forall x :: 0 <= x < |b| ==> 0 <= p[x] < |b|) && |c.inUse| == 256
    ensures BlockRoundTrip.BlockStandsFor(c, level, MtfEncoder.Numbers(InverseBwt.LastColumn(b, p), c.inUse))
  {
    hide MoveToFront.Encode, MoveToFront.Run, MtfEncoder.UsedBelow, GoodBlock, Sorted;
    SortedFacts(b, p, c.inUse);
    SymbolsFit(b, p, c.inUse);
    var col := InverseBwt.LastColumn(b, p);
    forall x | 0 <= x < |col| ensures c.inUse[col[x]] {
    }
    var n := MtfEncoder.UsedBelow(c.inUse, 256);
    var l, L, s := MtfEncoder.Identity(n), MtfEncoder.Identity(256), MtfEncoder.Numbers(col, c.inUse);
    MtfEncoder.NumbersInList(col, c.inUse);
    assert l == L[..n];
    MoveToFront.RoundTrip(l, L, 0, s, [], n + 1, 100000 * level);
    assert [] + MoveToFront.Fill(l[0], 0) + s == s;
    assert c.symbols[0..] == c.symbols;
  }
}
