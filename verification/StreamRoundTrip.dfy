/** What a compressed stream stands for, and that what the compressor emits stands for its input
    (dep/bzip2/decompress.c:36-604, dep/bzip2/bzlib.c:770-820). */
module StreamRoundTrip {
  import opened Sequences
  import opened Rotations
  import opened BlockFormat
  import opened BlockParser
  import opened BlockRoundTrip
  import opened RunLength
  import opened Counting
  import opened InverseBwt
  import opened UsedBytes
  import opened BitWriter
  import BlockOutput
  import BlockCrc
  import BlockCompressor
  import StreamCompressor
  import CompressCalls
  import MtfEncoder

  // ---------- One block ----------

  lemma TInverseExists(c: seq<byte>)
    ensures exists t :: IsTInverse(c, t)
  {
    var t := seq(|c|, x requires 0 <= x < |c| => ItemAt(c, x));
    forall i | 0 <= i < |c| ensures t[Place(c, i)] == i {
      ItemAtPlace(c, i);
    }
    assert IsTInverse(c, t);
  }

  ghost function ItemAt(c: seq<byte>, x: int): (i: int)
    requires 0 <= x < |c|
    ensures 0 <= i < |c| && Place(c, i) == x
  {
    ItemExists(c, x);
    var i :| 0 <= i < |c| && Place(c, i) == x;
    i
  }

  lemma ItemExists(c: seq<byte>, x: int)
    requires 0 <= x < |c|
    ensures exists i :: 0 <= i < |c| && Place(c, i) == x
  {
    var i := PlaceOnto(c, x);
  }

  lemma ItemAtPlace(c: seq<byte>, i: nat)
    requires i < |c|
    ensures 0 <= Place(c, i) < |c| && ItemAt(c, Place(c, i)) == i
  {
    var j := ItemAt(c, Place(c, i));
    if j != i {
      PlaceInjective(c, j, i);
    }
  }

  /** The bytes of a parsed block: the inverse transform, then the runs. */
  ghost function BlockData(c: seq<byte>, orig: nat): (e: Expansion)
    requires orig < |c|
  {
    TInverseExists(c);
    var t :| IsTInverse(c, t);
    Coming(BlockOutput.StreamOf(c, t, orig), |c|, 1)
  }

  /** Whatever order the sort gave equal rotations, the decoder gets the block's bytes back. */
  lemma BlockComesBack(b: seq<byte>, p: seq<int>, orig: nat)
    requires InRotationOrder(b, p) && orig < |b| && |p| == |b| && p[orig] == 0 && !UnRle(b).corrupt
    requires forall x :: 0 <= x < |p| ==> 0 <= p[x] < |b|
    ensures BlockData(LastColumn(b, p), orig) == UnRle(b)
  {
    hide InRotationOrder, Fetched, UnRle, Coming;
    var c := LastColumn(b, p);
    TInverseExists(c);
    var t :| IsTInverse(c, t) && BlockData(c, orig) == Coming(BlockOutput.StreamOf(c, t, orig), |c|, 1);
    var d := BlockOutput.StreamOf(c, t, orig);
    forall k | 0 <= k < |b| ensures d[k] == b[k] {
      RoundTrip(b, p, t, orig, k);
      AdvSmall(|b|, 0, k);
    }
    assert d[0..|b|] == b;
    ComingIsUnRle(d, |b|, 1);
  }

  // ---------- The stream ----------

  datatype Ending = StreamEnd | DataError | MagicError | Randomised | Unspecified | MoreInput

  datatype Outcome = Outcome(bytes: seq<byte>, ending: Ending, combined: bv32)

  ghost predicate Sound(p: Parsed) {
    |p.c.inUse| == 256 && p.c.head.orig < |p.out|
  }

  /** The parsed blocks one after another, each checked against its checksum. */
  ghost function Blocks(ps: seq<Parsed>, combined: bv32): (o: Outcome)
    requires forall i :: 0 <= i < |ps| ==> Sound(ps[i])
    decreases |ps|
  {
    if ps == [] then Outcome([], MoreInput, combined)
    else
      assert Sound(ps[0]);
      var e := BlockData(Column(ps[0].c.inUse, ps[0].out), ps[0].c.head.orig);
      if ps[0].c.head.rand then Outcome([], Randomised, combined)
      else if e.corrupt || BlockCrc.OfBlock(e.bytes) as nat != ps[0].c.head.crc then Outcome(e.bytes, DataError, combined)
      else
        var o := Blocks(ps[1..], BlockCrc.Combine(combined, BlockCrc.OfBlock(e.bytes)));
        o.(bytes := e.bytes + o.bytes)
  }

  lemma {:induction false} SessionSound(p: Phase, bits: seq<bool>)
    requires Valid(p) && !p.Block?
    ensures forall i :: 0 <= i < |Session(p, bits).0| ==> Sound(Session(p, bits).0[i])
    decreases |bits|
  {
    hide Run, Resume, Need;
    var q := Run(p, bits);
    RunShrinks(p, bits);
    if q.0.Block? {
      SessionSound(BlockMagic(q.0.c.head.bs, 1), q.1);
    }
  }

  /** What a compressed bit string stands for. */
  ghost function Decompressed(bits: seq<bool>): (o: Outcome) {
    SessionSound(Magic(1), bits);
    var s := Session(Magic(1), bits);
    var o := Blocks(s.0, 0);
    if !o.ending.MoreInput? then o
    else
      match s.1
      case End(combined) => o.(ending := if o.combined as nat == combined then StreamEnd else DataError)
      case BadMagic => o.(ending := MagicError)
      case BadData => o.(ending := DataError)
      case Undefined => o.(ending := Unspecified)
      case _ => o
  }

  // ---------- The round trip ----------

  /** The order that the printed block came from. */
  ghost function OrderOf(level: nat, b: seq<byte>, c: Coded): (p: seq<int>)
    requires StreamCompressor.GoodPart(level, b, c)
    ensures BlockCompressor.Sorting(c, b, p)
  {
    var p :| BlockCompressor.Sorting(c, b, p);
    p
  }

  /** The sequence numbers of a printed block. */
  ghost function NumbersOf(level: nat, b: seq<byte>, c: Coded): (out: seq<int>)
    requires StreamCompressor.GoodPart(level, b, c)
  {
    var p := OrderOf(level, b, c);
    SortingFacts(level, b, c, p);
    MtfEncoder.Numbers(LastColumn(b, p), c.inUse)
  }

  lemma SortingFacts(level: nat, b: seq<byte>, c: Coded, p: seq<int>)
    requires StreamCompressor.GoodPart(level, b, c) && BlockCompressor.Sorting(c, b, p)
    ensures |p| == |b| && (forall x :: 0 <= x < |p| ==> 0 <= p[x] < |b|) && InRotationOrder(b, p)
    ensures |c.inUse| == 256 && (forall x :: 0 <= x < |b| ==> c.inUse[b[x]])
    ensures c.origPtr < |b| && p[c.origPtr] == 0 && !UnRle(b).corrupt
      && c.crc == BlockCrc.OfBlock(UnRle(b).bytes) as nat
  {
    hide InRotationOrder, UnRle, BlockCrc.OfBlock, BlockCompressor.CodedFrom;
    BlockCompressor.SortedFacts(b, p, c.inUse);
  }

  /** A printed block parses, and its bytes come back. */
  lemma PartComesBack(level: nat, b: seq<byte>, c: Coded)
    requires StreamCompressor.GoodPart(level, b, c) && level <= 9
    ensures BlockStandsFor(c, level, NumbersOf(level, b, c))
    ensures |c.inUse| == 256 && c.origPtr < |NumbersOf(level, b, c)|
    ensures BlockData(Column(c.inUse, NumbersOf(level, b, c)), c.origPtr) == UnRle(b)
  {
    hide InRotationOrder, UnRle, BlockCrc.OfBlock, StreamCompressor.GoodPart, BlockCompressor.Sorting,
      MtfEncoder.Numbers,
      BlockStandsFor, Column, BlockData, OrderOf;
    LevelFits(level, b, c);
    var p := OrderOf(level, b, c);
    SortingFacts(level, b, c, p);
    BlockCompressor.PrintedDecodes(c, b, p, level);
    var col := LastColumn(b, p);
    forall x | 0 <= x < |col| ensures c.inUse[col[x]] {
    }
    ColumnOfNumbers(col, c.inUse);
    BlockComesBack(b, p, c.origPtr);
  }

  lemma LevelFits(level: nat, b: seq<byte>, c: Coded)
    requires StreamCompressor.GoodPart(level, b, c)
    ensures |b| <= 100000 * level
  {
    hide UnRle, BlockCompressor.Sorting;
  }

  ghost function NumbersOfAll(level: nat, blocks: seq<seq<byte>>, coded: seq<Coded>): (outs: seq<seq<int>>)
    requires StreamCompressor.Emitted(level, blocks, coded)
    ensures |outs| == |coded|
  {
    seq(|coded|, i requires 0 <= i < |coded| => NumbersOf(level, blocks[i], coded[i]))
  }

  lemma BlocksNext(ps: seq<Parsed>, combined: bv32, e: Expansion)
    requires ps != [] && forall i :: 0 <= i < |ps| ==> Sound(ps[i])
    requires !ps[0].c.head.rand && !e.corrupt && BlockCrc.OfBlock(e.bytes) as nat == ps[0].c.head.crc
    requires |ps[0].c.inUse| == 256 && ps[0].c.head.orig < |ps[0].out|
    requires BlockData(Column(ps[0].c.inUse, ps[0].out), ps[0].c.head.orig) == e
    ensures var o := Blocks(ps[1..], BlockCrc.Combine(combined, BlockCrc.OfBlock(e.bytes)));
      Blocks(ps, combined) == o.(bytes := e.bytes + o.bytes)
  {
    hide BlockData, Column, BlockCrc.OfBlock, BlockCrc.Combine;
  }

  lemma {:induction false} BlocksComeBack(level: nat, blocks: seq<seq<byte>>, coded: seq<Coded>, n: nat, combined: bv32)
    requires StreamCompressor.Emitted(level, blocks, coded) && n <= |blocks| && level <= 9
    requires combined == BlockCrc.OfStream(StreamCompressor.Pieces(blocks[..n]))
    ensures var ps := ParsedOf(coded, level, NumbersOfAll(level, blocks, coded));
      && (forall i :: 0 <= i < |ps| ==> Sound(ps[i]))
      && var o := Blocks(ps[n..], combined);
         && o.ending == MoreInput && o.combined == BlockCrc.OfStream(StreamCompressor.Pieces(blocks))
         && StreamCompressor.Expand(blocks[..n]) + o.bytes == StreamCompressor.Expand(blocks)
    decreases |blocks| - n
  {
    hide StreamCompressor.GoodPart, NumbersOf, UnRle, BlockCrc.OfBlock, BlockCrc.Combine, Column, BlockData,
      BlockStandsFor,
      BlockCrc.OfStream, StreamCompressor.Pieces, StreamCompressor.Expand, CodingOf;
    var ps := ParsedOf(coded, level, NumbersOfAll(level, blocks, coded));
    forall i | 0 <= i < |ps| ensures Sound(ps[i]) {
      PartComesBack(level, blocks[i], coded[i]);
      CodingKept(coded[i], level);
    }
    if n == |blocks| {
      assert blocks[..n] == blocks && ps[n..] == [];
      assert StreamCompressor.Expand(blocks) + [] == StreamCompressor.Expand(blocks);
    } else {
      CodingKept(coded[n], level);
      PartComesBack(level, blocks[n], coded[n]);
      PartCrc(level, blocks[n], coded[n]);
      var e := UnRle(blocks[n]);
      StreamCompressor.PiecesAppend(blocks[..n], blocks[n]);
      assert blocks[..n + 1] == blocks[..n] + [blocks[n]];
      ExpandNext(blocks, n);
      assert ps[n..][1..] == ps[n + 1..] && ps[n..][0] == ps[n];
      BlocksNext(ps[n..], combined, e);
      BlocksComeBack(level, blocks, coded, n + 1, BlockCrc.Combine(combined, BlockCrc.OfBlock(e.bytes)));
      Assoc(StreamCompressor.Expand(blocks[..n]), e.bytes,
              Blocks(ps[n + 1..], BlockCrc.Combine(combined, BlockCrc.OfBlock(e.bytes))).bytes);
    }
  }

  lemma CodingKept(c: Coded, level: nat)
    ensures var k := CodingOf(c, level); k.inUse == c.inUse && k.head == Head(level, c.crc, false, c.origPtr)
  {
  }

  lemma PartCrc(level: nat, b: seq<byte>, c: Coded)
    requires StreamCompressor.GoodPart(level, b, c)
    ensures !UnRle(b).corrupt && c.crc == BlockCrc.OfBlock(UnRle(b).bytes) as nat
  {
    hide UnRle, BlockCrc.OfBlock;
  }

  lemma ExpandNext(blocks: seq<seq<byte>>, n: nat)
    requires n < |blocks|
    ensures StreamCompressor.Expand(blocks[..n + 1]) == StreamCompressor.Expand(blocks[..n]) + UnRle(blocks[n]).bytes
  {
    assert blocks[..n + 1][..n] == blocks[..n];
  }

  lemma StreamSession(level: nat, l: StreamCompressor.Ledger, combined: bv32, bits: seq<bool>) returns (pad: seq<bool>)
    requires 1 <= level <= 9 && StreamCompressor.Printed(level, l, combined, bits) && l.headed && l.ended
    ensures Session(Magic(1), bits)
         == (ParsedOf(l.coded, level, NumbersOfAll(level, l.blocks, l.coded)), End(combined as nat), pad)
    ensures combined == BlockCrc.OfStream(StreamCompressor.Pieces(l.blocks)) && |pad| < 8
  {
    hide Session, BlockStandsFor, NumbersOf, StreamCompressor.GoodPart, StreamBits, Padding, ParsedOf,
      BlockCrc.OfStream;
    var outs := NumbersOfAll(level, l.blocks, l.coded);
    forall i | 0 <= i < |l.coded| ensures BlockStandsFor(l.coded[i], level, outs[i]) {
      PartComesBack(level, l.blocks[i], l.coded[i]);
    }
    pad :| Padding(pad) && bits == StreamBits(level, l.coded, combined as nat) + pad;
    PaddingShort(pad);
    StreamParses(level, l.coded, outs, combined as nat, pad);
  }

  lemma PaddingShort(pad: seq<bool>)
    requires Padding(pad)
    ensures |pad| < 8
  {
  }

  lemma AllBlocks(level: nat, blocks: seq<seq<byte>>, coded: seq<Coded>)
    requires StreamCompressor.Emitted(level, blocks, coded) && level <= 9
    ensures var ps := ParsedOf(coded, level, NumbersOfAll(level, blocks, coded));
      && (forall i :: 0 <= i < |ps| ==> Sound(ps[i]))
      && Blocks(ps, 0) == Outcome(StreamCompressor.Expand(blocks), MoreInput, BlockCrc.OfStream(StreamCompressor.Pieces(blocks)))
  {
    hide NumbersOf, StreamCompressor.GoodPart, Blocks, Sound;
    var ps := ParsedOf(coded, level, NumbersOfAll(level, blocks, coded));
    assert blocks[..0] == [] && ps[0..] == ps;
    assert StreamCompressor.Pieces([]) == [];
    BlocksComeBack(level, blocks, coded, 0, 0);
    assert [] + Blocks(ps, 0).bytes == Blocks(ps, 0).bytes;
  }

  /** A finished stream stands for exactly the bytes that went in, both checksums agreeing. */
  lemma StreamComesBack(level: nat, l: StreamCompressor.Ledger, combined: bv32, bits: seq<bool>)
    requires 1 <= level <= 9 && StreamCompressor.Printed(level, l, combined, bits) && l.headed && l.ended
    ensures Decompressed(bits) == Outcome(StreamCompressor.Expand(l.blocks), StreamEnd, combined)
  {
    hide Session, NumbersOf, StreamCompressor.GoodPart, Blocks, ParsedOf, NumbersOfAll, Sound, BlockCrc.OfStream,
      StreamCompressor.Expand, StreamCompressor.Pieces, StreamCompressor.Printed;
    var pad := StreamSession(level, l, combined, bits);
    AllBlocks(level, l.blocks, l.coded) by { PrintedEmitted(level, l, combined, bits); }
    SessionSound(Magic(1), bits);
  }

  lemma PrintedEmitted(level: nat, l: StreamCompressor.Ledger, combined: bv32, bits: seq<bool>)
    requires StreamCompressor.Printed(level, l, combined, bits)
    ensures StreamCompressor.Emitted(level, l.blocks, l.coded)
  {
  }

  /** A compressor that has finished has sent a stream that decompresses to all of its input,
      whatever the calls and buffers were. */
  lemma CompressorRoundTrip(s: CompressCalls.EState)
    requires s.Valid() && s.Complete()
    ensures Decompressed(Bytes(s.sent)) == Outcome(s.consumed, StreamEnd, s.e.combinedCRC)
  {
    hide StreamCompressor.Printed, Decompressed, Bytes;
    CompleteHeaded(s);
    StreamComesBack(s.level, s.e.ledger, s.e.combinedCRC, Bytes(s.sent));
  }

  lemma CompleteHeaded(s: CompressCalls.EState)
    requires s.Valid() && s.Complete()
    ensures s.e.ledger.headed && s.e.ledger.ended && 1 <= s.level <= 9
    ensures StreamCompressor.Printed(s.level, s.e.ledger, s.e.combinedCRC, Bytes(s.sent))
    ensures s.consumed == StreamCompressor.Expand(s.e.ledger.blocks)
  {
    hide StreamCompressor.Printed, StreamCompressor.Expand;
  }
}
