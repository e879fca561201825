/** The compressor as a machine over modes and states (dep/bzip2/bzlib.c:82-441,
    dep/bzip2/compress.c:579-628). */
module StreamCompressor {
  import opened Sequences
  import opened Rotations
  import opened RunLength
  import opened BlockFormat
  import opened BitWriter
  import opened BlockWriter
  import opened BlockCompressor
  import BlockRoundTrip
  import opened RunEncoder
  import BlockCrc
  import BlockSort
  import opened MainCompare

  datatype Mode = Idle | Running | Flushing | Finishing
  datatype State = Input | Output

  // ---------- What has been emitted so far ----------

  /** The input bytes that a list of blocks stands for. */
  ghost function Expand(blocks: seq<seq<byte>>): (s: seq<byte>) {
    if blocks == [] then [] else Expand(blocks[..|blocks| - 1]) + UnRle(blocks[|blocks| - 1]).bytes
  }

  /** The input bytes of each block. */
  ghost function Pieces(blocks: seq<seq<byte>>): (s: seq<seq<byte>>)
    ensures |s| == |blocks| && forall i :: 0 <= i < |blocks| ==> s[i] == UnRle(blocks[i]).bytes
  {
    seq(|blocks|, i requires 0 <= i < |blocks| => UnRle(blocks[i]).bytes)
  }

  /** Block i is printed as coded[i], with its own checksum, and is sound. */
  ghost predicate Emitted(level: nat, blocks: seq<seq<byte>>, coded: seq<Coded>) {
    && |blocks| == |coded|
    && forall i :: 0 <= i < |blocks| ==> GoodPart(level, blocks[i], coded[i])
  }

  ghost predicate GoodPart(level: nat, b: seq<byte>, c: Coded) {
    && Represents(c, b) && 1 <= |b| <= 100000 * level - 10
    && !UnRle(b).corrupt && c.crc == BlockCrc.OfBlock(UnRle(b).bytes) as nat
    && |c.inUse| == 256 && forall v :: 0 <= v < 256 ==> (c.inUse[v] <==> v in b)
  }

  lemma RepresentsGood(level: nat, blocks: seq<seq<byte>>, coded: seq<Coded>)
    requires Emitted(level, blocks, coded)
    ensures forall i :: 0 <= i < |coded| ==> GoodBlock(coded[i])
  {
    forall i | 0 <= i < |coded| ensures GoodBlock(coded[i]) {
      assert GoodPart(level, blocks[i], coded[i]);
      var p :| Sorting(coded[i], blocks[i], p);
    }
  }

  /** The bits that stand for the blocks so far. */
  ghost function StreamPrefix(level: nat, coded: seq<Coded>): seq<bool>
    requires forall i :: 0 <= i < |coded| ==> GoodBlock(coded[i])
  {
    Bytes([0x42, 0x5a, 0x68, 0x30 + level]) + BlocksBits(coded)
  }

  lemma {:induction false} BlocksAppend(coded: seq<Coded>, c: Coded)
    requires GoodBlock(c) && forall i :: 0 <= i < |coded| ==> GoodBlock(coded[i])
    ensures forall i :: 0 <= i < |coded + [c]| ==> GoodBlock((coded + [c])[i])
    ensures BlocksBits(coded + [c]) == BlocksBits(coded) + BlockBits(c)
    decreases |coded|
  {
    hide BlockBits, GoodBlock;
    if coded == [] {
      assert BlocksBits([c]) == BlockBits(c) + BlocksBits([c][1..]);
      assert BlockBits(c) + [] == BlockBits(c) == [] + BlockBits(c);
    } else {
      BlocksAppend(coded[1..], c);
      assert (coded + [c])[1..] == coded[1..] + [c];
      Assoc(BlockBits(coded[0]), BlocksBits(coded[1..]), BlockBits(c));
    }
  }

  // ---------- Emitting blocks ----------

  /** The bytes of zbits that are free behind the largest block. */
  function Capacity(level: nat): int {
    4 * (100000 * level + 34) - (100000 * level - 10)
  }

  lemma CapacityRange(level: nat, n: nat)
    requires 1 <= level <= 9 && n <= 100000 * level - 10
    ensures 0 < Capacity(level) && 31 + 32 + BlockLimit(n + 1) + 80 <= 8 * Capacity(level)
  {
    FitsInArr2(level, 100000 * level - 10);
  }

  /** The non-empty blocks compressed so far and their coded form; whether the stream header and
      trailer have been written. */
  datatype Ledger = Ledger(blocks: seq<seq<byte>>, coded: seq<Coded>, headed: bool, ended: bool)

  /** All bits so far: nothing, a prefix of a stream, or a whole padded stream. */
  ghost predicate Printed(level: nat, l: Ledger, combined: bv32, bits: seq<bool>) {
    && Emitted(level, l.blocks, l.coded)
    && combined == BlockCrc.OfStream(Pieces(l.blocks))
    && (forall i :: 0 <= i < |l.coded| ==> GoodBlock(l.coded[i]))
    && if !l.headed then bits == [] && l.coded == [] && !l.ended
       else if !l.ended then bits == StreamPrefix(level, l.coded)
       else exists pad: seq<bool> :: Padding(pad) && bits == StreamBits(level, l.coded, combined as nat) + pad
  }

  lemma PrintedNothing(level: nat)
    ensures Printed(level, Ledger([], [], false, false), 0, [])
  {
    assert Pieces([]) == [];
  }

  lemma PrintedHeader(level: nat, l: Ledger, combined: bv32, bits: seq<bool>)
    requires Printed(level, l, combined, bits) && !l.headed
    ensures Printed(level, l.(headed := true), combined, bits + Bytes([0x42, 0x5a, 0x68, 0x30 + level]))
  {
    hide Bytes;
    var m := Bytes([0x42, 0x5a, 0x68, 0x30 + level]);
    assert [] + m == m == m + [];
  }

  lemma PrintedBlock(level: nat, l: Ledger, combined: bv32, bits: seq<bool>, b: seq<byte>, c: Coded)
    requires Printed(level, l, combined, bits) && l.headed && !l.ended && GoodPart(level, b, c)
    ensures GoodBlock(c)
    ensures Printed(level, l.(blocks := l.blocks + [b], coded := l.coded + [c]),
                    BlockCrc.Combine(combined, BlockCrc.OfBlock(UnRle(b).bytes)), bits + BlockBits(c))
  {
    hide GoodPart, UnRle, BlockCrc.OfBlock, BlockCrc.Combine, Represents, GoodBlock, BlockBits, Bytes, BlocksBits;
    var l' := l.(blocks := l.blocks + [b], coded := l.coded + [c]);
    forall i | 0 <= i < |l'.blocks| ensures GoodPart(level, l'.blocks[i], l'.coded[i]) {
    }
    assert Emitted(level, l'.blocks, l'.coded);
    RepresentsGood(level, l'.blocks, l'.coded);
    assert GoodBlock(l'.coded[|l.coded|]);
    BlocksAppend(l.coded, c);
    PiecesAppend(l.blocks, b);
    Assoc(Bytes([0x42, 0x5a, 0x68, 0x30 + level]), BlocksBits(l.coded), BlockBits(c));
  }

  lemma PiecesAppend(blocks: seq<seq<byte>>, b: seq<byte>)
    ensures BlockCrc.OfStream(Pieces(blocks + [b]))
         == BlockCrc.Combine(BlockCrc.OfStream(Pieces(blocks)), BlockCrc.OfBlock(UnRle(b).bytes))
  {
    hide UnRle, BlockCrc.OfBlock, BlockCrc.Combine;
    assert Pieces(blocks + [b])[..|blocks|] == Pieces(blocks);
  }

  lemma PrintedEnd(level: nat, l: Ledger, combined: bv32, bits: seq<bool>, pad: seq<bool>)
    requires Printed(level, l, combined, bits) && l.headed && !l.ended && Padding(pad)
    ensures Printed(level, l.(ended := true), combined, bits + Bytes(END_MAGIC) + Word(combined as nat) + pad)
  {
    hide Bytes, Word, BlocksBits, Padding, Emitted, GoodBlock;
    assert bits + Bytes(END_MAGIC) + Word(combined as nat) + pad == StreamBits(level, l.coded, combined as nat) + pad;
  }

  class Emitter {
    const level: nat
    const w: Writer
    const ws: Workspace
    const a: BlockSort.Arrays
    const workFactor: int
    var blockNo: nat
    var combinedCRC: bv32
    ghost var ledger: Ledger
    /** The bits of the bytes handed out before the current block. */
    ghost var past: seq<bool>

    /** Every array that compressing a block works on. */
    ghost const Scratch: set<object>

    ghost predicate Shaped() {
      && 1 <= level <= 9 && ws.Valid()
      && Scratch == {w as object, w.zbits as object} + a.Repr + ws.Repr && this !in Scratch
      && a.Valid(100000 * level) && a.Repr !! ws.Repr && {w as object, w.zbits as object} !! a.Repr + ws.Repr
      && w as object != w.zbits as object
      && w.zbits.Length == Capacity(level)
    }

    ghost predicate Valid()
      reads this, w, w.zbits
    {
      && Shaped() && w.numZ <= w.zbits.Length && w.AllBytes()
      && (!ledger.ended ==> w.Valid()) && (ledger.ended ==> w.pending == [])
      && Printed(level, ledger, combinedCRC, past + w.Written())
    }

    /** The builder's arrays are not among these. */
    ghost predicate Foreign(bb: BlockBuilder) {
      {bb as object, bb.block as object, bb.inUse as object} !! Scratch + {this as object}
    }

    /** As BZ2_bzCompressInit leaves it, the first block prepared. */
    constructor (level: nat, workFactor: int)
      requires 1 <= level <= 9
      ensures Valid() && this.level == level && this.workFactor == workFactor && fresh(Scratch) && this !in Scratch
      ensures {w as object, w.zbits as object} <= Scratch
      ensures ledger == Ledger([], [], false, false) && past == [] && w.numZ == 0 && blockNo == 1
    {
      hide Printed, Capacity, Bytes, Packed, BlockCrc.OfStream, BlockLimit, Workspace.Valid;
      this.level := level;
      var space := new Workspace();
      ws := space;
      CapacityRange(level, 0);
      var zbits := new nat[Capacity(level)];
      var writer := new Writer(zbits);
      w := writer;
      var arrays := new BlockSort.Arrays(100000 * level);
      a := arrays;
      this.workFactor := workFactor;
      Scratch := {writer as object, zbits as object} + arrays.Repr + space.Repr;
      blockNo, combinedCRC := 1, 0;
      ledger, past := Ledger([], [], false, false), [];
      new;
      PrintedNothing(level);
      assert past + w.Written() == [];
    }

    /** prepare_new_block on the output side: numZ = 0, once all of zbits has been handed out. */
    method Restart()
      requires Valid() && !ledger.ended
      modifies this`past, this`blockNo, w
      ensures blockNo == old(blockNo) + 1
      ensures Valid() && w.numZ == 0 && past == old(past) + Bytes(old(w.zbits[..w.numZ]))
    {
      hide Printed, Bytes, Packed, Shaped;
      Assoc(past, Bytes(w.zbits[..w.numZ]), w.pending);
      past := past + Bytes(w.zbits[..w.numZ]);
      w.Restart();
      blockNo := blockNo + 1;
    }

    /** The stream header goes before the first block. */
    method Header()
      requires Valid() && !ledger.ended && (ledger.headed <==> blockNo > 1) && blockNo >= 1 && 32 <= w.Room()
      modifies this`ledger, w, w.zbits
      ensures Valid() && ledger == old(ledger).(headed := true) && w.Room() >= old(w.Room()) - 32
    {
      hide Printed, Bytes, Packed, w.Room, w.Written;
      if blockNo == 1 {
        PrintedHeader(level, ledger, combinedCRC, past + w.Written());
        Assoc(past, w.Written(), Bytes([0x42, 0x5a, 0x68, 0x30 + level]));
        PutBytes(w, [0x42, 0x5a, 0x68, 0x30 + level]);
        ledger := ledger.(headed := true);
      } else {
        assert ledger == ledger.(headed := true);
      }
    }

    /** The trailer, and the last bits. */
    method Trailer()
      requires Valid() && !ledger.ended && ledger.headed && 80 <= w.Room()
      modifies this`ledger, w, w.zbits
      ensures Valid() && ledger == old(ledger).(ended := true) && w.numZ > 0
    {
      hide Printed, Bytes, Word, Padding, w.Room;
      ghost var s, magic, crc := w.Written(), Bytes(END_MAGIC), Word(combinedCRC as nat);
      PutBytes(w, END_MAGIC);
      PutWord(w, combinedCRC as nat);
      w.FinishWrite();
      ghost var pad :| Padding(pad) && Bytes(w.zbits[..w.numZ]) == s + magic + crc + pad;
      PrintedEnd(level, ledger, combinedCRC, past + s, pad);
      AssocFive(past, s, magic, crc, pad);
      ledger := ledger.(ended := true);
      assert past + w.Written() == past + (s + magic + crc + pad);
      BytesLength(w.zbits[..w.numZ]);
      BytesLength(END_MAGIC);
    }

    /** The sorted, coded and printed block joins the stream. */
    method AddBlock(bb: BlockBuilder)
      requires Valid() && !ledger.ended && ledger.headed && bb.Valid() && Foreign(bb) && 0 < bb.nblock
      requires bb.nblockMAX == 100000 * level - 19 && BlockLimit(bb.nblock + 1) <= w.Room()
      requires bb.block.Length == 100000 * level + OVERSHOOT
      modifies this`combinedCRC, this`ledger, Scratch, bb.block
      ensures Valid() && bb.block[..bb.nblock] == old(bb.block[..bb.nblock])
        && w.Room() >= old(w.Room()) - BlockLimit(bb.nblock + 1) && w.numZ > 0
      ensures ledger.blocks == old(ledger).blocks + [bb.block[..bb.nblock]] && ledger.headed && !ledger.ended
    {
      hide *;
      AddBlockFacts(bb);
      ghost var b, s := bb.block[..bb.nblock], w.Written();
      var blockCRC := !bb.blockCRC;
      ghost var combined := combinedCRC;
      combinedCRC := BlockCrc.Combine(combinedCRC, blockCRC);
      var origPtr := BlockSort.Sort(a, bb.block, bb.nblock, workFactor, 100000 * level);
      ghost var p, used := a.arr1[..bb.nblock], bb.inUse[..];
      SortedNow(b, p, used, bb.blockCRC);
      ghost var c := WriteBlock(w, ws, a.arr1, bb.block, bb.nblock, bb.inUse, blockCRC as nat, origPtr);
      FinalCrc(b, used, bb.blockCRC);
      BlockIsGood(level, b, c, p, used, bb.blockCRC, blockCRC, origPtr);
      PrintedBlock(level, ledger, combined, past + s, b, c);
      Assoc(past, s, BlockBits(c));
      ledger := ledger.(blocks := ledger.blocks + [b], coded := ledger.coded + [c]);
      BlockBitsLong(c);
      SomeByte(w);
      ValidIf();
    }

    /** BZ2_compressBlock. */
    method CompressBlock(bb: BlockBuilder, isLast: bool)
      requires Valid() && !ledger.ended && bb.Valid() && Foreign(bb) && bb.nblockMAX == 100000 * level - 19
      requires w.numZ == 0 && blockNo >= 1 && (ledger.headed <==> blockNo > 1)
      requires bb.block.Length == 100000 * level + OVERSHOOT
      modifies this`combinedCRC, this`ledger, Scratch, bb.block
      ensures Valid() && bb.Valid() && bb.block[..bb.nblock] == old(bb.block[..bb.nblock])
      ensures ledger.headed && ledger.ended == isLast
      ensures isLast || bb.nblock > 0 ==> w.numZ > 0
      ensures ledger.blocks == old(ledger).blocks + if bb.nblock > 0 then [bb.block[..bb.nblock]] else []
    {
      hide Printed, BlockLimit, Capacity, Bytes, Packed, ws.Valid, PairsOf, BytesOf, Alternating, BlockCrc.Over;
      CapacityRange(level, bb.nblock);
      Header();
      assert bb.Valid();
      if bb.nblock > 0 {
        AddBlock(bb);
      }
      if isLast {
        Trailer();
      }
    }

    lemma AddBlockFacts(bb: BlockBuilder)
      requires Valid() && !ledger.ended && bb.Valid() && Foreign(bb)
      requires bb.nblockMAX == 100000 * level - 19 && bb.block.Length == 100000 * level + OVERSHOOT
      ensures Shaped() && w.Valid() && Printed(level, ledger, combinedCRC, past + w.Written())
      ensures a.Valid(100000 * level) && bb.block !in a.Repr && Apart(w, ws, a.arr1, bb.block, bb.inUse)
      ensures bb.nblock <= 100000 * level - 10 && bb.nblock <= 900000 && bb.nblock + 34 <= bb.block.Length
        && OVERSHOOT == 34
      ensures bb.inUse.Length == 256 && a.arr1 in a.Repr && a.arr1.Length == 100000 * level
      ensures {w as object, w.zbits as object, bb.inUse as object, bb as object, this} !! a.Repr + {bb.block as object}
      ensures bb.inUse as object !in Scratch && bb as object !in Scratch && this !in Scratch
        && bb.block as object !in Scratch
      ensures {w as object, w.zbits as object} + a.Repr + ws.Repr == Scratch
      ensures bb as object !in {w as object, w.zbits as object, bb.block as object}
        && bb.block as object != bb.inUse as object
      ensures BuiltBlock(bb.block[..bb.nblock], bb.inUse[..], bb.blockCRC)
    {
      hide Printed, BlockCrc.Over, PairsOf, BytesOf, Packed, Bytes, UnRle;
      bb.Decodes();
    }

    lemma BlockBitsLong(c: Coded)
      requires GoodBlock(c)
      ensures |BlockBits(c)| > 31
    {
      hide GoodBlock, BlockBits, BodyBits, BlockRoundTrip.HeaderBits;
      BodyUnfold(c);
      HeaderLength(c);
    }

    lemma ValidIf()
      requires Shaped() && !ledger.ended && w.Valid() && Printed(level, ledger, combinedCRC, past + w.Written())
      ensures Valid()
    {
      hide Printed, Packed;
    }

    /** The bytes to hand out are bytes. */
    lemma BytesOnly()
      requires Valid()
      ensures forall k :: 0 <= k < w.numZ && k < w.zbits.Length ==> w.zbits[k] < 256
    {
      hide Printed, Packed;
    }
  }

  /** What the front end guarantees of a finished block. */
  ghost predicate BuiltBlock(b: seq<byte>, inUse: seq<bool>, crc: bv32) {
    && |inUse| == 256 && (forall v :: 0 <= v < 256 ==> (inUse[v] <==> v in b))
    && !UnRle(b).corrupt && crc == BlockCrc.Over(BlockCrc.INITIAL, UnRle(b).bytes)
  }

  lemma SortedNow(b: seq<byte>, p: seq<int>, inUse: seq<bool>, crc: bv32)
    requires BuiltBlock(b, inUse, crc) && InRotationOrder(b, p) && b != []
    ensures Sorted(b, p, inUse)
  {
    hide InRotationOrder, UnRle, BlockCrc.Over;
    forall x | 0 <= x < |b| ensures inUse[b[x]] {
      assert b[x] in b;
    }
  }

  lemma BlockIsGood(level: nat, b: seq<byte>, c: Coded, p: seq<int>, inUse: seq<bool>, crc: bv32, final: bv32,
                    origPtr: nat)
    requires BuiltBlock(b, inUse, crc) && Sorted(b, p, inUse) && final == BlockCrc.OfBlock(UnRle(b).bytes)
    requires CodedFrom(c, b, p, inUse, final as nat, origPtr) && origPtr < |b| <= 100000 * level - 10
    requires |p| == |b| && p[origPtr] == 0
    ensures GoodPart(level, b, c)
  {
    hide Sorted, UnRle, BlockCrc.Over, GoodBlock, CodedFrom, Represents, BlockCrc.OfBlock;
    CodedFacts(c, b, p, inUse, final as nat, origPtr);
    RepresentsIf(c, b, p);
  }

  lemma FinalCrc(b: seq<byte>, inUse: seq<bool>, crc: bv32)
    requires BuiltBlock(b, inUse, crc)
    ensures !crc == BlockCrc.OfBlock(UnRle(b).bytes)
  {
    hide UnRle, BlockCrc.Over;
  }

  lemma RepresentsIf(c: Coded, b: seq<byte>, p: seq<int>)
    requires Sorted(b, p, c.inUse) && CodedFrom(c, b, p, c.inUse, c.crc, c.origPtr)
    requires c.origPtr < |b| && |p| == |b| && p[c.origPtr] == 0
    ensures Represents(c, b)
  {
    hide Sorted, CodedFrom;
    assert Sorting(c, b, p);
  }
}
