/** The compressor's run-length front end: how input bytes become block bytes
    (dep/bzip2/bzlib.c:82-118, 206-277). */
module RunEncoder {
  import opened Sequences
  import opened Rotations
  import opened RunLength
  import BlockCrc

  // ---------- Blocks as lists of runs ----------

  datatype Run = Run(ch: byte, len: nat)

  /** Runs of 1..255, as long as they can be: one below 255 is followed by a different byte. */
  ghost predicate Alternating(runs: seq<Run>) {
    && (forall k :: 0 <= k < |runs| ==> 1 <= runs[k].len <= 255)
    && (forall k :: 1 <= k < |runs| ==> Parted(runs[k - 1], runs[k].ch))
  }

  ghost predicate Parted(r: Run, ch: int) {
    r.len < 255 ==> r.ch != ch
  }

  /** The bytes the runs stand for. */
  ghost function BytesOf(runs: seq<Run>): (s: seq<byte>) {
    if runs == [] then [] else BytesOf(runs[..|runs| - 1]) + Repeat(runs[|runs| - 1].ch, runs[|runs| - 1].len)
  }

  /** The bytes they put into the block. */
  ghost function PairsOf(runs: seq<Run>): (s: seq<byte>)
    requires Alternating(runs)
  {
    if runs == [] then []
    else PairsOf(runs[..|runs| - 1]) + Pair(runs[|runs| - 1].ch, runs[|runs| - 1].len)
  }

  /** What follows the runs in a block is decoded on its own. */
  lemma {:induction false} PairsDecode(runs: seq<Run>, rest: seq<byte>)
    requires Alternating(runs)
    requires runs != [] && rest != [] ==> Parted(runs[|runs| - 1], rest[0])
    ensures UnRle(PairsOf(runs) + rest) == Expansion(BytesOf(runs) + UnRle(rest).bytes, UnRle(rest).corrupt)
    decreases |runs|
  {
    hide UnRle, Pair, Repeat;
    if runs == [] {
      assert [] + rest == rest;
    } else {
      var n := |runs| - 1;
      var r := runs[n];
      var rest' := Pair(r.ch, r.len) + rest;
      PairStart(r.ch, r.len);
      PairsDecode(runs[..n], rest');
      PairDecodes(r.ch, r.len, rest);
      Assoc(PairsOf(runs[..n]), Pair(r.ch, r.len), rest);
      Assoc(BytesOf(runs[..n]), Repeat(r.ch, r.len), UnRle(rest).bytes);
    }
  }

  lemma PairStart(ch: byte, len: nat)
    requires 1 <= len <= 255
    ensures 1 <= |Pair(ch, len)| <= 5 && Pair(ch, len)[0] == ch
  {
  }

  /** A whole block decodes to the bytes of its runs, and is never corrupt. */
  lemma BlockDecodes(runs: seq<Run>)
    requires Alternating(runs)
    ensures UnRle(PairsOf(runs)) == Expansion(BytesOf(runs), false)
  {
    PairsDecode(runs, []);
    assert PairsOf(runs) + [] == PairsOf(runs);
  }

  lemma RunsAppend(runs: seq<Run>, r: Run)
    requires Alternating(runs) && 1 <= r.len <= 255
    requires runs != [] ==> Parted(runs[|runs| - 1], r.ch)
    ensures Alternating(runs + [r])
    ensures PairsOf(runs + [r]) == PairsOf(runs) + Pair(r.ch, r.len)
    ensures BytesOf(runs + [r]) == BytesOf(runs) + Repeat(r.ch, r.len)
  {
    hide Pair, Repeat;
    assert (runs + [r])[..|runs|] == runs;
    AlternatingAppend(runs, r);
  }

  lemma AlternatingAppend(runs: seq<Run>, r: Run)
    requires Alternating(runs) && 1 <= r.len <= 255
    requires runs != [] ==> Parted(runs[|runs| - 1], r.ch)
    ensures Alternating(runs + [r])
  {
  }

  // ---------- The block being filled ----------

  /** No byte is pending. */
  const NONE := 256

  class BlockBuilder {
    const block: array<byte>
    const inUse: array<bool>
    const nblockMAX: nat
    var nblock: nat
    var stateInCh: int
    var stateInLen: int
    var blockCRC: bv32
    /** The runs in the block. */
    ghost var runs: seq<Run>

    ghost predicate Valid()
      reads this, block, inUse
    {
      && nblock <= nblockMAX + 9 && nblockMAX + 9 < block.Length && inUse.Length == 256
      && block as object != inUse as object
      && Alternating(runs) && PairsOf(runs) == block[..nblock]
      && (forall v :: 0 <= v < 256 ==> (inUse[v] <==> v in block[..nblock]))
      && blockCRC == BlockCrc.Over(BlockCrc.INITIAL, BytesOf(runs))
      && PendingOk()
    }

    /** The pending run continues the block, and still fits. */
    ghost predicate PendingOk()
      reads this
    {
      if stateInCh == NONE then stateInLen == 0
      else
        && 0 <= stateInCh < 256 && 1 <= stateInLen <= 255 && nblock <= nblockMAX + 4
        && (runs != [] ==> Parted(runs[|runs| - 1], stateInCh))
    }

    /** isempty_RL. */
    predicate EmptyRl()
      reads this
    {
      !(stateInCh < 256 && stateInLen > 0)
    }

    ghost function Pending(): (s: seq<byte>)
      reads this
      requires PendingOk()
    {
      if stateInCh == NONE then [] else Repeat(stateInCh, stateInLen)
    }

    /** The input bytes that the block and the pending run stand for. */
    ghost function Content(): (s: seq<byte>)
      reads this, block, inUse
      requires Valid()
    {
      BytesOf(runs) + Pending()
    }

    /** The block part decodes to what has left the pending run. */
    lemma Decodes()
      requires Valid()
      ensures UnRle(block[..nblock]) == Expansion(BytesOf(runs), false)
      ensures Content() == UnRle(block[..nblock]).bytes + Pending()
    {
      BlockDecodes(runs);
    }

    constructor (block: array<byte>, inUse: array<bool>, nblockMAX: nat)
      requires nblockMAX + 9 < block.Length && inUse.Length == 256 && block as object != inUse as object
      modifies inUse
      ensures Valid() && this.block == block && this.inUse == inUse && this.nblockMAX == nblockMAX
      ensures nblock == 0 && runs == [] && stateInCh == NONE
    {
      this.block, this.inUse, this.nblockMAX := block, inUse, nblockMAX;
      nblock, stateInCh, stateInLen, blockCRC, runs := 0, NONE, 0, BlockCrc.INITIAL, [];
      new;
      ClearUse(inUse);
    }

    static method ClearUse(inUse: array<bool>)
      requires inUse.Length == 256
      modifies inUse
      ensures forall v :: 0 <= v < 256 ==> !inUse[v]
    {
      var i := 0;
      while i < 256
        invariant i <= 256
        invariant forall v :: 0 <= v < i ==> !inUse[v]
      {
        inUse[i] := false;
        i := i + 1;
      }
    }

    /** prepare_new_block, as far as the block's contents go. */
    method NewBlock()
      requires Valid()
      modifies this, inUse
      ensures Valid() && nblock == 0 && runs == []
      ensures stateInCh == old(stateInCh) && stateInLen == old(stateInLen)
    {
      nblock, blockCRC, runs := 0, BlockCrc.INITIAL, [];
      ClearUse(inUse);
    }

    /** One byte into the block. */
    method PutByte(ch: byte)
      requires nblock < block.Length && inUse.Length == 256 && block as object != inUse as object
      modifies this`nblock, block
      ensures nblock == old(nblock) + 1 && block[..nblock] == old(block[..nblock]) + [ch]
    {
      block[nblock] := ch;
      nblock := nblock + 1;
    }

    /** BZ_UPDATE_CRC, once for each byte of the run. */
    method UpdateCrc(ch: byte, len: nat)
      modifies this`blockCRC
      ensures blockCRC == BlockCrc.Over(old(blockCRC), Repeat(ch, len))
    {
      hide BlockCrc.Update;
      var i := 0;
      while i < len
        invariant i <= len && blockCRC == BlockCrc.Over(old(blockCRC), Repeat(ch, i))
      {
        assert Repeat(ch, i + 1)[..i] == Repeat(ch, i);
        blockCRC := BlockCrc.Update(blockCRC, ch);
        i := i + 1;
      }
    }

    /** The pending run has gone into the block; a new one may be pending. */
    ghost predicate Moved(runs0: seq<Run>, block0: seq<byte>, ch: byte, len: nat)
      reads this, block, inUse
    {
      && 1 <= len <= 255 && nblock <= block.Length && inUse.Length == 256
      && runs == runs0 && Alternating(runs0) && (runs0 != [] ==> Parted(runs0[|runs0| - 1], ch))
      && block[..nblock] == block0 + Pair(ch, len) && PairsOf(runs0) == block0
      && blockCRC == BlockCrc.Over(BlockCrc.Over(BlockCrc.INITIAL, BytesOf(runs0)), Repeat(ch, len))
      && forall v :: 0 <= v < 256 ==> (inUse[v] <==> v in block0 || v == ch || (len >= 4 && v == len - 4))
    }

    /** Recording the run keeps the description of the block. */
    lemma MovedIn(runs0: seq<Run>, block0: seq<byte>, ch: byte, len: nat)
      requires Moved(runs0, block0, ch, len)
      ensures Alternating(runs0 + [Run(ch, len)]) && PairsOf(runs0 + [Run(ch, len)]) == block[..nblock]
      ensures BytesOf(runs0 + [Run(ch, len)]) == BytesOf(runs0) + Repeat(ch, len)
      ensures forall v :: 0 <= v < 256 ==> (inUse[v] <==> v in block[..nblock])
      ensures blockCRC == BlockCrc.Over(BlockCrc.INITIAL, BytesOf(runs0 + [Run(ch, len)]))
    {
      hide BlockCrc.Over;
      RunsAppend(runs0, Run(ch, len));
      BlockCrc.OverConcat(BlockCrc.INITIAL, BytesOf(runs0), Repeat(ch, len));
      PairElements(ch, len);
    }

    /** The one to five bytes of a run. */
    method PutPair(ch: byte, len: nat)
      requires 1 <= len <= 255 && nblock + 5 <= block.Length && inUse.Length == 256
        && block as object != inUse as object
      modifies this`nblock, block
      ensures nblock == old(nblock) + |Pair(ch, len)| && block[..nblock] == old(block[..nblock]) + Pair(ch, len)
    {
      ghost var b := block[..nblock];
      PairShape(ch, len);
      PutByte(ch);
      if len == 1 {
        return;
      }
      PutByte(ch);
      if len == 2 {
        assert b + [ch] + [ch] == b + Pair(ch, len);
        return;
      }
      PutByte(ch);
      if len == 3 {
        assert b + [ch] + [ch] + [ch] == b + Pair(ch, len);
        return;
      }
      PutByte(ch);
      PutByte(len - 4);
      assert b + [ch] + [ch] + [ch] + [ch] + [len - 4] == b + Pair(ch, len);
    }

    /** add_pair_to_block. */
    method AddPairToBlock()
      requires Valid() && stateInCh != NONE
      modifies this`nblock, this`blockCRC, this`runs, block, inUse
      ensures old(nblock) < nblock <= old(nblock) + 5
      ensures runs == old(runs) + [Run(old(stateInCh), old(stateInLen))]
      ensures BytesOf(runs) == old(Content())
      ensures Alternating(runs) && PairsOf(runs) == block[..nblock]
      ensures forall v :: 0 <= v < 256 ==> (inUse[v] <==> v in block[..nblock])
      ensures blockCRC == BlockCrc.Over(BlockCrc.INITIAL, BytesOf(runs))
    {
      hide BlockCrc.Over, Alternating, PairsOf, BytesOf, Pair;
      var ch: byte, len: nat := stateInCh, stateInLen;
      ghost var runs0, block0 := runs, block[..nblock];
      UpdateCrc(ch, len);
      inUse[ch] := true;
      if len >= 4 {
        inUse[len - 4] := true;
      }
      PutPair(ch, len);
      PairStart(ch, len);
      MovedIn(runs0, block0, ch, len);
      runs := runs0 + [Run(ch, len)];
    }

    /** flush_RL. */
    method FlushRl()
      requires Valid()
      modifies this, block, inUse
      ensures Valid() && EmptyRl() && stateInCh == NONE && Content() == old(Content()) == BytesOf(runs)
      ensures old(stateInCh) != NONE ==> nblock > 0
      ensures nblock >= old(nblock)
    {
      hide BlockCrc.Over, PairsOf, BytesOf;
      if stateInCh < 256 {
        AddPairToBlock();
        NonEmptyBlock(runs);
      }
      stateInCh, stateInLen := NONE, 0;
      assert BytesOf(runs) + [] == BytesOf(runs);
    }

    /** ADD_CHAR_TO_BLOCK. */
    method AddChar(zchh: byte)
      requires Valid() && nblock < nblockMAX && (stateInCh == NONE ==> runs == [])
      modifies this, block, inUse
      ensures Valid() && Content() == old(Content()) + [zchh] && !EmptyRl()
      ensures nblock >= old(nblock)
    {
      hide BlockCrc.Over, BlockCrc.Update, PairsOf, BytesOf, Alternating;
      if zchh != stateInCh && stateInLen == 1 {
        AddSingle();
        stateInCh := zchh;
        assert Repeat(zchh, 1) == [zchh];
      } else if zchh != stateInCh || stateInLen == 255 {
        if stateInCh < 256 {
          AddPairToBlock();
        }
        stateInCh, stateInLen := zchh, 1;
        assert Repeat(zchh, 1) == [zchh];
      } else {
        stateInLen := stateInLen + 1;
        RepeatSplit(zchh, stateInLen - 1, 1);
        assert Repeat(zchh, 1) == [zchh];
        assert BytesOf(runs) + (Repeat(zchh, stateInLen - 1) + [zchh]) == old(Content()) + [zchh];
      }
    }

    /** The common case of a run of one. */
    method AddSingle()
      requires Valid() && stateInCh != NONE && stateInLen == 1
      modifies this`nblock, this`blockCRC, this`runs, block, inUse
      ensures nblock == old(nblock) + 1
      ensures runs == old(runs) + [Run(old(stateInCh), 1)]
      ensures BytesOf(runs) == old(Content())
      ensures Alternating(runs) && PairsOf(runs) == block[..nblock]
      ensures forall v :: 0 <= v < 256 ==> (inUse[v] <==> v in block[..nblock])
      ensures blockCRC == BlockCrc.Over(BlockCrc.INITIAL, BytesOf(runs))
    {
      hide BlockCrc.Over, BlockCrc.Update, Alternating, PairsOf, BytesOf;
      var ch: byte := stateInCh;
      ghost var runs0, block0, crc0 := runs, block[..nblock], blockCRC;
      blockCRC := BlockCrc.Update(blockCRC, ch);
      OverOne(crc0, ch);
      inUse[ch] := true;
      PutByte(ch);
      PairShape(ch, 1);
      MovedIn(runs0, block0, ch, 1);
      runs := runs0 + [Run(ch, 1)];
    }
  }

  lemma OverOne(crc: bv32, ch: byte)
    ensures BlockCrc.Over(crc, Repeat(ch, 1)) == BlockCrc.Update(crc, ch)
  {
    assert Repeat(ch, 1)[..0] == [];
  }

  lemma NonEmptyBlock(runs: seq<Run>)
    requires Alternating(runs) && runs != []
    ensures |PairsOf(runs)| > 0
  {
    PairStart(runs[|runs| - 1].ch, runs[|runs| - 1].len);
  }

  lemma PairShape(ch: byte, len: nat)
    requires 1 <= len <= 255
    ensures len == 1 ==> Pair(ch, len) == [ch]
    ensures len == 2 ==> Pair(ch, len) == [ch, ch]
    ensures len == 3 ==> Pair(ch, len) == [ch, ch, ch]
    ensures len >= 4 ==> Pair(ch, len) == [ch, ch, ch, ch, len - 4]
  {
  }

  lemma PairElements(ch: byte, len: nat)
    requires 1 <= len <= 255
    ensures forall v :: v in Pair(ch, len) <==> v == ch || (len >= 4 && v == len - 4)
  {
    PairShape(ch, len);
  }
}
