/** BZ2_bzDecompress: decoding with any sizes of input and output buffers
    (dep/bzip2/bzlib.c:770-820). */
module DecompressCalls {
  import opened Sequences
  import opened Rotations
  import opened Counting
  import opened BlockParser
  import opened BlockRoundTrip
  import opened RunLength
  import opened InverseBwt
  import opened UsedBytes
  import opened BitReader
  import opened StreamRoundTrip
  import opened Decompressor
  import opened Sessions
  import BlockCrc
  import BlockOutput
  import DecodeVectors

  datatype Code = BzOk | BzStreamEnd | BzDataError | BzMagicError | BzSequenceError
                | BzRandomised  // a block of the old randomised kind, which this model does not decode
                | BzUndefined   // the source has left a 32-bit range or an array

  /** What a return code says of the input as a whole. */
  ghost function EndingOf(code: Code): Ending {
    match code
    case BzStreamEnd => Ending.StreamEnd
    case BzDataError => Ending.DataError
    case BzMagicError => Ending.MagicError
    case BzRandomised => Ending.Randomised
    case BzUndefined => Ending.Unspecified
    case _ => Ending.MoreInput
  }

  datatype Round = Again | Return(code: Code)

  class BzStream {
    const s: DState
    /** The scalars of the output phase, for one of the two output routines. */
    var fast: BlockOutput.FastOutput?
    var slow: BlockOutput.SmallOutput?
    var availOut: nat
    var combinedCRC: bv32
    /** All input bytes taken, the bits of them that have been used, the blocks finished, all
        output, and that of the current block. */
    ghost var consumed: seq<byte>
    ghost var taken: seq<bool>
    ghost var done: seq<Parsed>
    ghost var given: seq<byte>
    ghost var handed: seq<byte>
    ghost const Frame: set<object>
    ghost var OutRepr: set<object>

    ghost predicate Shaped() {
      && s.Shaped() && this !in Frame
      && Frame == {s as object, s.r as object, s.mtf.mtfa as object, s.mtf.mtfbase as object} + s.TableRepr + s.st.Repr
    }

    ghost predicate SlowIs(e: Expansion, crc: bv32)
      requires Shaped()
      reads this`slow, this`OutRepr, slow, s.st.ll16, s.st.ll4, s.st.cftab
    {
      && slow != null && slow in OutRepr
      && slow.ll16 == s.st.ll16 && slow.ll4 == s.st.ll4 && slow.cftab == s.st.cftab
      && slow.Valid() && slow.ToCome() == e && slow.crc == crc
    }

    ghost predicate FastIs(e: Expansion, crc: bv32)
      requires Shaped()
      reads this`fast, this`OutRepr, fast, s.st.tt
    {
      && fast != null && fast in OutRepr && fast.tt == s.st.tt
      && fast.Valid() && fast.ToCome() == e && fast.crc == crc
    }

    /** The current output routine has e still to hand out and crc as its register. */
    ghost predicate OutIs(e: Expansion, crc: bv32)
      requires Shaped()
      reads this`fast, this`slow, this`OutRepr, fast, slow, s.st.tt, s.st.ll16, s.st.ll4, s.st.cftab
    {
      OutRepr !! Frame + {this} && if s.st.small then SlowIs(e, crc) else FastIs(e, crc)
    }

    lemma FrameFacts()
      requires Shaped()
      ensures s.Shaped() && s in Frame && s.r in Frame && s.st in Frame && s.st.Repr <= Frame && s.TableRepr <= Frame
      ensures s.mtf.mtfa in Frame && s.mtf.mtfbase in Frame && this !in Frame
      ensures s.st.tt in s.st.Repr && s.st.ll16 in s.st.Repr && s.st.ll4 in s.st.Repr && s.st.cftab in s.st.Repr
      ensures s.st.cftabCopy in s.st.Repr && s.st.unzftab in s.st.Repr && s.st in s.st.Repr
      ensures s !in s.st.Repr && s.r !in s.st.Repr && s.r as object != s
        && {s.mtf.mtfa as object, s.mtf.mtfbase as object} !! s.st.Repr
      ensures s.TableRepr !! s.st.Repr && s.st.Shaped()
    {
      s.Parts();
    }

    /** decompress.c:477-542: the vector, and the first byte fetched. */
    method StartOutput()
      requires Shaped() && s.Composed() && s.phase.Block? && s.state == OUTPUT
      modifies this`fast, this`slow, this`OutRepr, s.st.tt, s.st.ll16, s.st.ll4, s.st.cftab, s.st.cftabCopy
      ensures s.phase.Block? && |s.phase.c.inUse| == 256 && s.phase.c.head.orig < |s.phase.out|
      ensures OutIs(BlockData(Column(s.phase.c.inUse, s.phase.out), s.phase.c.head.orig), BlockCrc.INITIAL)
      ensures s.DecodeVectorsPacked() && s.HeadIs(s.phase.c.head) && fresh(OutRepr)
    {
      hide *;
      FrameFacts();
      BlockFacts();
      if s.st.small {
        StartSlow(s.st.col, s.phase.c.head.orig);
      } else {
        StartFast(s.st.col, s.phase.c.head.orig);
      }
      OutIf(BlockData(Column(s.phase.c.inUse, s.phase.out), s.phase.c.head.orig), BlockCrc.INITIAL);
    }

    lemma BlockFacts()
      requires Shaped() && s.Composed() && s.phase.Block?
      ensures |s.phase.c.inUse| == 256 && s.phase.c.head.orig < |s.phase.out|
      ensures s.st.col == Column(s.phase.c.inUse, s.phase.out)
        && s.origPtr == s.phase.c.head.orig < |s.st.col| <= 100000 * s.blockSize100k
      ensures s.HeadIs(s.phase.c.head) && s.st.Valid() && |s.st.col| <= 900000 && s.DecodeVectorsPacked()
      ensures forall v :: 0 <= v <= 256 ==> s.st.cftab[v] == CountLess(s.st.col, v)
    {
      hide CountLess, DState.Shaped;
    }

    method StartSlow(ghost c: seq<byte>, ghost orig: nat)
      requires Shaped() && s.st.Valid() && s.st.col == c && s.origPtr == orig < |c| <= 100000 * s.blockSize100k
        && |c| <= 900000
      requires s.st.small && (forall v :: 0 <= v <= 256 ==> s.st.cftab[v] == CountLess(c, v))
      modifies this`slow, this`OutRepr, s.st.ll16, s.st.ll4, s.st.cftabCopy
      ensures SlowIs(BlockData(c, orig), BlockCrc.INITIAL) && s.DecodeVectorsPacked() && fresh(OutRepr)
    {
      hide CountLess, CountEq, BlockData, InverseBwt.Fetched, Coming, DState.Shaped, IsTInverse, BlockOutput.Remaining,
        BlockOutput.SmallOutput.Tracking;
      FrameFacts();
      TInverseExists(c);
      ghost var t :| IsTInverse(c, t);
      var o := new BlockOutput.SmallOutput(s.st.ll16, s.st.ll4, s.st.cftab, s.st.cftabCopy, s.st.nblock,
                                           100000 * s.blockSize100k, s.origPtr, c, t, availOut);
      slow := o;
      OutRepr := {o};
      DataIs(c, t, orig);
      StillPacked(o);
    }

    lemma StillPacked(o: BlockOutput.SmallOutput)
      requires Shaped() && o.Valid() && o.ll16 == s.st.ll16 && o.ll4 == s.st.ll4
      ensures s.DecodeVectorsPacked()
    {
      hide InverseBwt.Fetched, IsTInverse;
      FrameFacts();
    }

    method StartFast(ghost c: seq<byte>, ghost orig: nat)
      requires Shaped() && s.st.Valid() && s.st.col == c && s.origPtr == orig < |c| <= 100000 * s.blockSize100k
        && |c| <= 900000
      requires !s.st.small && (forall v :: 0 <= v <= 256 ==> s.st.cftab[v] == CountLess(c, v))
      modifies this`fast, this`OutRepr, s.st.tt, s.st.cftab
      ensures FastIs(BlockData(c, orig), BlockCrc.INITIAL) && fresh(OutRepr)
    {
      hide CountLess, CountEq, BlockData, InverseBwt.Fetched, Coming, DState.Shaped, BlockOutput.Remaining,
        BlockOutput.FastOutput.At,
        DecodeVectors.Packed;
      FrameFacts();
      var o := new BlockOutput.FastOutput(s.st.tt, s.st.cftab, s.st.nblock, 100000 * s.blockSize100k, s.origPtr, c, availOut);
      fast := o;
      OutRepr := {o};
      LoadedVector(o);
      DataIs(c, o.t, orig);
    }

    lemma LoadedVector(o: BlockOutput.FastOutput)
      requires o.Valid()
      ensures IsTInverse(o.c, o.t)
    {
    }

    /** Bits used and bits waiting in the buffer are those of the bytes taken, and no byte has been
        taken that was not needed. */
    ghost predicate Counted()
      reads this`consumed, this`taken, s.r, s`phase
    {
      s.r.Valid() && InBits(consumed) == taken + s.r.pending && s.Lean()
    }

    /** Between blocks, in a header, in the middle of a block's symbols, or at the end. */
    ghost predicate Parsing()
      requires Shaped()
      reads this`taken, this`done, this`given, this`combinedCRC, this`handed, this`OutRepr, Frame - {s.r as object}
    {
      FrameFacts();
      && s.Composed() && (!Stopped(s.phase) || s.phase.End?) && Follows(taken, done, s.phase) && Gives(done, given, combinedCRC)
      && handed == [] && OutRepr !! Frame + {this}
    }

    /** The block that is being handed out: all of it is what its bits stand for. */
    ghost predicate Outputting()
      requires Shaped()
      reads this`taken, this`done, this`given, this`combinedCRC, this`handed, this`fast, this`slow, this`OutRepr,
        fast, slow, Frame - {s.r as object}
    {
      FrameFacts();
      && s.phase.Block? && s.state == OUTPUT && s.Sized() && s.DecodeVectorsPacked() && s.HeadIs(s.phase.c.head)
      && var p := Parsed(s.phase.c, s.phase.out);
         && Sound(p) && !p.c.head.rand && Follows(taken, done + [p], BlockMagic(p.c.head.bs, 1))
         && |handed| <= |given| && given[|given| - |handed|..] == handed && Gives(done, given[..|given| - |handed|], combinedCRC)
         && handed <= DataOf(p).bytes
         && OutIs(Expansion(DataOf(p).bytes[|handed|..], DataOf(p).corrupt), BlockCrc.Over(BlockCrc.INITIAL, handed))
    }

    ghost predicate Valid()
      reads this, fast, slow, Frame, s.r
    {
      Shaped() && Counted() && (Parsing() || Outputting())
    }

    /** BZ2_bzDecompressInit. */
    constructor (small: bool)
      ensures Valid() && consumed == [] && given == [] && !s.phase.End? && fresh(Frame) && OutRepr == {}
    {
      hide *;
      var d := new DState(small);
      s := d;
      fast, slow, availOut, combinedCRC := null, null, 0, 0;
      consumed, taken, done, given, handed := [], [], [], [], [];
      Frame := {d as object, d.r as object, d.mtf.mtfa as object, d.mtf.mtfbase as object} + d.TableRepr + d.st.Repr;
      OutRepr := {};
      new;
      d.ReadyParts();
      NothingTaken();
      CountedStart();
      ShapedIf();
      ParsingIf();
      ValidIf();
    }

    static lemma NothingTaken()
      ensures Follows([], [], Magic(1)) && Gives([], [], 0) && !Stopped(Magic(1))
    {
      MagicValid();
      NothingRun(Magic(1));
    }

    lemma CountedStart()
      requires s.r.Valid() && s.r.Rest() == [] && consumed == [] && taken == []
      ensures Counted()
    {
    }

    lemma ShapedIf()
      requires s.Shaped() && this !in Frame
      requires Frame == {s as object, s.r as object, s.mtf.mtfa as object, s.mtf.mtfbase as object} + s.TableRepr + s.st.Repr
      ensures Shaped()
    {
    }

    // ---------- Output ----------

    /** unRLE_obuf_to_output_SMALL or _FAST. */
    method Hand(ghost e: Expansion, ghost crc: bv32) returns (out: seq<byte>, corrupt: bool, fin: bool)
      requires Shaped() && OutIs(e, crc)
      modifies OutRepr, this`availOut
      ensures out == BlockOutput.Handed(e, old(availOut)) && (corrupt ==> e.corrupt && out == e.bytes)
      ensures !corrupt ==> availOut == old(availOut) - |out|
      ensures !corrupt ==> |out| <= |e.bytes| && OutIs(Expansion(e.bytes[|out|..], e.corrupt), BlockCrc.Over(crc, out))
      ensures !corrupt && fin ==> !e.corrupt && out == e.bytes
      ensures !corrupt && !fin ==> availOut == 0
    {
      hide *;
      OutParts(e, crc);
      if s.st.small {
        out, corrupt, fin := HandSlow(e, crc);
      } else {
        out, corrupt, fin := HandFast(e, crc);
      }
      if !corrupt {
        OutIf(Expansion(e.bytes[|out|..], e.corrupt), BlockCrc.Over(crc, out));
      }
    }

    lemma OutParts(e: Expansion, crc: bv32)
      requires Shaped() && OutIs(e, crc)
      ensures OutRepr !! Frame + {this} && if s.st.small then SlowIs(e, crc) else FastIs(e, crc)
    {
    }

    lemma OutIf(e: Expansion, crc: bv32)
      requires Shaped() && OutRepr !! Frame + {this} && if s.st.small then SlowIs(e, crc) else FastIs(e, crc)
      ensures OutIs(e, crc)
    {
    }

    method HandSlow(ghost e: Expansion, ghost crc: bv32) returns (out: seq<byte>, corrupt: bool, fin: bool)
      requires Shaped() && SlowIs(e, crc) && OutRepr !! Frame + {this}
      modifies OutRepr, this`availOut
      ensures out == BlockOutput.Handed(e, old(availOut)) && |out| <= |e.bytes| && (corrupt ==> e.corrupt && out == e.bytes)
      ensures availOut == old(availOut) - |out|
        && SlowIs(Expansion(e.bytes[|out|..], e.corrupt), BlockCrc.Over(crc, out))
      ensures !corrupt && fin ==> !e.corrupt && out == e.bytes
      ensures !corrupt && !fin ==> availOut == 0
    {
      hide *;
      FrameFacts();
      SlowParts(e, crc);
      slow.SetRoom(availOut);
      out, corrupt := slow.UnRle();
      availOut := slow.availOut;
      fin := slow.Done();
      HandedSome(e, old(availOut));
      SlowIf(Expansion(e.bytes[|out|..], e.corrupt), BlockCrc.Over(crc, out));
    }

    lemma SlowParts(e: Expansion, crc: bv32)
      requires Shaped() && SlowIs(e, crc)
      ensures slow != null && slow in OutRepr && slow.Valid() && slow.ToCome() == e && slow.crc == crc
      ensures slow.ll16 == s.st.ll16 && slow.ll4 == s.st.ll4 && slow.cftab == s.st.cftab
    {
      hide BlockOutput.SmallOutput.Valid, BlockOutput.SmallOutput.ToCome;
    }

    lemma SlowIf(e: Expansion, crc: bv32)
      requires Shaped() && slow != null && slow in OutRepr && slow.Valid() && slow.ToCome() == e && slow.crc == crc
      requires slow.ll16 == s.st.ll16 && slow.ll4 == s.st.ll4 && slow.cftab == s.st.cftab
      ensures SlowIs(e, crc)
    {
      hide BlockOutput.SmallOutput.Valid, BlockOutput.SmallOutput.ToCome;
    }

    method HandFast(ghost e: Expansion, ghost crc: bv32) returns (out: seq<byte>, corrupt: bool, fin: bool)
      requires Shaped() && FastIs(e, crc) && OutRepr !! Frame + {this}
      modifies OutRepr, this`availOut
      ensures out == BlockOutput.Handed(e, old(availOut)) && |out| <= |e.bytes| && (corrupt ==> e.corrupt && out == e.bytes)
      ensures !corrupt ==> availOut == old(availOut) - |out|
      ensures !corrupt ==> FastIs(Expansion(e.bytes[|out|..], e.corrupt), BlockCrc.Over(crc, out))
      ensures !corrupt && fin ==> !e.corrupt && out == e.bytes
      ensures !corrupt && !fin ==> availOut == 0
    {
      hide *;
      FrameFacts();
      FastParts(e, crc);
      fin := false;
      fast.SetRoom(availOut);
      out, corrupt := fast.UnRle();
      HandedSome(e, old(availOut));
      if !corrupt {
        availOut := fast.availOut;
        fin := fast.Done();
        FastIf(Expansion(e.bytes[|out|..], e.corrupt), BlockCrc.Over(crc, out));
      }
    }

    lemma FastParts(e: Expansion, crc: bv32)
      requires Shaped() && FastIs(e, crc)
      ensures fast != null && fast in OutRepr && fast.Valid() && fast.ToCome() == e && fast.crc == crc
        && fast.tt == s.st.tt
    {
      hide BlockOutput.FastOutput.Valid, BlockOutput.FastOutput.ToCome;
    }

    lemma FastIf(e: Expansion, crc: bv32)
      requires Shaped() && fast != null && fast in OutRepr && fast.Valid() && fast.ToCome() == e
        && fast.crc == crc && fast.tt == s.st.tt
      ensures FastIs(e, crc)
    {
      hide BlockOutput.FastOutput.Valid, BlockOutput.FastOutput.ToCome;
    }

    /** The block being handed out. */
    ghost function Current(): (p: Parsed)
      requires s.phase.Block?
      reads s`phase
    {
      Parsed(s.phase.c, s.phase.out)
    }

    lemma OutFacts()
      requires Shaped() && Outputting()
      ensures s.phase.Block? && s.Sized() && s.DecodeVectorsPacked() && s.HeadIs(s.phase.c.head) && s.state == OUTPUT
      ensures Sound(Current()) && !Current().c.head.rand && s.storedBlockCRC == Current().c.head.crc
      ensures Follows(taken, done + [Current()], BlockMagic(Current().c.head.bs, 1))
      ensures |handed| <= |given| && given == given[..|given| - |handed|] + handed
      ensures Gives(done, given[..|given| - |handed|], combinedCRC) && handed <= DataOf(Current()).bytes
      ensures OutIs(Expansion(DataOf(Current()).bytes[|handed|..], DataOf(Current()).corrupt), BlockCrc.Over(BlockCrc.INITIAL, handed))
      ensures OutRepr !! Frame + {this}
    {
      hide Follows, Gives, DataOf, Sound, DState.Shaped, DState.DecodeVectorsPacked, BlockCrc.Over, SlowIs, FastIs;
    }

    lemma OutIfFacts(base: seq<byte>)
      requires Shaped() && s.phase.Block? && s.Sized() && s.DecodeVectorsPacked() && s.HeadIs(s.phase.c.head)
      requires s.state == OUTPUT && Sound(Current()) && !Current().c.head.rand
      requires Follows(taken, done + [Current()], BlockMagic(Current().c.head.bs, 1))
      requires given == base + handed && Gives(done, base, combinedCRC) && handed <= DataOf(Current()).bytes
      requires OutIs(Expansion(DataOf(Current()).bytes[|handed|..], DataOf(Current()).corrupt), BlockCrc.Over(BlockCrc.INITIAL, handed))
      ensures Outputting()
    {
      hide Follows, Gives, OutIs, DataOf, Sound, DState.Shaped, DState.DecodeVectorsPacked, BlockCrc.Over;
      assert given[..|given| - |handed|] == base && given[|given| - |handed|..] == handed;
    }

    /** The code is what all input taken so far calls for, and the output is all of its bytes. */
    ghost predicate Settled(code: Code)
      reads this`consumed, this`given, this`combinedCRC
    {
      Decompressed(InBits(consumed)) == Outcome(given, EndingOf(code), combinedCRC)
    }

    /** A bad block settles what the input stands for. */
    lemma BadBlock(p: Parsed, base: seq<byte>, cur: Phase)
      requires Shaped() && Counted() && Follows(taken, done + [p], cur) && Gives(done, base, combinedCRC)
        && Sound(p) && !p.c.head.rand
      requires DataOf(p).corrupt || BlockCrc.OfBlock(DataOf(p).bytes) as nat != p.c.head.crc
      requires given == base + DataOf(p).bytes
      ensures Settled(BzDataError)
    {
      hide Follows, Gives, DataOf, Sound, Decompressed, Blocks, BlockCrc.OfBlock;
      GivesError(done, base, combinedCRC, p);
      ErrorDecided(taken, done + [p], cur, s.r.pending);
    }

    method CurrentCrc(ghost e: Expansion, ghost c: bv32) returns (crc: bv32)
      requires Shaped() && OutIs(e, c)
      ensures crc == c
    {
      if s.st.small {
        crc := slow.crc;
      } else {
        crc := fast.crc;
      }
    }

    lemma Rest(b: seq<byte>, h: seq<byte>, w: seq<byte>, e: Expansion)
      requires h <= e.bytes && w == BlockOutput.Handed(Expansion(e.bytes[|h|..], e.corrupt), |w|)
        && |w| <= |e.bytes| - |h|
      ensures h + w <= e.bytes && e.bytes[|h|..][|w|..] == e.bytes[|h + w|..] && b + h + w == b + (h + w)
    {
    }

    lemma WholeBlock(b: seq<byte>, h: seq<byte>, w: seq<byte>, e: Expansion)
      requires h <= e.bytes && w == e.bytes[|h|..]
      ensures h + w == e.bytes && b + h + w == b + e.bytes
    {
    }

    /** Hand out what there is room for. */
    method HandSome() returns (out: seq<byte>, corrupt: bool, fin: bool, ghost base: seq<byte>)
      requires Shaped() && Counted() && Outputting()
      modifies this`availOut, this`given, this`handed, OutRepr
      ensures given == old(given) + out == base + handed && |out| <= old(availOut) && Gives(done, base, combinedCRC)
      ensures OutRepr !! Frame + {this} && s.phase.Block? && Sound(Current())
      ensures corrupt ==> DataOf(Current()).corrupt
      ensures corrupt || fin ==> handed == DataOf(Current()).bytes
      ensures !corrupt ==> availOut == old(availOut) - |out| && Outputting()
      ensures !corrupt ==>
        OutIs(Expansion(DataOf(Current()).bytes[|handed|..], DataOf(Current()).corrupt), BlockCrc.Over(BlockCrc.INITIAL, handed))
      ensures !corrupt && fin ==> !DataOf(Current()).corrupt
      ensures !corrupt && !fin ==> availOut == 0
    {
      hide *;
      FrameFacts();
      OutFacts();
      base := given[..|given| - |handed|];
      ghost var h, e := handed, DataOf(Current());
      ghost var crc0 := BlockCrc.Over(BlockCrc.INITIAL, h);
      OutParts(Expansion(e.bytes[|h|..], e.corrupt), crc0);
      out, corrupt, fin := Hand(Expansion(e.bytes[|h|..], e.corrupt), crc0);
      HandedSome(Expansion(e.bytes[|h|..], e.corrupt), old(availOut));
      Rest(base, h, out, e);
      given, handed := given + out, handed + out;
      if corrupt || fin {
        WholeBlock(base, h, out, e);
      }
      if !corrupt {
        BlockCrc.OverConcat(BlockCrc.INITIAL, h, out);
        OutIfFacts(base);
      }
    }

    /** Hand out what there is room for; when the block is finished, check it. */
    method OutputRound() returns (out: seq<byte>, round: Round)
      requires Shaped() && Counted() && Outputting()
      modifies this`availOut, this`given, this`handed, this`done, this`combinedCRC, OutRepr, s`state, s`phase
      ensures given == old(given) + out && |out| <= old(availOut)
      ensures round == Again ==> Parsing() && !Stopped(s.phase) && availOut == old(availOut) - |out|
      ensures round != Again ==> round.code == BzOk || round.code == BzDataError
      ensures round == Return(BzOk) ==> Outputting() && availOut == 0 == old(availOut) - |out|
      ensures round == Return(BzDataError) ==> Settled(BzDataError)
    {
      hide *;
      FrameFacts();
      OutFacts();
      var corrupt, fin;
      ghost var p, base := Current(), [];
      out, corrupt, fin, base := HandSome();
      if corrupt {
        BadBlock(p, base, BlockMagic(p.c.head.bs, 1));
        return out, Return(BzDataError);
      }
      if !fin {
        return out, Return(BzOk);
      }
      OutFacts();
      var crc := CurrentCrc(Expansion(DataOf(p).bytes[|handed|..], DataOf(p).corrupt), BlockCrc.Over(BlockCrc.INITIAL, handed));
      round := CheckBlock(crc, base);
    }

    /** The checksum of a block that has been handed out, and on to the next header. */
    method CheckBlock(crc: bv32, ghost base: seq<byte>) returns (round: Round)
      requires Shaped() && Counted() && s.phase.Block? && s.Sized() && s.DecodeVectorsPacked()
        && s.HeadIs(s.phase.c.head)
      requires Sound(Current()) && !Current().c.head.rand && s.storedBlockCRC == Current().c.head.crc
      requires Follows(taken, done + [Current()], BlockMagic(Current().c.head.bs, 1)) && Gives(done, base, combinedCRC)
      requires !DataOf(Current()).corrupt && given == base + DataOf(Current()).bytes
      requires crc == BlockCrc.Over(BlockCrc.INITIAL, DataOf(Current()).bytes) && OutRepr !! Frame + {this}
      modifies this`handed, this`done, this`combinedCRC, s`state, s`phase
      ensures round == Again || round == Return(BzDataError)
      ensures round == Again ==> Parsing() && !Stopped(s.phase)
      ensures round == Return(BzDataError) ==> Settled(BzDataError)
    {
      hide Follows, Gives, DataOf, Sound, DState.Shaped, DState.DecodeVectorsPacked, DState.Composed, DState.HeadIs,
        DState.Sized,
        Decompressed, BlockCrc.Combine, BlockCrc.Over, BlockCrc.OfBlock, Counted, Parsing;
      FrameFacts();
      ghost var p := Current();
      FinalIs(DataOf(p).bytes, crc);
      if (!crc) as nat != s.storedBlockCRC {
        BadBlock(p, base, BlockMagic(p.c.head.bs, 1));
        return Return(BzDataError);
      }
      GivesMore(done, base, combinedCRC, p);
      combinedCRC := BlockCrc.Combine(combinedCRC, !crc);
      done, handed := done + [p], [];
      s.NextBlock();
      HeaderGoesOn(s.phase);
      ParsingIf();
      round := Again;
    }

    lemma HeaderGoesOn(p: Phase)
      requires p.BlockMagic?
      ensures !Stopped(p)
    {
    }

    lemma ParsingIf()
      requires Shaped() && s.Composed() && (!Stopped(s.phase) || s.phase.End?) && Follows(taken, done, s.phase)
      requires Gives(done, given, combinedCRC) && handed == [] && OutRepr !! Frame + {this}
      ensures Parsing()
    {
    }

    lemma FinalIs(bytes: seq<byte>, crc: bv32)
      requires crc == BlockCrc.Over(BlockCrc.INITIAL, bytes)
      ensures !crc == BlockCrc.OfBlock(bytes)
    {
    }

    lemma HandedSome(e: Expansion, room: nat)
      ensures var w := BlockOutput.Handed(e, room); |w| <= |e.bytes| && |w| <= room && w == BlockOutput.Handed(e, |w|)
      ensures |e.bytes| <= room ==> BlockOutput.Handed(e, room) == e.bytes
      ensures |e.bytes| > room ==> |BlockOutput.Handed(e, room)| == room
    {
    }

    // ---------- Input ----------

    /** The bytes the decoder has just taken are used or wait in the buffer. */
    lemma CountedOn(before: seq<byte>, used: seq<bool>, pending0: seq<bool>, next0: seq<byte>, t: seq<bool>)
      requires s.r.Valid() && InBits(before) == used + pending0 && |s.r.nextIn| <= |next0|
      requires s.r.nextIn == next0[|next0| - |s.r.nextIn|..] && pending0 + InBits(next0) == t + s.r.Rest()
      ensures InBits(before + next0[..|next0| - |s.r.nextIn|]) == used + t + s.r.pending
    {
      hide BitReader.Reader.Valid, InBits;
      var k := |next0| - |s.r.nextIn|;
      assert next0 == next0[..k] + s.r.nextIn;
      InBitsConcat(next0[..k], s.r.nextIn);
      InBitsConcat(before, next0[..k]);
      Assoc(pending0, InBits(next0[..k]), InBits(s.r.nextIn));
      Assoc(t, s.r.pending, InBits(s.r.nextIn));
      Cancel(pending0 + InBits(next0[..k]), t + s.r.pending, InBits(s.r.nextIn));
      Assoc(used, pending0, InBits(next0[..k]));
      Assoc(used, t, s.r.pending);
    }

    /** Decode until the input runs out, a block is complete, or the end: the bits used and the
        bytes taken. */
    method Parse() returns (ret: Ret)
      requires Shaped() && Counted() && Parsing() && !Stopped(s.phase)
      modifies this`taken, this`consumed, Frame
      ensures Counted() && s.Composed() && |s.r.nextIn| <= |old(s.r.nextIn)|
      ensures s.r.nextIn == old(s.r.nextIn)[|old(s.r.nextIn)| - |s.r.nextIn|..]
      ensures consumed == old(consumed) + old(s.r.nextIn)[..|old(s.r.nextIn)| - |s.r.nextIn|]
      ensures Follows(taken, done + Completed(s.phase), After(s.phase)) && Gives(done, given, combinedCRC)
      ensures s.phase.Block? ==> |s.r.Rest()| < |old(s.r.Rest())|
      ensures ret == if Stopped(s.phase) then Answer(s.phase) else Ok
      ensures !Stopped(s.phase) ==> s.r.nextIn == [] && BlockParser.Valid(s.phase) && |s.r.Rest()| < Need(s.phase)
    {
      hide *;
      FrameFacts();
      ParsingParts();
      CountedParts();
      s.ReadyOf();
      ghost var p0, pending0, next0, before, used := s.phase, s.r.pending, s.r.nextIn, consumed, taken;
      ghost var t;
      ret, t := s.Decompress();
      consumed, taken := before + next0[..|next0| - |s.r.nextIn|], used + t;
      s.ReadyParts();
      CountedOn(before, used, pending0, next0, t);
      FollowsOn(used, done, p0, t, s.phase);
      LeadsMoves(p0, t, s.phase);
      CountedIf();
    }

    method ParseRound() returns (round: Round)
      requires Shaped() && Counted() && Parsing() && !Stopped(s.phase)
      modifies this`taken, this`consumed, this`fast, this`slow, this`OutRepr, Frame
      ensures Counted() && |s.r.nextIn| <= |old(s.r.nextIn)|
        && s.r.nextIn == old(s.r.nextIn)[|old(s.r.nextIn)| - |s.r.nextIn|..]
      ensures consumed == old(consumed) + old(s.r.nextIn)[..|old(s.r.nextIn)| - |s.r.nextIn|]
      ensures round == Again ==> Outputting() && |s.r.Rest()| < |old(s.r.Rest())| && fresh(OutRepr)
      ensures round != Again ==> OutRepr == old(OutRepr) && Concluded(round.code)
    {
      hide *;
      FrameFacts();
      ParsingParts();
      var ret := Parse();
      s.StateOf();
      AfterIs(done, s.phase);
      CurrentIf();
      if s.state == OUTPUT {
        round := BeginBlock();
      } else {
        var code := Conclude(ret);
        round := Return(code);
      }
    }

    lemma CurrentIf()
      ensures s.phase.Block? ==> Current() == Parsed(s.phase.c, s.phase.out)
    {
    }

    /** What a return code says when it comes from decoding. */
    ghost predicate Concluded(code: Code)
      requires Shaped()
      reads this, Frame
    {
      && code != BzSequenceError && Settled(code) && (code != BzRandomised ==> s.phase == PhaseAfter(InBits(consumed)))
      && (code == BzOk ==> Parsing() && s.r.nextIn == [] && !s.phase.End?) && (code == BzStreamEnd ==> Parsing() && s.phase.End?)
    }

    /** The return code when no block is to be handed out. */
    method Conclude(ret: Ret) returns (code: Code)
      requires Shaped() && Counted() && s.Composed() && !s.phase.Block? && Follows(taken, done, s.phase)
        && Gives(done, given, combinedCRC)
      requires handed == [] && ret == (if Stopped(s.phase) then Answer(s.phase) else Ok) && OutRepr !! Frame + {this}
      requires !Stopped(s.phase) ==> s.r.nextIn == [] && |s.r.Rest()| < Need(s.phase)
      ensures Concluded(code)
    {
      hide Follows, Gives, DState.Composed, Decompressed, DState.Shaped, BlockParser.Valid, Need;
      FrameFacts();
      s.StateOf();
      if Stopped(s.phase) {
        Decided(taken, done, s.phase, s.r.pending, given, combinedCRC);
      } else {
        RestPending();
        Waits(taken, done, s.phase, s.r.pending, given, combinedCRC);
      }
      match ret {
        case StreamEnd => code := if combinedCRC as nat == s.storedCombinedCRC then BzStreamEnd else BzDataError;
        case DataError => code := BzDataError;
        case MagicError => code := BzMagicError;
        case Undef => code := BzUndefined;
        case _ => code := BzOk;
      }
    }

    lemma RestPending()
      requires s.r.nextIn == []
      ensures s.r.Rest() == s.r.pending
    {
    }

    /** A parsed block starts to be handed out. */
    method BeginBlock() returns (round: Round)
      requires Shaped() && Counted() && s.Composed() && s.phase.Block? && s.state == OUTPUT
        && Gives(done, given, combinedCRC) && handed == []
      requires Follows(taken, done + [Current()], BlockMagic(Current().c.head.bs, 1))
      modifies this`fast, this`slow, this`OutRepr, s.st.tt, s.st.ll16, s.st.ll4, s.st.cftab, s.st.cftabCopy
      ensures Counted()
      ensures round == Again ==> Outputting() && fresh(OutRepr)
      ensures round != Again ==> OutRepr == old(OutRepr) && Concluded(round.code)
    {
      hide *;
      FrameFacts();
      s.ComposedParts();
      s.StateOf();
      BlockFacts();
      HeadFacts();
      if s.blockRandomised {
        GivesRandomised(done, given, combinedCRC, Current());
        ErrorDecided(taken, done + [Current()], BlockMagic(Current().c.head.bs, 1), s.r.pending);
        RandomisedNow();
        return Return(BzRandomised);
      }
      StartOutput();
      BeginFacts(DataOf(Current()));
      assert given + [] == given;
      OutIfFacts(given);
      round := Again;
    }

    lemma CurrentIs()
      requires s.phase.Block?
      ensures Current() == Parsed(s.phase.c, s.phase.out)
    {
    }

    lemma HeadFacts()
      requires s.phase.Block? && s.HeadIs(s.phase.c.head) && |s.phase.c.inUse| == 256
        && s.phase.c.head.orig < |s.phase.out|
      ensures s.blockRandomised == Current().c.head.rand && Current() == Parsed(s.phase.c, s.phase.out)
      ensures Sound(Current())
      ensures DataOf(Current()) == BlockData(Column(s.phase.c.inUse, s.phase.out), s.phase.c.head.orig)
    {
      hide BlockData, Column;
    }

    lemma BeginFacts(e: Expansion)
      ensures Expansion(e.bytes[0..], e.corrupt) == e && BlockCrc.Over(BlockCrc.INITIAL, []) == BlockCrc.INITIAL
    {
    }

    lemma RandomisedNow()
      requires Shaped() && Counted() && Decompressed(taken + s.r.pending) == Outcome(given, Ending.Randomised, combinedCRC)
      ensures Concluded(BzRandomised)
    {
      hide Decompressed;
    }

    lemma ParsingParts()
      requires Shaped() && Parsing()
      ensures s.Composed() && (!Stopped(s.phase) || s.phase.End?) && !s.phase.Block?
      ensures Follows(taken, done, s.phase) && Gives(done, given, combinedCRC) && handed == []
        && OutRepr !! Frame + {this}
    {
    }

    lemma CountedParts()
      requires Counted()
      ensures s.r.Valid() && InBits(consumed) == taken + s.r.pending && s.r.Rest() == s.r.pending + InBits(s.r.nextIn)
      ensures s.Lean()
    {
    }

    lemma CountedIf()
      requires s.r.Valid() && InBits(consumed) == taken + s.r.pending && s.Lean()
      ensures Counted()
    {
    }

    // ---------- The call ----------

    /** The caller's buffers of this call. */
    method StartCall(input: seq<byte>, room: nat)
      requires Valid()
      modifies this`availOut, s.r`nextIn
      ensures Valid() && s.r.nextIn == input && availOut == room
    {
      hide *;
      ValidParts();
      FrameFacts();
      CountedParts();
      s.LeanMeans();
      s.r.Supply(input);
      availOut := room;
      s.LeanMeans();
      CountedIf();
      ValidIf();
    }

    lemma ValidParts()
      requires Valid()
      ensures Shaped() && Counted() && (Parsing() || Outputting()) && OutRepr !! Frame + {this}
    {
      hide Counted, Follows, Gives, DataOf, Sound, DState.Shaped, DState.Composed;
    }

    lemma ValidIf()
      requires Shaped() && Counted() && (Parsing() || Outputting())
      ensures Valid()
    {
    }

    /** What the current call has taken of its input. */
    ghost predicate Taken(input: seq<byte>, consumed0: seq<byte>)
      reads this`consumed, s.r
    {
      && |s.r.nextIn| <= |input| && s.r.nextIn == input[|input| - |s.r.nextIn|..]
      && consumed == consumed0 + input[..|input| - |s.r.nextIn|]
    }

    lemma TakenParts(input: seq<byte>, consumed0: seq<byte>)
      requires Taken(input, consumed0)
      ensures |s.r.nextIn| <= |input| && s.r.nextIn == input[|input| - |s.r.nextIn|..]
      ensures consumed == consumed0 + input[..|input| - |s.r.nextIn|]
    {
    }

    lemma TakenIf(input: seq<byte>, consumed0: seq<byte>)
      requires |s.r.nextIn| <= |input| && s.r.nextIn == input[|input| - |s.r.nextIn|..]
      requires consumed == consumed0 + input[..|input| - |s.r.nextIn|]
      ensures Taken(input, consumed0)
    {
    }

    lemma TakenNothing(input: seq<byte>)
      requires s.r.nextIn == input
      ensures Taken(input, consumed)
    {
      assert input[0..] == input && input[..0] == [] && consumed + [] == consumed;
    }

    /** The label and the save area are those that the input taken so far leads to. */
    ghost predicate PhaseSettled()
      reads this`consumed, s`phase
    {
      s.phase == PhaseAfter(InBits(consumed))
    }

    /** What a return code means.  In every case the output so far is the first part of what the
        input taken so far stands for, and all of it unless the caller's buffer is full. */
    ghost predicate Means(code: Code)
      reads this, fast, slow, Frame, s, s.r
    {
      && given <= Decompressed(InBits(consumed)).bytes
      && (code in {BzOk, BzStreamEnd, BzSequenceError} ==> Valid())
      && match code
         case BzOk => !s.phase.End? && (availOut == 0 || (s.r.nextIn == [] && Settled(BzOk) && PhaseSettled()))
         case BzSequenceError => Shaped() && s.phase.End?
         case BzStreamEnd => Settled(code) && PhaseSettled() && s.phase.End?
         case BzMagicError => Settled(code) && PhaseSettled()
         case BzUndefined => Settled(code) && PhaseSettled()
         case _ => Settled(code)
    }

    lemma MeansConcluded(code: Code)
      requires Shaped() && Counted() && Concluded(code)
      ensures Means(code)
    {
      hide Counted, Parsing, Outputting, Decompressed, InBits, PhaseAfter;
    }

    /** While a block is handed out, its first bytes are those that come next. */
    lemma BlockFirst()
      requires Shaped() && Counted() && Outputting()
      ensures given <= Decompressed(InBits(consumed)).bytes
    {
      hide Follows, Gives, OutIs, DataOf, Sound, Decompressed, InBits, Blocks;
      OutFacts();
      CurrentIs();
      var p, base := Current(), given[..|given| - |handed|];
      GivesPrefix(done, base, combinedCRC, p);
      FirstBytes(taken, done + [p], BlockMagic(p.c.head.bs, 1), s.r.pending);
      FirstOf(base, handed, DataOf(p).bytes, Decompressed(InBits(consumed)).bytes);
    }

    /** The output is always the first part of what the input stands for. */
    lemma GivenFirst()
      requires Valid()
      ensures given <= Decompressed(InBits(consumed)).bytes
    {
      hide *;
      ValidParts();
      if Outputting() {
        BlockFirst();
      } else {
        ParsingParts();
        CountedParts();
        GivesParts(done, given, combinedCRC);
        FirstBytes(taken, done, s.phase, s.r.pending);
      }
    }

    lemma MeansFull()
      requires Shaped() && Counted() && Outputting() && availOut == 0
      ensures Means(BzOk)
    {
      hide Follows, Gives, OutIs, DataOf, Sound, Decompressed, InBits, Blocks;
      BlockFirst();
    }

    lemma FirstOf(b: seq<byte>, h: seq<byte>, e: seq<byte>, all: seq<byte>)
      requires h <= e && b + e <= all
      ensures b + h <= all
    {
      assert (b + e)[..|b| + |h|] == b + h;
    }

    /** After the end, and while waiting for input, everything is out. */
    lemma MeansEnded()
      requires Shaped() && Counted() && Parsing() && s.phase.End?
      ensures Means(BzSequenceError)
    {
      hide Follows, Gives, Decompressed, InBits, Blocks, DState.Shaped, DState.Composed;
      ParsingParts();
      Decided(taken, done, s.phase, s.r.pending, given, combinedCRC) by { EndStops(s.phase); }
    }

    lemma EndStops(p: Phase)
      ensures p.End? ==> Stopped(p)
    {
    }

    /** Label and phase agree in both kinds of state. */
    lemma StateFacts()
      requires Shaped() && (Parsing() || Outputting())
      ensures s.state == OUTPUT <==> s.phase.Block?
      ensures s.phase.Block? ==> Outputting()
      ensures !s.phase.Block? ==> Parsing() && (s.state == IDLE <==> s.phase.End?) && (s.state != IDLE ==> !Stopped(s.phase))
      ensures IDLE == 1 && OUTPUT == 2
    {
      hide Follows, Gives, OutIs, DState.Composed, DataOf, Sound, DState.Shaped;
      if Parsing() {
        ParsingParts();
        s.StateOf();
      }
    }

    /** BZ2_bzDecompress, given input and room for output: what all input taken so far stands for
        decides what is returned and what has been given out. */
    method BzDecompress(input: seq<byte>, room: nat) returns (code: Code, out: seq<byte>)
      requires Valid()
      modifies this, Frame, OutRepr
      ensures fresh(OutRepr - old(OutRepr)) && Taken(input, old(consumed)) && Means(code)
      ensures given == old(given) + out && |out| <= room
      ensures code in {BzOk, BzStreamEnd, BzSequenceError} ==> availOut == room - |out|
      ensures code == BzSequenceError <==> old(s.phase).End?
      ensures code == BzSequenceError ==> out == [] && s.r.nextIn == input
    {
      hide *;
      ValidParts();
      FrameFacts();
      ghost var consumed0, given0 := consumed, given;
      out := [];
      StartCall(input, room);
      TakenNothing(input);
      ValidParts();
      StateFacts();
      if s.state == IDLE {
        MeansEnded();
        return BzSequenceError, [];
      }
      assert given == given0 + [];
      while true
        invariant Valid() && Taken(input, consumed0) && s.state != IDLE && given == given0 + out
          && |out| + availOut == room
        invariant fresh(OutRepr - old(OutRepr))
        decreases |s.r.Rest()|
      {
        ValidParts();
        FrameFacts();
        StateFacts();
        if s.state == OUTPUT {
          var w, round := HandOut(input, consumed0);
          Assoc(given0, out, w);
          out := out + w;
          if round != Again {
            return round.code, out;
          }
        }
        var round := DecodeOn(input, consumed0);
        if round != Again {
          return round.code, out;
        }
      }
    }

    /** The output part of a turn. */
    method HandOut(ghost input: seq<byte>, ghost consumed0: seq<byte>) returns (w: seq<byte>, round: Round)
      requires Shaped() && Counted() && Outputting() && Taken(input, consumed0)
      modifies this`availOut, this`given, this`handed, this`done, this`combinedCRC, OutRepr, s`state, s`phase
      ensures given == old(given) + w && |w| <= old(availOut) && Taken(input, consumed0) && Counted()
      ensures OutRepr == old(OutRepr) && s.r.Rest() == old(s.r.Rest())
      ensures round == Again ==> Parsing() && !Stopped(s.phase) && availOut == old(availOut) - |w|
      ensures round != Again ==> Means(round.code) && round.code in {BzOk, BzDataError}
      ensures round == Return(BzOk) ==> availOut == old(availOut) - |w|
    {
      hide *;
      FrameFacts();
      OutFacts();
      OutParts(Expansion(DataOf(Current()).bytes[|handed|..], DataOf(Current()).corrupt), BlockCrc.Over(BlockCrc.INITIAL, handed));
      CountedParts();
      s.LeanMeans();
      BlockHere();
      w, round := OutputRound();
      s.LeanMeans();
      CountedIf();
      if round == Return(BzOk) {
        MeansFull();
      } else if round == Return(BzDataError) {
        MeansError();
      }
    }

    lemma BlockHere()
      ensures s.phase.Block? ==> Stopped(s.phase)
    {
    }

    lemma MeansError()
      requires Settled(BzDataError)
      ensures Means(BzDataError)
    {
      hide Decompressed, InBits;
    }

    /** The decoding part of a turn. */
    method DecodeOn(ghost input: seq<byte>, ghost consumed0: seq<byte>) returns (round: Round)
      requires Shaped() && Counted() && Parsing() && !Stopped(s.phase) && Taken(input, consumed0)
      modifies this`taken, this`consumed, this`fast, this`slow, this`OutRepr, Frame
      ensures Taken(input, consumed0) && fresh(OutRepr - old(OutRepr))
      ensures round == Again ==> Valid() && s.state == OUTPUT && |s.r.Rest()| < |old(s.r.Rest())|
      ensures round != Again ==> Means(round.code) && round.code != BzSequenceError
    {
      hide *;
      FrameFacts();
      ghost var next0, before := s.r.nextIn, consumed;
      TakenParts(input, consumed0);
      round := ParseRound();
      MorePieces(input, next0, s.r.nextIn, consumed0, before);
      TakenIf(input, consumed0);
      if round != Again {
        MeansConcluded(round.code);
        NotSequence(round.code);
      } else {
        ValidIf();
        OutFacts();
      }
    }

    lemma NotSequence(code: Code)
      requires Shaped() && Concluded(code)
      ensures code != BzSequenceError
    {
    }
  }

  lemma MorePieces(input: seq<byte>, next0: seq<byte>, next1: seq<byte>, consumed0: seq<byte>, before: seq<byte>)
    requires |next1| <= |next0| <= |input| && next0 == input[|input| - |next0|..] && next1 == next0[|next0| - |next1|..]
    requires before == consumed0 + input[..|input| - |next0|]
    ensures next1 == input[|input| - |next1|..]
    ensures before + next0[..|next0| - |next1|] == consumed0 + input[..|input| - |next1|]
  {
    var i, j := |input| - |next0|, |input| - |next1|;
    assert input[..j] == input[..i] + input[i..j] && next0[..j - i] == input[i..j];
  }

  lemma GivesParts(ps: seq<Parsed>, bytes: seq<byte>, combined: bv32)
    requires Gives(ps, bytes, combined)
    ensures (forall i :: 0 <= i < |ps| ==> Sound(ps[i])) && Blocks(ps, 0).bytes == bytes
  {
    hide Sound, Blocks;
  }

  lemma LeadsMoves(p: Phase, t: seq<bool>, q: Phase)
    requires Leads(p, t, q) && !p.Block?
    ensures q.Block? ==> t != []
  {
    hide Resume;
  }

  lemma AfterIs(ps: seq<Parsed>, p: Phase)
    ensures p.Block? ==> After(p) == BlockMagic(p.c.head.bs, 1) && ps + Completed(p) == ps + [Parsed(p.c, p.out)]
    ensures !p.Block? ==> After(p) == p && ps + Completed(p) == ps
  {
  }

  lemma GivesRandomised(ps: seq<Parsed>, bytes: seq<byte>, combined: bv32, p: Parsed)
    requires Gives(ps, bytes, combined) && Sound(p) && p.c.head.rand
    ensures (forall i :: 0 <= i < |ps + [p]| ==> Sound((ps + [p])[i]))
    ensures Blocks(ps + [p], 0) == Outcome(bytes, Ending.Randomised, combined)
  {
    hide BlockData, Column, BlockCrc.OfBlock, BlockCrc.Combine, Sound;
    BlocksAppend(ps, p, 0);
    SoundFacts(p);
    assert bytes + [] == bytes;
  }
}
