/** BZ2_bzCompress: modes, states, and calls with any buffer sizes (dep/bzip2/bzlib.c:278-441). */
module CompressCalls {
  import opened Sequences
  import opened Rotations
  import opened RunLength
  import opened BlockFormat
  import opened BitWriter
  import opened RunEncoder
  import opened StreamCompressor
  import opened BitStrings
  import opened MainCompare
  import BlockCrc

  datatype Action = Run | Flush | Finish | Other  // any other number

  datatype Code = RunOk | FlushOk | FinishOk | StreamEnd | SequenceError | ParamError

  // ---------- What a call moves ----------

  /** Where a call stands: input not yet taken, whether a run is pending, the block being filled, the
      bytes of the block being handed out, output given in this call and room for more. */
  datatype Standing = Standing(state: State, input: nat, runs: nat, nblock: nat, pos: nat, num: nat, out: nat, room: nat)

  /** How calls leave it: the block being filled is not full, and a block being handed out is not all
      out. */
  ghost predicate Rested(max: nat, a: Standing) {
    match a.state
    case Input => a.nblock < max
    case Output => a.pos < a.num
  }

  /** Whether anything can be taken or given. */
  ghost predicate Moves(mode: Mode, a: Standing) {
    if a.state == Output then a.room > 0 else a.input > 0 || (mode == Finishing && a.room > 0)
  }

  ghost predicate Moved(a: Standing, b: Standing) {
    b.input < a.input || b.out > a.out
  }

  /** Input has been taken, or a run has been put into a block and no input taken. */
  ghost predicate Further(a: Standing, b: Standing) {
    b.input < a.input || (b.input == a.input && b.runs < a.runs)
  }

  /** Less is left to do, in this order: input to take, a run to put into a block, a block to
      compress, bytes to hand out. */
  ghost predicate Closer(a: Standing, b: Standing) {
    || Further(a, b)
    || (b.input == a.input && b.runs == a.runs
        && ((a.state == Input && b.state == Output)
            || (a.state == b.state == Output && b.num - b.pos < a.num - a.pos)))
  }

  /** The block that was being filled has been compressed. */
  ghost predicate Emitted(a: Standing, b: Standing) {
    a.state == Input && b.state == Output && b.input == a.input && b.runs <= a.runs
  }

  /** It was the last one of a flush or finish, there was no input, and nothing has been handed out. */
  ghost predicate Waiting(mode: Mode, a: Standing, b: Standing) {
    && Emitted(a, b) && mode != Running && b.input == 0 && b.pos == 0 && b.room == a.room
    && (mode == Finishing ==> b.num > 0)
  }

  /** From the start a of a call to b, between two rounds. */
  ghost predicate Begun(mode: Mode, max: nat, a: Standing, b: Standing) {
    && mode != Idle && Rested(max, a) && (a == b || Emitted(a, b) || Further(a, b))
    && (Moved(a, b) ==> Moves(mode, a) || mode == Flushing)
    && (Moved(a, b) || a == b || Waiting(mode, a, b))
    && b.input <= a.input && b.out >= a.out && b.out + b.room == a.out + a.room
  }

  /** From the start a of a call to its end. */
  ghost predicate Done(mode: Mode, max: nat, a: Standing, b: Standing) {
    && (mode != Flushing ==> (Moved(a, b) <==> Moves(mode, a)))
    && (b.state == Input ==> b.nblock < max)
    && (!Moved(a, b) && b.state == Output ==> b.pos < b.num)
    && (a.room > 0 && b.state == Output ==> Closer(a, b))
  }

  /** Handing out. */
  ghost predicate OutputStep(b: Standing, c: Standing) {
    && b.state == Output && c.input == b.input && c.runs == b.runs && c.out + c.room == b.out + b.room
    && c.out >= b.out && (c.out > b.out <==> b.room > 0 && b.pos < b.num)
    && (c.state == Output ==> c.num == b.num && c.pos - b.pos == c.out - b.out)
    && (c.state == Input ==> c.nblock == 0)
  }

  /** Taking input, and compressing a block that is full or must be ended. */
  ghost predicate InputStep(mode: Mode, max: nat, c: Standing, d: Standing) {
    && c.state == Input && d.input <= c.input && (d.input < c.input <==> c.input > 0 && c.nblock < max)
    && d.out == c.out && d.room == c.room && (d.input == c.input ==> d.runs <= c.runs)
    && (mode != Running && d.input == 0 ==> d.runs == 0)
    && (d.state == Input ==> mode == Running && d.input == 0 && d.nblock < max)
    && (d.state == Output ==> d.pos == 0 && (mode == Flushing || d.num > 0))
    && (d.state == Output && d.input == c.input ==> (mode != Running && d.input == 0) || c.nblock >= max)
  }

  /** All has been handed out, and there is more to do. */
  ghost predicate Drained(mode: Mode, b: Standing, c: Standing) {
    && OutputStep(b, c) && c.state == Input && (mode == Running || c.input > 0 || c.runs > 0)
    && (b.pos < b.num ==> c.out > b.out)
  }

  lemma OutputStepped(b: Standing, c: Standing)
    requires b.state == Output && c.input == b.input && c.runs == b.runs && c.out + c.room == b.out + b.room
    requires c.out >= b.out && (c.out > b.out <==> b.room > 0 && b.pos < b.num)
    requires c.state == Output ==> c.num == b.num && c.pos - b.pos == c.out - b.out
    requires c.state == Input ==> c.nblock == 0
    ensures OutputStep(b, c)
  {
  }

  lemma DrainedNow(mode: Mode, b: Standing, c: Standing)
    requires OutputStep(b, c) && c.state == Input && (mode == Running || c.input > 0 || c.runs > 0)
    requires b.pos < b.num ==> c.out > b.out
    ensures Drained(mode, b, c)
  {
  }

  lemma InputStepped(mode: Mode, max: nat, c: Standing, d: Standing)
    requires c.state == Input && d.input <= c.input && (d.input < c.input <==> c.input > 0 && c.nblock < max)
    requires d.out == c.out && d.room == c.room && (d.input == c.input ==> d.runs <= c.runs)
    requires mode != Running && d.input == 0 ==> d.runs == 0
    requires d.state == Input ==> mode == Running && d.input == 0 && d.nblock < max
    requires d.state == Output ==> d.pos == 0 && (mode == Flushing || d.num > 0)
    requires d.state == Output && d.input == c.input ==> (mode != Running && d.input == 0) || c.nblock >= max
    ensures InputStep(mode, max, c, d)
  {
  }

  lemma RoundOn(mode: Mode, max: nat, a: Standing, b: Standing, c: Standing, d: Standing)
    requires Begun(mode, max, a, b) && 0 < max && InputStep(mode, max, c, d) && d.state == Output
    requires if b.state == Output then Drained(mode, b, c) else c == b
    ensures Begun(mode, max, a, d)
  {
  }

  lemma OutputEnds(mode: Mode, max: nat, a: Standing, b: Standing, c: Standing)
    requires Begun(mode, max, a, b) && 0 < max && OutputStep(b, c)
    requires c.state == Output ==> c.pos < c.num || mode == Finishing
    requires c.state == Input ==> mode == Flushing
    ensures Done(mode, max, a, c)
  {
  }

  lemma InputEnds(mode: Mode, max: nat, a: Standing, b: Standing, c: Standing, d: Standing)
    requires Begun(mode, max, a, b) && 0 < max && InputStep(mode, max, c, d) && d.state == Input
    requires if b.state == Output then Drained(mode, b, c) else c == b
    ensures Done(mode, max, a, d)
  {
  }

  class EState {
    const level: nat
    const bb: BlockBuilder
    const e: Emitter
    var mode: Mode
    var state: State
    var availInExpect: nat
    var stateOutPos: nat
    /** next_in[0..avail_in-1], avail_out, and the bytes put at next_out, in this call. */
    var nextIn: seq<byte>
    var availOut: nat
    var nextOut: seq<nat>
    /** All input taken and all output given since the start. */
    ghost var consumed: seq<byte>
    ghost var sent: seq<nat>
    /** What had been given before this call. */
    ghost var base: seq<nat>
    /** Numbers of the blocks that ended a flush or the stream. */
    ghost var cuts: seq<nat>

    ghost predicate Shaped() {
      && e.Foreign(bb) && bb.nblockMAX == 100000 * level - 19 && e.level == level && 1 <= level <= 9
      && this !in e.Scratch && e !in e.Scratch && e.w in e.Scratch && e.w.zbits in e.Scratch && bb.block as object != bb.inUse as object
      && bb.block.Length == 100000 * level + OVERSHOOT
    }

    ghost function Parts(): set<object> {
      {bb as object, bb.block as object, bb.inUse as object, e as object} + e.Scratch
    }

    /** The input is what the emitted blocks stand for, then what is in the front end. */
    ghost predicate Accounted()
      reads this, bb, bb.block, bb.inUse, e, e.w, e.w.zbits
    {
      && bb.Valid() && e.Valid()
      && consumed == Expand(e.ledger.blocks) + if state == Input then bb.Content() else bb.Pending()
    }

    /** Where the current block stands. */
    ghost predicate InStep()
      reads this, bb, e, e.w
    {
      match state
      case Input =>
        && !e.ledger.ended && e.w.numZ == 0 && stateOutPos == 0
        && e.blockNo >= 1 && (e.ledger.headed <==> e.blockNo > 1)
        && (bb.stateInCh == NONE ==> bb.runs == [] || (mode != Running && availInExpect == 0))
        && mode != Idle
      case Output =>
        && e.ledger.headed && e.blockNo >= 1 && stateOutPos <= e.w.numZ
        && (mode == Running ==> bb.stateInCh != NONE)
        && (e.ledger.ended <==> mode in {Finishing, Idle} && availInExpect == 0 && bb.stateInCh == NONE)
        && (mode == Idle ==> e.ledger.ended && stateOutPos == e.w.numZ)
    }

    /** All output is the bits so far, as far as they have been handed out. */
    ghost predicate Delivered()
      reads this`stateOutPos, this`sent, e, e.w, e.w.zbits
    {
      && stateOutPos <= e.w.numZ <= e.w.zbits.Length
      && Bytes(sent) == e.past + Bytes(e.w.zbits[..stateOutPos])
      && forall i :: 0 <= i < |sent| ==> sent[i] < 256
    }

    /** All other blocks are full. */
    ghost predicate Full()
      reads this`cuts, e`ledger
    {
      forall k: nat :: k < |e.ledger.blocks| && k !in cuts ==> |e.ledger.blocks[k]| >= bb.nblockMAX
    }

    /** The last block of a flush or of the stream is being handed out. */
    ghost predicate Ending()
      reads this`state, this`mode, this`availInExpect, bb`stateInCh
    {
      state == Output && mode in {Flushing, Finishing} && availInExpect == 0 && bb.stateInCh == NONE
    }

    ghost predicate Valid()
      reads this, bb, bb.block, bb.inUse, e, e.w, e.w.zbits
    {
      Shaped() && Accounted() && InStep() && Delivered() && Full()
    }

    ghost function Now(): Standing
      reads this, bb, e, e.w
    {
      Standing(state, |nextIn|, if bb.stateInCh == NONE then 0 else 1, bb.nblock, stateOutPos, e.w.numZ, |nextOut|, availOut)
    }

    ghost predicate AtRest()
      reads this, bb, e, e.w
    {
      mode == Idle || Rested(bb.nblockMAX, Now())
    }

    ghost predicate Tallied()
      reads this`sent, this`base, this`nextOut
    {
      sent == base + nextOut
    }

    /** BZ2_bzCompressInit. */
    constructor (level: nat, workFactor: nat)
      requires 1 <= level <= 9 && workFactor <= 250
      ensures Valid() && AtRest() && consumed == [] && sent == [] && mode == Running && this.level == level
      ensures cuts == [] && e.workFactor == if workFactor == 0 then 30 else workFactor
      ensures fresh({bb as object, bb.block as object, bb.inUse as object, e as object}) && fresh(e.Scratch)
    {
      hide *;
      OvershootIs();
      this.level := level;
      var emitter := new Emitter(level, if workFactor == 0 then 30 else workFactor);
      var block := new byte[100000 * level + OVERSHOOT];
      var inUse := new bool[256];
      var builder := new BlockBuilder(block, inUse, 100000 * level - 19);
      e, bb := emitter, builder;
      mode, state, availInExpect, stateOutPos := Running, Input, 0, 0;
      nextIn, availOut, nextOut, consumed, sent, base, cuts := [], 0, [], [], [], [], [];
      new;
      StartValid();
    }

    lemma StartValid()
      requires bb.Valid() && e.Valid() && bb.nblockMAX == 100000 * level - 19 && e.level == level && 1 <= level <= 9
      requires {bb as object, bb.block as object, bb.inUse as object, e as object} !! e.Scratch && this !in e.Scratch
      requires bb as object != e && bb.block as object != e && bb.inUse as object != e && e.w in e.Scratch && e.w.zbits in e.Scratch
      requires bb.block as object != bb.inUse as object && bb.block.Length == 100000 * level + OVERSHOOT
      requires bb.nblock == 0 && bb.runs == [] && bb.stateInCh == NONE
      requires e.ledger == Ledger([], [], false, false) && e.past == [] && e.w.numZ == 0 && e.blockNo == 1
      requires mode == Running && state == Input && stateOutPos == 0 && consumed == [] && sent == [] && cuts == []
      ensures Valid() && AtRest()
    {
      hide Emitter.Valid, BlockBuilder.Valid, Expand, BytesOf, Bytes;
      FrontFacts();
      NothingYet(bb.runs);
      assert e.w.zbits[..0] == [];
      EmitterFacts();
    }

    /** The front end's part of validity, to hand around while the rest is hidden. */
    lemma FrontFacts()
      requires bb.Valid()
      ensures bb.PendingOk() && (bb.EmptyRl() <==> bb.stateInCh == NONE)
      ensures bb.stateInCh == NONE ==> bb.Pending() == []
      ensures bb.Content() == BytesOf(bb.runs) + bb.Pending()
      ensures bb.runs == [] ==> bb.nblock == 0
      ensures bb.nblock <= bb.nblockMAX + 9 && bb.nblock <= bb.block.Length
      ensures Alternating(bb.runs) && PairsOf(bb.runs) == bb.block[..bb.nblock]
    {
      hide BytesOf, PairsOf, BlockCrc.Over;
      if bb.runs == [] {
        NoPairs(bb.runs);
      }
    }

    /** copy_input_until_stop. */
    method CopyInputUntilStop() returns (progress: bool)
      requires Valid() && state == Input && (mode != Running ==> availInExpect == |nextIn|)
      modifies this`nextIn, this`availInExpect, this`consumed, bb, bb.block, bb.inUse
      ensures Valid() && state == Input && (mode != Running ==> availInExpect == |nextIn|)
      ensures consumed + nextIn == old(consumed + nextIn) && |nextIn| <= |old(nextIn)|
      ensures progress <==> |nextIn| < |old(nextIn)|
      ensures progress <==> old(nextIn) != [] && old(bb.nblock) < bb.nblockMAX
      ensures nextIn == [] || bb.nblock >= bb.nblockMAX
      ensures |nextIn| == |old(nextIn)| ==> bb.stateInCh == old(bb.stateInCh) && bb.nblock == old(bb.nblock)
      ensures |nextIn| < |old(nextIn)| ==> bb.stateInCh != NONE
    {
      hide Emitter.Valid, BlockBuilder.Valid, Expand, BytesOf, BlockBuilder.Content, BlockBuilder.Pending;
      progress := false;
      while true
        invariant Shaped() && Accounted() && InStep() && Delivered() && state == Input
        invariant mode != Running ==> availInExpect == |nextIn|
        invariant consumed + nextIn == old(consumed + nextIn) && |nextIn| <= |old(nextIn)|
        invariant progress <==> |nextIn| < |old(nextIn)|
        invariant |nextIn| == |old(nextIn)| ==> bb.stateInCh == old(bb.stateInCh) && bb.nblock == old(bb.nblock)
        invariant progress ==> old(nextIn) != [] && old(bb.nblock) < bb.nblockMAX
        invariant |nextIn| < |old(nextIn)| ==> bb.stateInCh != NONE
        decreases |nextIn|
      {
        if bb.nblock >= bb.nblockMAX {
          break;
        }
        if |nextIn| == 0 {
          break;
        }
        if mode != Running && availInExpect == 0 {
          break;
        }
        progress := true;
        ghost var before := consumed;
        TakeByte();
        if mode != Running {
          availInExpect := availInExpect - 1;
        }
      }
    }

    /** One byte from the input into the front end. */
    method TakeByte()
      requires Shaped() && Accounted() && InStep() && Delivered() && state == Input
      requires nextIn != [] && bb.nblock < bb.nblockMAX && (mode != Running ==> availInExpect > 0)
      modifies this`nextIn, this`consumed, bb, bb.block, bb.inUse
      ensures Shaped() && Accounted() && InStep() && Delivered()
      ensures |nextIn| == |old(nextIn)| - 1 && consumed + nextIn == old(consumed + nextIn) && bb.stateInCh != NONE
    {
      hide Emitter.Valid, BlockBuilder.Valid, Expand, BytesOf, BlockBuilder.Content, BlockBuilder.Pending, Delivered, Bytes;
      ghost var c, x := bb.Content(), nextIn[0];
      bb.AddChar(nextIn[0]);
      FrontFacts();
      nextIn := nextIn[1..];
      Assoc(Expand(e.ledger.blocks), c, [x]);
      consumed := consumed + [x];
    }

    /** copy_output_until_stop. */
    method CopyOutputUntilStop() returns (progress: bool)
      requires Valid() && state == Output && Tallied()
      modifies this`availOut, this`nextOut, this`stateOutPos, this`sent
      ensures Valid() && (availOut == 0 || stateOutPos == e.w.numZ)
      ensures Tallied() && |nextOut| + availOut == old(|nextOut| + availOut) && |nextOut| >= |old(nextOut)|
      ensures progress <==> |nextOut| > |old(nextOut)|
      ensures progress <==> old(availOut) > 0 && old(stateOutPos) < e.w.numZ
      ensures stateOutPos - old(stateOutPos) == |nextOut| - |old(nextOut)|
    {
      hide Emitter.Valid, BlockBuilder.Valid, Expand, BytesOf, BlockBuilder.Pending, Shaped, Bytes;
      progress := false;
      OutputFacts();
      OutputBytes();
      while true
        invariant Shaped() && Accounted() && InStep() && Delivered()
        invariant Tallied() && |nextOut| + availOut == old(|nextOut| + availOut)
        invariant progress <==> |nextOut| > |old(nextOut)|
        invariant stateOutPos - old(stateOutPos) == |nextOut| - |old(nextOut)|
        decreases availOut
      {
        if availOut == 0 {
          break;
        }
        if stateOutPos >= e.w.numZ {
          break;
        }
        progress := true;
        ghost var z := e.w.zbits[..stateOutPos];
        ghost var x := e.w.zbits[stateOutPos];
        BytesAppend(sent, x);
        BytesAppend(z, x);
        assert e.w.zbits[..stateOutPos + 1] == z + [x];
        Assoc(e.past, Bytes(z), Bits(x, 8));
        nextOut := nextOut + [e.w.zbits[stateOutPos]];
        sent := sent + [x];
        stateOutPos := stateOutPos + 1;
        availOut := availOut - 1;
      }
    }

    lemma OutputBytes()
      requires Valid()
      ensures forall k :: 0 <= k < e.w.numZ && k < e.w.zbits.Length ==> e.w.zbits[k] < 256
    {
      hide BlockBuilder.Valid, Expand, BytesOf, BlockBuilder.Pending, Shaped, Bytes, Emitter.Valid;
      e.BytesOnly();
    }

    lemma OutputFacts()
      requires Valid() && state == Output
      ensures stateOutPos <= e.w.numZ <= e.w.zbits.Length
      ensures mode == Idle ==> stateOutPos == e.w.numZ
    {
      hide Emitter.Valid, BlockBuilder.Valid, Expand, BytesOf, BlockBuilder.Pending, Shaped, Bytes;
    }

    /** prepare_new_block, and back to taking input. */
    method PrepareNewBlock()
      requires Valid() && state == Output && !e.ledger.ended && stateOutPos == e.w.numZ
      modifies this`state, this`stateOutPos, bb, bb.inUse, e, e.w
      ensures Valid() && state == Input && bb.nblock == 0 && bb.runs == []
      ensures bb.stateInCh == old(bb.stateInCh) && e.ledger == old(e.ledger)
    {
      hide Emitter.Valid, BlockBuilder.Valid, Expand, Bytes, Printed, Shaped, BlockBuilder.Content, BytesOf;
      StepFacts();
      FrontFacts();
      e.Restart();
      bb.NewBlock();
      state, stateOutPos := Input, 0;
      FrontFacts();
      NothingYet(bb.runs);
      assert [] + bb.Pending() == bb.Pending();
      assert e.w.zbits[..0] == [];
    }

    /** The block is compressed: the last one of a flush or finish, or a full one. */
    method EmitBlock(isLast: bool)
      requires Valid() && state == Input && (isLast ==> bb.stateInCh == NONE)
      requires isLast <==> mode == Finishing && availInExpect == 0 && bb.stateInCh == NONE
      requires bb.nblock >= bb.nblockMAX || (mode in {Flushing, Finishing} && availInExpect == 0 && bb.stateInCh == NONE)
      modifies this`state, this`cuts, e, e.Scratch, bb.block
      ensures Valid() && state == Output && stateOutPos == 0
      ensures cuts == old(cuts) || (|cuts| == |old(cuts)| + 1 && Ending())
      ensures bb.stateInCh == old(bb.stateInCh)
      ensures isLast || bb.nblock > 0 ==> e.w.numZ > 0
    {
      hide *;
      EmitStart();
      ghost var b, blocks, pending := bb.block[..bb.nblock], e.ledger.blocks, bb.Pending();
      ghost var cuts0 := cuts;
      e.CompressBlock(bb, isLast);
      assert bb.block[..bb.nblock] == b by {
        assert bb.block[..][..bb.nblock] == b;
      }
      state := Output;
      if bb.nblock < bb.nblockMAX {
        cuts := cuts + [|blocks|];
        EndingNow();
      }
      FullOn(blocks, b, cuts0);
      EmitEnd(blocks, b, pending);
    }

    lemma EndingNow()
      requires state == Output && mode in {Flushing, Finishing} && availInExpect == 0 && bb.stateInCh == NONE
      ensures Ending()
    {
    }

    lemma FullOn(blocks: seq<seq<byte>>, b: seq<byte>, cuts0: seq<nat>)
      requires forall k: nat :: k < |blocks| && k !in cuts0 ==> |blocks[k]| >= bb.nblockMAX
      requires e.ledger.blocks == blocks + if bb.nblock > 0 then [b] else []
      requires |b| == bb.nblock && cuts == cuts0 + if bb.nblock < bb.nblockMAX then [|blocks|] else []
      ensures Full()
    {
    }

    lemma EmitStart()
      requires Valid() && state == Input
      ensures bb.Valid() && e.Valid() && e.Foreign(bb) && bb.nblockMAX == 100000 * e.level - 19 && Shaped()
      ensures !e.ledger.ended && e.w.numZ == 0 && stateOutPos == 0 && e.blockNo >= 1
      ensures bb.block.Length == 100000 * e.level + OVERSHOOT
      ensures (e.ledger.headed <==> e.blockNo > 1) && bb.nblock <= bb.block.Length && bb.PendingOk()
      ensures {this as object, bb as object, e as object, bb.inUse as object} !! e.Scratch + {bb.block as object}
      ensures consumed == Expand(e.ledger.blocks) + UnRle(bb.block[..bb.nblock]).bytes + bb.Pending()
      ensures forall k: nat :: k < |e.ledger.blocks| && k !in cuts ==> |e.ledger.blocks[k]| >= bb.nblockMAX
      ensures bb.nblock == 0 ==> UnRle(bb.block[..bb.nblock]).bytes == []
      ensures bb.nblock > 0 && (mode == Running || availInExpect > 0) ==> bb.stateInCh != NONE
      ensures Bytes(sent) == e.past && mode != Idle && forall i :: 0 <= i < |sent| ==> sent[i] < 256
    {
      hide Emitter.Valid, BlockBuilder.Valid, Expand, Bytes, BytesOf, UnRle;
      FrontFacts();
      BlockStands(bb.runs, bb.block[..bb.nblock]);
      Assoc(Expand(e.ledger.blocks), BytesOf(bb.runs), bb.Pending());
      assert e.w.zbits[..0] == [];
      assert Bytes([]) == [] by { NoBytesWritten(); }
      assert e.past + [] == e.past;
    }

    lemma EmitEnd(blocks: seq<seq<byte>>, b: seq<byte>, pending: seq<byte>)
      requires Shaped() && bb.Valid() && e.Valid() && state == Output && bb.PendingOk() && pending == bb.Pending() && Full()
      requires e.ledger.headed && e.blockNo >= 1 && stateOutPos == 0 && mode != Idle
      requires mode == Running ==> bb.stateInCh != NONE
      requires e.ledger.ended <==> mode == Finishing && availInExpect == 0 && bb.stateInCh == NONE
      requires e.ledger.blocks == blocks + if bb.nblock > 0 then [b] else []
      requires consumed == Expand(blocks) + UnRle(b).bytes + pending
      requires bb.nblock == 0 ==> UnRle(b).bytes == []
      requires Bytes(sent) == e.past && forall i :: 0 <= i < |sent| ==> sent[i] < 256
      ensures Valid()
    {
      hide Emitter.Valid, BlockBuilder.Valid, Expand, Bytes, UnRle, Shaped, Full;
      EmitterFacts();
      assert e.w.zbits[..0] == [];
      assert Bytes([]) == [] by { NoBytesWritten(); }
      assert e.past + [] == e.past;
      if bb.nblock > 0 {
        ExpandAppend(blocks, b);
      } else {
        assert blocks + [] == blocks && Expand(blocks) + [] == Expand(blocks);
      }
    }

    lemma EmitterFacts()
      requires e.Valid()
      ensures e.w.numZ <= e.w.zbits.Length
    {
      hide Printed, Bytes;
    }

    /** isempty_RL and the rest of what tells whether handle_compress may stop. */
    ghost predicate Stopped()
      reads this, bb, e, e.w
    {
      match state
      case Output => stateOutPos < e.w.numZ || (mode == Finishing && availInExpect == 0 && bb.stateInCh == NONE)
      case Input =>
        && nextIn == []
        && (mode == Running || (mode == Flushing && availInExpect == 0 && bb.stateInCh == NONE && bb.runs == []))
    }

    /** The first half of handle_compress's loop: hand out, and prepare a new block. */
    method OutputHalf() returns (progress: bool, stop: bool)
      requires Valid() && Tallied() && mode != Idle && state == Output && (mode != Running ==> availInExpect == |nextIn|)
      modifies this`state, this`stateOutPos, this`availOut, this`nextOut, this`sent, bb, bb.inUse, e, e.w
      ensures Valid() && Tallied() && bb.stateInCh == old(bb.stateInCh)
      ensures |nextOut| + availOut == old(|nextOut| + availOut) && |nextOut| >= |old(nextOut)|
      ensures progress <==> |nextOut| > |old(nextOut)|
      ensures stop ==> Stopped() && (state == Output && stateOutPos < e.w.numZ ==> availOut == 0)
      ensures OutputStep(old(Now()), Now()) && (!stop ==> Drained(mode, old(Now()), Now()))
      ensures !stop ==> state == Input && bb.nblock == 0
      ensures !stop ==> mode == Running || availInExpect > 0 || bb.stateInCh != NONE
      ensures stop && state == Input ==> mode == Flushing
      ensures old(Ending()) ==> stop
    {
      hide *;
      ghost var b := Now();
      NowState();
      EndingMeans();
      progress := CopyOutputUntilStop();
      StepFacts();
      NowState();
      OutputStepped(b, Now());
      stop := true;
      if stateOutPos < e.w.numZ {
        StoppedNow();
        return;
      }
      if mode == Finishing && availInExpect == 0 && bb.EmptyRl() {
        StoppedNow();
        return;
      }
      PrepareNewBlock();
      StepFacts();
      NowState();
      OutputStepped(b, Now());
      if mode == Flushing && availInExpect == 0 && bb.EmptyRl() {
        StoppedAfterFlush();
        return;
      }
      stop := false;
      DrainedNow(mode, b, Now());
    }

    lemma EndingMeans()
      ensures Ending() <==>
        state == Output && mode in {Flushing, Finishing} && availInExpect == 0 && bb.stateInCh == NONE
    {
    }

    lemma StoppedAfterFlush()
      requires state == Input && mode == Flushing && availInExpect == |nextIn| == 0 && bb.stateInCh == NONE
        && bb.runs == []
      ensures Stopped()
    {
    }

    /** The second half: take input, and compress a block that is full or must be ended. */
    method InputHalf() returns (progress: bool, stop: bool)
      requires Valid() && state == Input && mode != Idle && (mode != Running ==> availInExpect == |nextIn|)
      modifies this`state, this`nextIn, this`availInExpect, this`consumed, this`cuts, bb, bb.block, bb.inUse, e, e.Scratch
      ensures Valid() && (mode != Running ==> availInExpect == |nextIn|)
      ensures cuts == old(cuts) || (|cuts| == |old(cuts)| + 1 && Ending() && !stop)
      ensures consumed + nextIn == old(consumed + nextIn) && |nextIn| <= |old(nextIn)|
      ensures progress <==> |nextIn| < |old(nextIn)|
      ensures stop ==> Stopped() && state == Input
      ensures |nextIn| == |old(nextIn)| && old(bb.stateInCh) == NONE ==> bb.stateInCh == NONE
      ensures !stop ==> state == Output
      ensures InputStep(mode, bb.nblockMAX, old(Now()), Now())
      ensures !stop && !progress ==> nextIn == [] || old(bb.nblock) > 0
      ensures !stop && !progress ==> bb.stateInCh == NONE || (bb.stateInCh == old(bb.stateInCh) && old(bb.nblock) > 0)
    {
      hide *;
      ghost var c := Now();
      NowState();
      progress := CopyInputUntilStop();
      StepFacts();
      stop := false;
      if mode != Running && availInExpect == 0 {
        FlushFront();
        EmitBlock(mode == Finishing);
      } else if bb.nblock >= bb.nblockMAX {
        EmitBlock(false);
      } else if |nextIn| == 0 {
        StoppedNow();
        stop := true;
      }
      NowState();
      InputStepped(mode, bb.nblockMAX, c, Now());
    }

    /** handle_compress. */
    method HandleCompress() returns (progress: bool)
      requires Valid() && AtRest() && Tallied() && mode != Idle && (mode != Running ==> availInExpect == |nextIn|)
      modifies this`state, this`availInExpect, this`stateOutPos, this`nextIn, this`availOut, this`nextOut,
               this`consumed, this`sent, this`cuts, bb, bb.block, bb.inUse, e, e.Scratch
      ensures Valid() && Tallied() && (mode != Running ==> availInExpect == |nextIn|) && Stopped()
      ensures CutsFrom(old(cuts)) && (old(Ending()) ==> cuts == old(cuts) && bb.stateInCh == NONE)
      ensures consumed + nextIn == old(consumed + nextIn) && |nextIn| <= |old(nextIn)|
      ensures |nextOut| + availOut == old(|nextOut| + availOut)
      ensures progress <==> Moved(old(Now()), Now())
      ensures state == Output && stateOutPos < e.w.numZ ==> availOut == 0
      ensures Done(mode, bb.nblockMAX, old(Now()), Now())
    {
      hide *;
      ghost var a := Now();
      CallBegins(a);
      StepFacts();
      progress := false;
      CutsMean(cuts);
      EndingMeans();
      var p, stop := false, false;
      while !stop
        invariant Valid() && Tallied() && (mode != Running ==> availInExpect == |nextIn|)
        invariant consumed + nextIn == old(consumed + nextIn) && |nextIn| <= |old(nextIn)|
        invariant |nextOut| + availOut == old(|nextOut| + availOut) && |nextOut| >= |old(nextOut)|
        invariant progress <==> |nextIn| < |old(nextIn)| || |nextOut| > |old(nextOut)|
        invariant !stop ==> Begun(mode, bb.nblockMAX, a, Now())
        invariant stop ==> Stopped() && Done(mode, bb.nblockMAX, a, Now())
        invariant stop && state == Output && stateOutPos < e.w.numZ ==> availOut == 0
        invariant CutsFrom(old(cuts)) && (!stop && cuts != old(cuts) ==> Ending())
        invariant old(Ending()) ==> cuts == old(cuts) && bb.stateInCh == NONE && (!stop ==> Ending())
        decreases !stop, |nextIn|, if bb.stateInCh == NONE then 0 else 1, if state == Input then 1 else 0
      {
        EndingMeans();
        p, stop := HandleOnce(a);
        progress := progress || p;
        CutsIf(old(cuts));
        CutsMean(old(cuts));
        EndingMeans();
      }
      MovedMeans(a, Now());
    }

    /** At most one block has ended a flush or the stream, and then all input is in blocks. */
    ghost predicate CutsFrom(cuts0: seq<nat>)
      reads this`cuts, this`mode, this`availInExpect, bb`stateInCh
    {
      || cuts == cuts0
      || (|cuts| == |cuts0| + 1 && mode in {Flushing, Finishing} && availInExpect == 0 && bb.stateInCh == NONE)
    }

    lemma CutsIf(cuts0: seq<nat>)
      ensures |cuts| == |cuts0| + 1 && mode in {Flushing, Finishing} && availInExpect == 0 && bb.stateInCh == NONE ==>
        CutsFrom(cuts0)
    {
    }

    lemma CutsMean(cuts0: seq<nat>)
      ensures cuts == cuts0 ==> CutsFrom(cuts0)
      ensures |cuts| == |cuts0| + 1 && Ending() ==> CutsFrom(cuts0)
      ensures CutsFrom(cuts0) ==> |cuts| <= |cuts0| + 1
      ensures CutsFrom(cuts0) && cuts != cuts0 ==>
        |cuts| == |cuts0| + 1 && mode in {Flushing, Finishing} && availInExpect == 0 && bb.stateInCh == NONE
      ensures CutsFrom(cuts0) && cuts != cuts0 && state == Output ==> Ending()
    {
    }

    /** One turn of handle_compress's loop. */
    method HandleOnce(ghost a: Standing) returns (progress: bool, stop: bool)
      requires Valid() && Tallied() && mode != Idle && (mode != Running ==> availInExpect == |nextIn|)
      requires Begun(mode, bb.nblockMAX, a, Now())
      modifies this`state, this`availInExpect, this`stateOutPos, this`nextIn, this`availOut, this`nextOut,
               this`consumed, this`sent, this`cuts, bb, bb.block, bb.inUse, e, e.Scratch
      ensures Valid() && Tallied() && (mode != Running ==> availInExpect == |nextIn|)
      ensures old(Ending()) ==> stop && cuts == old(cuts)
      ensures old(Ending()) ==> availInExpect == old(availInExpect) && bb.stateInCh == old(bb.stateInCh)
      ensures cuts == old(cuts) || (|cuts| == |old(cuts)| + 1 && Ending() && !stop)
      ensures consumed + nextIn == old(consumed + nextIn) && |nextIn| <= |old(nextIn)|
      ensures |nextOut| + availOut == old(|nextOut| + availOut) && |nextOut| >= |old(nextOut)|
      ensures progress <==> |nextIn| < |old(nextIn)| || |nextOut| > |old(nextOut)|
      ensures stop ==> Stopped() && Done(mode, bb.nblockMAX, a, Now())
      ensures stop && state == Output && stateOutPos < e.w.numZ ==> availOut == 0
      ensures !stop ==> Begun(mode, bb.nblockMAX, a, Now()) && state == Output
      ensures !stop && |nextIn| == |old(nextIn)| && old(bb.stateInCh) == NONE ==>
        bb.stateInCh == NONE && old(state) == Input
      ensures !stop && |nextIn| == |old(nextIn)| && old(bb.stateInCh) != NONE ==>
        bb.stateInCh == NONE || old(state) == Input
    {
      hide *;
      StepFacts();
      EndingMeans();
      ghost var b := Now();
      NowState();
      progress := false;
      if state == Output {
        progress, stop := OutputHalf();
        if stop {
          StopMeans();
          NowState();
          OutputEnds(mode, bb.nblockMAX, a, b, Now());
          return;
        }
        StepFacts();
      }
      ghost var c := Now();
      var progressIn: bool;
      progressIn, stop := InputHalf();
      progress := progress || progressIn;
      NowState();
      if stop {
        InputEnds(mode, bb.nblockMAX, a, b, c, Now());
      } else {
        RoundOn(mode, bb.nblockMAX, a, b, c, Now());
      }
    }

    lemma CallBegins(a: Standing)
      requires AtRest() && mode != Idle && a == Now()
      ensures Begun(mode, bb.nblockMAX, a, a) && a.input == |nextIn| && a.out == |nextOut|
    {
    }

    lemma NowState()
      ensures Now().state == state && Now().input == |nextIn| && Now().out == |nextOut|
      ensures Now().pos == stateOutPos && Now().num == e.w.numZ && Now().nblock == bb.nblock && Now().room == availOut
      ensures Now().runs == if bb.stateInCh == NONE then 0 else 1
    {
    }

    lemma MovedMeans(a: Standing, b: Standing)
      ensures Moved(a, b) <==> b.input < a.input || b.out > a.out
      ensures b == Now() ==> b.input == |nextIn| && b.out == |nextOut|
    {
    }

    /** What the loop needs to know of a valid state. */
    lemma StepFacts()
      requires Valid()
      ensures bb.EmptyRl() <==> bb.stateInCh == NONE
      ensures state == Output ==> (e.ledger.ended <==> mode in {Finishing, Idle} && availInExpect == 0 && bb.stateInCh == NONE)
      ensures state == Output ==> stateOutPos <= e.w.numZ && (mode == Running ==> bb.stateInCh != NONE)
      ensures state == Input ==> !e.ledger.ended
      ensures state == Input && (mode == Running || availInExpect > 0) && bb.nblock >= bb.nblockMAX ==>
        bb.stateInCh != NONE && bb.nblock > 0
      ensures 0 < bb.nblockMAX && e.w in e.Scratch && e.w.zbits in e.Scratch
      ensures {this as object, e as object, bb as object, bb.block as object, bb.inUse as object} !! e.Scratch
    {
      hide Emitter.Valid, BlockBuilder.Valid, Expand, Bytes, BytesOf, Printed;
      FrontFacts();
    }

    lemma StoppedNow()
      requires state == Output ==> stateOutPos < e.w.numZ || (mode == Finishing && availInExpect == 0 && bb.stateInCh == NONE)
      requires state == Input ==> nextIn == []
      requires state == Input ==> mode == Running
      ensures Stopped()
    {
    }

    /** flush_RL. */
    method FlushFront()
      requires Valid() && state == Input && mode != Running && availInExpect == 0
      modifies bb, bb.block, bb.inUse
      ensures Valid() && bb.stateInCh == NONE
    {
      hide Emitter.Valid, BlockBuilder.Valid, Expand, Bytes, Printed, BytesOf, BlockBuilder.Content;
      bb.FlushRl();
    }

    /** The output so far is the whole of a stream for all the input so far. */
    ghost predicate Complete()
      reads this, e, e.w, e.w.zbits
    {
      && e.ledger.ended && Printed(level, e.ledger, e.combinedCRC, Bytes(sent))
      && consumed == Expand(e.ledger.blocks)
    }

    lemma CompleteNow()
      requires Valid() && state == Output && e.ledger.ended && stateOutPos == e.w.numZ
      ensures Complete()
    {
      hide Printed, BlockBuilder.Valid, Expand, Packed, Bytes;
      FrontFacts();
      assert Expand(e.ledger.blocks) + [] == Expand(e.ledger.blocks);
      assert e.w.Written() == Bytes(e.w.zbits[..e.w.numZ]) + [] == Bytes(e.w.zbits[..stateOutPos]);
      assert e.past + e.w.Written() == Bytes(sent);
    }

    /** Everything taken so far is in emitted blocks, and all whole bytes of them are out. */
    ghost predicate FlushedOut()
      reads this, bb, e, e.w
    {
      state == Input && bb.stateInCh == NONE && bb.runs == [] && consumed == Expand(e.ledger.blocks)
    }

    /** The caller's buffers of this call. */
    method StartCall(input: seq<byte>, room: nat)
      requires Valid() && AtRest()
      modifies this`nextIn, this`availOut, this`nextOut, this`base
      ensures AtRest() && Now() == old(Offered(input, room))
      ensures Valid() && Tallied() && nextIn == input && availOut == room && nextOut == [] && base == sent
    {
      hide Emitter.Valid, BlockBuilder.Valid, Expand, Bytes;
      nextIn, availOut, nextOut, base := input, room, [], sent;
    }

    method SwitchTo(m: Mode)
      requires Valid() && AtRest() && mode == Running && m in {Flushing, Finishing}
      modifies this`mode, this`availInExpect
      ensures AtRest() && Now() == old(Now())
      ensures Valid() && mode == m && availInExpect == |nextIn|
    {
      hide Emitter.Valid, BlockBuilder.Valid, Expand, Bytes;
      mode, availInExpect := m, |nextIn|;
    }

    /** The flush is over. */
    method BackToRunning()
      requires Valid() && AtRest() && Stopped() && mode == Flushing && availInExpect == |nextIn| == 0
      requires state == Output ==> stateOutPos == e.w.numZ
      modifies this`mode
      ensures Valid() && AtRest() && mode == Running && FlushedOut()
    {
      hide Emitter.Valid, Bytes;
      mode := Running;
      FrontFacts();
      assert BytesOf([]) == [];
      assert Expand(e.ledger.blocks) + [] == Expand(e.ledger.blocks);
    }

    method GoIdle()
      requires Valid() && Complete() && state == Output && stateOutPos == e.w.numZ
      requires mode == Finishing && availInExpect == 0 && bb.stateInCh == NONE
      modifies this`mode
      ensures Valid() && AtRest() && mode == Idle && Complete()
    {
      hide Emitter.Valid, BlockBuilder.Valid, Expand, Bytes, Printed;
      mode := Idle;
    }

    lemma StopMeans()
      requires Valid() && Stopped() && Tallied()
      ensures sent == base + nextOut
      ensures state == Input ==> nextIn == [] && mode != Finishing && stateOutPos == e.w.numZ
      ensures state == Input && mode == Flushing ==> availInExpect == 0 && bb.stateInCh == NONE
      ensures state == Output ==> stateOutPos < e.w.numZ || (mode == Finishing && availInExpect == 0 && bb.stateInCh == NONE)
    {
    }

    /** Taking nothing leaves the input as it was. */
    lemma SameLength(a: seq<byte>, b: seq<byte>, c: seq<byte>, d: seq<byte>)
      requires a + b == c + d && |b| == |d|
      ensures b == d && a == c
    {
      assert (a + b)[|a|..] == b && (c + d)[|c|..] == d && (a + b)[..|a|] == a && (c + d)[..|c|] == c;
    }

    /** How a round ends, for the answers of the calls. */
    lemma RoundEnds(a: Standing)
      requires Valid() && Stopped() && Done(mode, bb.nblockMAX, a, Now())
      requires mode in {Running, Flushing, Finishing} && (mode != Running ==> availInExpect == |nextIn|)
      ensures Moved(a, Now()) <==> |nextIn| < a.input || |nextOut| > a.out
      ensures mode != Flushing ==> (Moved(a, Now()) <==> Moves(mode, a))
      ensures a.room > 0 && state == Output ==> Closer(a, Now())
      ensures mode != Finishing || MoreToDo() || !Moved(a, Now()) ==> AtRest()
      ensures mode == Running && nextIn != [] ==> state == Output
    {
      hide Emitter.Valid, BlockBuilder.Valid, Expand, Bytes, BytesOf, Printed, Shaped, Closer, Delivered;
    }

    /** What a round of a flush or of the end of the stream is answered by. */
    ghost predicate MoreToDo()
      reads this, bb, e, e.w
    {
      nextIn != [] || bb.stateInCh != NONE || stateOutPos < e.w.numZ
    }

    lemma NothingLeft()
      requires mode in {Flushing, Finishing} && availInExpect == |nextIn|
      ensures MoreToDo() <==> availInExpect > 0 || bb.stateInCh != NONE || stateOutPos < e.w.numZ
    {
    }

    /** One more round of a flush. */
    method FlushStep(action: Action, ghost a: Standing, ghost input: seq<byte>, ghost before: seq<byte>) returns (code: Code)
      requires Valid() && Tallied() && AtRest() && mode == Flushing && nextIn == input && nextOut == [] && a == Now()
        && a.room == availOut && consumed == before
      modifies this, bb, bb.block, bb.inUse, e, e.Scratch
      ensures Valid() && AtRest() && base == old(base) && sent == base + nextOut && |nextOut| + availOut == a.room
      ensures consumed + nextIn == before + input && |nextIn| <= |input|
      ensures code in {SequenceError, FlushOk, RunOk}
      ensures code == SequenceError <==> action != Flush || old(availInExpect) != |input|
      ensures code == SequenceError ==>
        nextIn == input && nextOut == [] && mode == Flushing && availInExpect == old(availInExpect)
      ensures code == FlushOk ==> mode == Flushing && availOut == 0 && availInExpect == |nextIn| && MoreToDo()
      ensures code == FlushOk && a.room > 0 ==> Closer(a, Now())
      ensures code == RunOk ==> mode == Running && nextIn == [] && FlushedOut()
      ensures |cuts| <= |old(cuts)| + 1 && (cuts != old(cuts) && code == FlushOk ==> Ending())
      ensures action != Flush ==> cuts == old(cuts)
      ensures old(Ending()) ==> cuts == old(cuts) && (code == FlushOk ==> Ending())
    {
      hide *;
      StepFacts();
      NowState();
      EndingMeans();
      if action != Flush || availInExpect != |nextIn| {
        TallyMeans();
        return SequenceError;
      }
      var progress := HandleCompress();
      StepFacts();
      StopMeans();
      RoundEnds(a);
      NothingLeft();
      CutsMean(old(cuts));
      EndingMeans();
      if availInExpect > 0 || !bb.EmptyRl() || stateOutPos < e.w.numZ {
        return FlushOk;
      }
      BackToRunning();
      return RunOk;
    }

    /** One more round of the end of the stream. */
    method FinishStep(action: Action, ghost a: Standing, ghost input: seq<byte>, ghost before: seq<byte>) returns (code: Code)
      requires Valid() && Tallied() && AtRest() && mode == Finishing && nextIn == input && nextOut == [] && a == Now()
        && a.room == availOut && consumed == before
      modifies this, bb, bb.block, bb.inUse, e, e.Scratch
      ensures Valid() && AtRest() && base == old(base) && sent == base + nextOut && |nextOut| + availOut == a.room
      ensures consumed + nextIn == before + input && |nextIn| <= |input|
      ensures code in {SequenceError, FinishOk, StreamEnd}
      ensures code == SequenceError <==> action != Finish || old(availInExpect) != |input| || !Moves(Finishing, a)
      ensures code == SequenceError ==>
        nextIn == input && nextOut == [] && mode == Finishing && availInExpect == old(availInExpect)
      ensures code == FinishOk ==> mode == Finishing && availOut == 0 && availInExpect == |nextIn| && MoreToDo()
      ensures code == FinishOk && a.room > 0 ==> Closer(a, Now())
      ensures code == StreamEnd ==> nextIn == [] && mode == Idle && Complete()
      ensures |cuts| <= |old(cuts)| + 1 && (cuts != old(cuts) && code == FinishOk ==> Ending())
      ensures action != Finish ==> cuts == old(cuts)
      ensures old(Ending()) ==> cuts == old(cuts) && (code == FinishOk ==> Ending())
    {
      hide *;
      StepFacts();
      NowState();
      EndingMeans();
      if action != Finish || availInExpect != |nextIn| {
        TallyMeans();
        return SequenceError;
      }
      var progress := HandleCompress();
      StepFacts();
      StopMeans();
      RoundEnds(a);
      NothingLeft();
      CutsMean(old(cuts));
      EndingMeans();
      if !progress {
        SameLength(consumed, nextIn, before, input);
        return SequenceError;
      }
      if availInExpect > 0 || !bb.EmptyRl() || stateOutPos < e.w.numZ {
        return FinishOk;
      }
      CompleteNow();
      GoIdle();
      return StreamEnd;
    }

    lemma TallyMeans()
      requires Tallied()
      ensures sent == base + nextOut
    {
    }

    /** Where a call with that input and room starts. */
    ghost function Offered(input: seq<byte>, room: nat): Standing
      reads this, bb, e, e.w
    {
      Now().(input := |input|, out := 0, room := room)
    }

    /** The call is not the one that the mode of the compressor allows. */
    ghost predicate OutOfTurn(action: Action, input: seq<byte>)
      reads this
    {
      || mode == Idle
      || (mode == Flushing && (action != Flush || availInExpect != |input|))
      || (mode == Finishing && (action != Finish || availInExpect != |input|))
    }

    /** There is no room, and no input that could be taken without handing bytes out first. */
    ghost predicate NoWay(input: seq<byte>, room: nat)
      reads this
    {
      room == 0 && (state == Output || input == [])
    }

    /** A block is being handed out and there is no room, or none is and there is no input. */
    ghost predicate Stuck(input: seq<byte>, room: nat)
      reads this
    {
      if state == Output then room == 0 else input == []
    }

    /** BZ2_bzCompress, given avail_in bytes of input and avail_out bytes of room. */
    method BzCompress(action: Action, input: seq<byte>, room: nat) returns (code: Code)
      requires Valid() && AtRest()
      modifies this, bb, bb.block, bb.inUse, e, e.Scratch
      ensures Valid() && AtRest() && consumed + nextIn == old(consumed) + input && |nextIn| <= |input|
      ensures sent == old(sent) + nextOut && |nextOut| + availOut == room
      ensures code == SequenceError <==> old(OutOfTurn(action, input)) || (action == Finish && old(NoWay(input, room)))
      ensures code == ParamError <==>
        !old(OutOfTurn(action, input)) && (action == Other || (action == Action.Run && old(Stuck(input, room))))
      ensures match action
        case Run => code in {SequenceError, ParamError, RunOk}
        case Flush => code in {SequenceError, FlushOk, RunOk}
        case Finish => code in {SequenceError, FinishOk, StreamEnd}
        case Other => code in {SequenceError, ParamError}
      ensures code in {SequenceError, ParamError} ==> nextIn == input && nextOut == []
      ensures old(OutOfTurn(action, input)) ==> mode == old(mode) && availInExpect == old(availInExpect)
      ensures code == SequenceError && !old(OutOfTurn(action, input)) ==> mode == Finishing && availInExpect == |input|
      ensures code == ParamError ==> mode == Running
      ensures code == StreamEnd ==> nextIn == [] && mode == Idle && Complete()
      ensures code == FinishOk ==> mode == Finishing && availOut == 0 && availInExpect == |nextIn| && MoreToDo()
      ensures code == FlushOk ==> mode == Flushing && availOut == 0 && availInExpect == |nextIn| && MoreToDo()
      ensures code == RunOk ==> mode == Running && (action == Flush ==> nextIn == [] && FlushedOut())
      ensures code == RunOk && nextIn != [] ==> availOut == 0
      ensures room > 0 && (code in {FinishOk, FlushOk} || (code == RunOk && nextIn != [])) ==>
        Closer(old(Offered(input, room)), Now())
      ensures |cuts| <= |old(cuts)| + 1 && (action in {Action.Run, Other} ==> cuts == old(cuts))
      ensures cuts != old(cuts) && code in {FinishOk, FlushOk} ==> Ending()
      ensures old(Ending()) ==> cuts == old(cuts) && (code in {FinishOk, FlushOk} ==> Ending())
    {
      hide *;
      EndingMeans();
      ghost var a := Offered(input, room);
      CallStarts(action, input, room);
      StartCall(input, room);
      TallyMeans();
      StepFacts();
      if mode == Idle {
        return SequenceError;
      }
      if mode == Running {
        if action == Action.Run {
          var progress := HandleCompress();
          StopMeans();
          StepFacts();
          RoundEnds(a);
          CutsMean(old(cuts));
          if !progress { SameLength(consumed, nextIn, old(consumed), input); }
          return if progress then RunOk else ParamError;
        }
        if action == Other {
          return ParamError;
        }
        SwitchTo(if action == Flush then Flushing else Finishing);
      }
      EndingMeans();
      if mode == Flushing {
        code := FlushStep(action, a, input, old(consumed));
      } else {
        code := FinishStep(action, a, input, old(consumed));
      }
    }

    lemma CallStarts(action: Action, input: seq<byte>, room: nat)
      ensures OutOfTurn(action, input) <==>
        || mode == Idle
        || (mode == Flushing && (action != Flush || availInExpect != |input|))
        || (mode == Finishing && (action != Finish || availInExpect != |input|))
      ensures Moves(Running, Offered(input, room)) <==> !Stuck(input, room)
      ensures Moves(Finishing, Offered(input, room)) <==> !NoWay(input, room)
      ensures Offered(input, room).room == room && Offered(input, room).input == |input| && Offered(input, room).out == 0
    {
    }
  }

  /** BZ2_bzCompressInit, which refuses (BZ_PARAM_ERROR) levels outside 1..9 and work factors outside
      0..250. */
  method BzCompressInit(blockSize100k: int, workFactor: int) returns (s: EState?)
    ensures s == null <==> !(1 <= blockSize100k <= 9 && 0 <= workFactor <= 250)
    ensures s != null ==> fresh(s) && s.Valid() && s.AtRest() && s.mode == Running && s.level == blockSize100k
    ensures s != null ==> s.consumed == [] && s.sent == [] && s.cuts == []
    ensures s != null ==> s.e.workFactor == if workFactor == 0 then 30 else workFactor
    ensures s != null ==> fresh({s.bb as object, s.bb.block as object, s.bb.inUse as object, s.e as object}) && fresh(s.e.Scratch)
  {
    hide *;
    if blockSize100k < 1 || blockSize100k > 9 || workFactor < 0 || workFactor > 250 {
      return null;
    }
    s := new EState(blockSize100k, workFactor);
  }

  lemma OvershootIs()
    ensures OVERSHOOT == 34
  {
  }

  lemma BlockStands(runs: seq<RunEncoder.Run>, b: seq<byte>)
    requires Alternating(runs) && PairsOf(runs) == b
    ensures UnRle(b).bytes == BytesOf(runs)
    ensures b == [] ==> BytesOf(runs) == []
  {
    hide UnRle, BytesOf;
    BlockDecodes(runs);
    if b == [] {
      assert UnRle([]).bytes == [] by { NoBytes(); }
    }
  }

  lemma NoBytesWritten()
    ensures Bytes([]) == []
  {
  }

  lemma NoBytes()
    ensures UnRle([]) == Expansion([], false)
  {
  }

  lemma ExpandAppend(blocks: seq<seq<byte>>, b: seq<byte>)
    ensures Expand(blocks + [b]) == Expand(blocks) + UnRle(b).bytes
  {
    assert (blocks + [b])[..|blocks|] == blocks;
  }

  lemma NoPairs(runs: seq<RunEncoder.Run>)
    requires runs == []
    ensures Alternating(runs) && PairsOf(runs) == []
  {
  }

  lemma NothingYet(runs: seq<RunEncoder.Run>)
    requires runs == []
    ensures Alternating(runs) && BytesOf(runs) == [] && Expand([]) == [] && Bytes([]) == []
  {
  }
}
