/** Callers of BZ2_bzCompress: input in any pieces, and calls repeated until each piece is done with
    (dep/bzip2/bzlib.c:387-441, 936-963, 1005-1025). */
module WholeCompression {
  import opened Sequences
  import opened Rotations
  import opened StreamCompressor
  import opened CompressCalls

  /** A caller has nothing more to call for. */
  predicate Over(action: Action, code: Code, rest: seq<byte>) {
    match action
    case Run => rest == []
    case Flush => code == RunOk
    case Finish => code == StreamEnd
    case Other => true
  }

  /** A call of an action that goes on. */
  ghost predicate Ongoing(s: EState, action: Action, rest: seq<byte>)
    reads s
  {
    match action
    case Run => s.mode == Running
    case Flush => s.mode == Running || (s.mode == Flushing && s.availInExpect == |rest|)
    case Finish => s.mode == Running || (s.mode == Finishing && s.availInExpect == |rest|)
    case Other => false
  }

  /** Bytes of the current block that are still to be handed out. */
  ghost function Left(a: Standing): nat {
    if a.pos < a.num then a.num - a.pos else 0
  }

  lemma InTurn(s: EState, action: Action, rest: seq<byte>, room: nat)
    requires s.AtRest() && Ongoing(s, action, rest) && room > 0 && (action == Action.Run ==> rest != [])
    ensures !s.OutOfTurn(action, rest) && !s.NoWay(rest, room) && !(action == Action.Run && s.Stuck(rest, room))
    ensures var a := s.Offered(rest, room); var b := s.Now();
      a.input == |rest| && a.state == b.state && Left(a) == Left(b) && a.runs == b.runs && (a.state == Output ==> Left(a) > 0)
  {
  }

  lemma CloserMeans(a: Standing, b: Standing)
    requires Closer(a, b) && (a.state == Output ==> Left(a) > 0)
    ensures b.input <= a.input
    ensures b.input == a.input ==> b.runs <= a.runs
    ensures b.input == a.input && b.runs == a.runs ==> b.state == Output
    ensures b.input == a.input && b.runs == a.runs && a.state == Output ==> Left(b) < Left(a)
  {
  }

  lemma WhenOver(s: EState, action: Action, code: Code, rest: seq<byte>)
    ensures Over(Action.Run, code, rest) <==> rest == []
    ensures Over(Flush, code, rest) <==> code == RunOk
    ensures Over(Finish, code, rest) <==> code == StreamEnd
    ensures s.mode == Running && action != Other ==> Ongoing(s, action, rest)
    ensures s.mode == Flushing && s.availInExpect == |rest| ==> Ongoing(s, Flush, rest)
    ensures s.mode == Finishing && s.availInExpect == |rest| ==> Ongoing(s, Finish, rest)
  {
  }

  lemma SentBytes(s: EState)
    requires s.Valid()
    ensures forall i :: 0 <= i < |s.sent| ==> s.sent[i] < 256
  {
  }

  /** One piece of the input: calls with what is left of it, whatever room each of them has, until
      the piece is taken, the flush is over, or the stream has ended. */
  method Give(s: EState, action: Action, piece: seq<byte>, rooms: nat -> nat, first: nat) returns (out: seq<byte>, calls: nat)
    requires s.Valid() && s.AtRest() && s.mode == Running && action != Other && forall n :: 0 < rooms(n)
    modifies s, s.bb, s.bb.block, s.bb.inUse, s.e, s.e.Scratch
    ensures s.Valid() && s.AtRest() && s.consumed == old(s.consumed) + piece && s.sent == old(s.sent) + out
    ensures if action == Finish then s.mode == Idle && s.Complete() else s.mode == Running
    ensures action == Flush ==> s.FlushedOut()
    ensures |s.cuts| <= |old(s.cuts)| + if action == Action.Run then 0 else 1
  {
    hide *;
    ghost var cuts0 := s.cuts;
    NotEnding(s);
    ghost var consumed0, sent0 := s.consumed, s.sent;
    var rest, more := piece, !(action == Action.Run && piece == []);
    out, calls := [], first;
    WhenOver(s, action, RunOk, rest);
    assert consumed0 + rest == consumed0 + piece && sent0 + [] == sent0;
    while more
      invariant s.Valid() && s.AtRest() && s.consumed + rest == consumed0 + piece && s.sent == sent0 + out
      invariant more ==> Ongoing(s, action, rest) && (action == Action.Run ==> rest != [])
      invariant !more ==> rest == [] && if action == Finish then s.mode == Idle && s.Complete() else s.mode == Running
      invariant !more && action == Flush ==> s.FlushedOut()
      invariant action == Action.Run ==> s.cuts == cuts0
      invariant s.cuts == cuts0 || (|s.cuts| <= |cuts0| + 1 && (more ==> s.Ending()))
      decreases more, |rest|, s.Now().runs, s.Now().state == Input, Left(s.Now())
    {
      InTurn(s, action, rest, rooms(calls));
      ghost var sent1, a := s.sent, s.Offered(rest, rooms(calls));
      var code := s.BzCompress(action, rest, rooms(calls));
      SentBytes(s);
      Assoc(sent0, out, s.nextOut);
      AllBelow(sent1, s.nextOut);
      rest := s.nextIn;
      out, calls := out + s.nextOut, calls + 1;
      WhenOver(s, action, code, rest);
      s.NowState();
      more := !Over(action, code, rest);
      if more {
        CloserMeans(a, s.Now());
      }
    }
  }

  lemma NotEnding(s: EState)
    ensures s.Ending() ==> s.mode in {Flushing, Finishing}
  {
  }

  lemma AllBelow(a: seq<nat>, b: seq<nat>)
    requires forall i :: 0 <= i < |a + b| ==> (a + b)[i] < 256
    ensures forall i :: 0 <= i < |b| ==> b[i] < 256
  {
    assert forall i :: 0 <= i < |b| ==> b[i] == (a + b)[|a| + i];
  }

  /** How many of the first k pieces are flushed. */
  ghost function Flushes(flushes: nat -> bool, k: nat): nat {
    if k == 0 then 0 else Flushes(flushes, k - 1) + if flushes(k - 1) then 1 else 0
  }

  lemma FlushesNext(flushes: nat -> bool, k: nat)
    ensures Flushes(flushes, 0) == 0
    ensures Flushes(flushes, k + 1) == Flushes(flushes, k) + if flushes(k) then 1 else 0
  {
  }

  /** A caller of BZ2_bzCompress: the input in any pieces, each flushed or not, the last with the
      end of the stream, and any room for output in each call.  It ends, and what has been sent is a
      whole stream that stands for the input, in full blocks but for one for each flush and one at
      the end. */
  method CompressAll(level: nat, workFactor: nat, pieces: seq<seq<byte>>, last: seq<byte>, flushes: nat -> bool, rooms: nat -> nat)
    returns (s: EState, out: seq<byte>)
    requires 1 <= level <= 9 && workFactor <= 250 && forall n :: 0 < rooms(n)
    ensures fresh(s) && s.Valid() && s.Complete() && s.consumed == Flat(pieces) + last && s.sent == out && s.level == level
    ensures s.Full() && s.bb.nblockMAX == 100000 * level - 19 && |s.cuts| <= Flushes(flushes, |pieces|) + 1
  {
    hide *;
    s := new EState(level, workFactor);
    var k, calls, w := 0, 0, [];
    out := [];
    NothingFlat(pieces);
    FlushesNext(flushes, 0);
    while k < |pieces|
      invariant k <= |pieces| && s.Valid() && s.AtRest() && s.mode == Running && s.level == level
      invariant s.consumed == Flat(pieces[..k]) && s.sent == out && |s.cuts| <= Flushes(flushes, k)
      invariant fresh({s as object, s.bb as object, s.bb.block as object, s.bb.inUse as object, s.e as object})
      invariant fresh(s.e.Scratch)
    {
      FlatNext(pieces, k);
      FlushesNext(flushes, k);
      w, calls := Give(s, if flushes(k) then Flush else Action.Run, pieces[k], rooms, calls);
      out, k := out + w, k + 1;
    }
    assert pieces[..|pieces|] == pieces;
    w, calls := Give(s, Finish, last, rooms, calls);
    out := out + w;
    AllFull(s);
  }

  lemma AllFull(s: EState)
    requires s.Valid()
    ensures s.Full() && s.bb.nblockMAX == 100000 * s.level - 19
  {
  }
}
