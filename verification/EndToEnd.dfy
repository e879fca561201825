/** Compressor and decompressor together, and the independence of the decompressor from the sizes
    of its buffers (dep/bzip2/bzlib.c:342-441, 770-820). */
module EndToEnd {
  import opened Sequences
  import opened Rotations
  import opened BlockFormat
  import opened BitReader
  import opened StreamRoundTrip
  import opened Sessions
  import opened DecompressCalls
  import opened StreamLaws
  import BlockParser
  import Decompressor
  import BlockRoundTrip
  import CompressCalls
  import WholeCompression

  /** Codes after which a stream is over. */
  predicate Final(code: Code) {
    code in {BzStreamEnd, BzDataError, BzMagicError, BzRandomised, BzUndefined}
  }

  /** Nothing that the input taken so far stands for is still to come. */
  ghost predicate AllOut(d: BzStream, code: Code)
    reads d`availOut
  {
    Final(code) || (code == BzOk && d.availOut > 0)
  }

  lemma InBitsPrefix(s: seq<byte>, all: seq<byte>) returns (rest: seq<bool>)
    requires s <= all
    ensures InBits(all) == InBits(s) + rest
  {
    rest := InBits(all[|s|..]);
    assert all == s + all[|s|..];
    InBitsConcat(s, all[|s|..]);
  }

  lemma MeansSettled(d: BzStream, code: Code)
    requires d.Means(code)
    ensures d.given <= Decompressed(InBits(d.consumed)).bytes
    ensures AllOut(d, code) ==> Decompressed(InBits(d.consumed)) == Outcome(d.given, EndingOf(code), d.combinedCRC)
    ensures code in {BzStreamEnd, BzMagicError, BzUndefined} || (code == BzOk && d.availOut > 0) ==>
      d.s.phase == PhaseAfter(InBits(d.consumed))
    ensures code == BzStreamEnd ==> d.s.phase.End?
  {
    hide Decompressed, InBits, PhaseAfter, BzStream.Valid, BzStream.Shaped;
  }

  /** A code that ends the stream settles the outcome for all continuations of the input. */
  lemma FinalSettles(d: BzStream, code: Code, all: seq<byte>)
    requires d.Means(code) && Final(code) && d.consumed <= all
    ensures Decompressed(InBits(all)) == Outcome(d.given, EndingOf(code), d.combinedCRC)
  {
    hide Decompressed, InBits, BzStream.Means;
    MeansSettled(d, code);
    var rest := InBitsPrefix(d.consumed, all);
    SettledStays(InBits(d.consumed), rest);
  }

  /** Two decoders, FAST or SMALL, fed the same input in any pieces and with any room for output:
      once both are over, they have returned the same code and given the same bytes. */
  lemma SplitsAgree(a: BzStream, b: BzStream, ca: Code, cb: Code, all: seq<byte>)
    requires a.Means(ca) && b.Means(cb) && Final(ca) && Final(cb) && a.consumed <= all && b.consumed <= all
    ensures ca == cb && a.given == b.given && a.combinedCRC == b.combinedCRC
    ensures ca in {BzStreamEnd, BzMagicError, BzUndefined} ==> a.s.phase == b.s.phase
  {
    hide Decompressed, InBits, BzStream.Means, PhaseAfter;
    FinalSettles(a, ca, all);
    FinalSettles(b, cb, all);
    if ca in {BzStreamEnd, BzMagicError, BzUndefined} {
      FinalPhase(a, ca, all);
      FinalPhase(b, cb, all);
    }
  }

  lemma FinalPhase(d: BzStream, code: Code, all: seq<byte>)
    requires d.Means(code) && code in {BzStreamEnd, BzMagicError, BzUndefined} && d.consumed <= all
    ensures d.s.phase == PhaseAfter(InBits(all))
  {
    hide Decompressed, InBits, BzStream.Means, PhaseAfter;
    MeansSettled(d, code);
    var rest := InBitsPrefix(d.consumed, all);
    EndingStops(InBits(d.consumed));
    PhaseStays(InBits(d.consumed), rest);
  }

  /** A stream that is over without an error in a block has stopped. */
  lemma EndingStops(bits: seq<bool>)
    requires Decompressed(bits).ending in {Ending.StreamEnd, Ending.MagicError, Ending.Unspecified}
    ensures BlockParser.Stopped(PhaseAfter(bits))
  {
    hide BlockRoundTrip.Session, Blocks, Sound, BlockParser.Valid;
    MagicValid();
    var s := BlockRoundTrip.Session(BlockParser.Magic(1), bits);
    DecompressedIs(bits, s.0, s.1, s.2);
    BlocksEndings(s.0, 0);
    NotStopped(s.1);
  }

  /** Two decoders that wait for input with room to spare, having taken the same bytes, have given
      the same bytes and are in the same phase. */
  lemma WaitingAgree(a: BzStream, b: BzStream)
    requires a.Means(BzOk) && b.Means(BzOk) && a.availOut > 0 && b.availOut > 0 && a.consumed == b.consumed
    ensures a.given == b.given && a.combinedCRC == b.combinedCRC && a.s.phase == b.s.phase
  {
    hide Decompressed, InBits, BzStream.Means, PhaseAfter;
    MeansSettled(a, BzOk);
    MeansSettled(b, BzOk);
  }

  // ---------- Compress, then decompress ----------

  /** What a finished compressor has sent, as input bytes. */
  ghost predicate Received(e: CompressCalls.EState, all: seq<byte>)
    reads e
  {
    |all| == |e.sent| && forall i :: 0 <= i < |all| ==> all[i] == e.sent[i]
  }

  /** Whatever the buffers on either side: decoding what a finished compressor has sent never
      reports an error, gives only bytes that went in, in order, and once everything has been taken
      with room to spare, or the end is reported, it has given exactly the bytes that went in. */
  lemma DecompressorRoundTrip(e: CompressCalls.EState, d: BzStream, code: Code, all: seq<byte>)
    requires e.Valid() && e.Complete() && Received(e, all) && d.Means(code) && d.consumed <= all
    ensures code in {BzOk, BzStreamEnd, BzSequenceError} && d.given <= e.consumed
    ensures code == BzStreamEnd ==> d.given == e.consumed
    ensures d.consumed == all && AllOut(d, code) ==> code == BzStreamEnd
  {
    hide Decompressed, InBits, BzStream.Means, PhaseAfter, CompressCalls.EState.Valid, CompressCalls.EState.Complete,
      Bytes;
    CompressorRoundTrip(e);
    assert all == e.sent;
    InBitsAreBytes(all, e.sent);
    MeansSettled(d, code);
    if Final(code) {
      FinalSettles(d, code, all);
    }
    var rest := InBitsPrefix(d.consumed, all);
    SettledStays(InBits(d.consumed), rest);
  }

  /** The end of a stream is reported as soon as it is there: no byte has been taken without which it
      would have been reported. */
  lemma StopsAtEnd(d: BzStream, s: seq<byte>)
    requires d.Means(BzStreamEnd) && s < d.consumed
    ensures Decompressed(InBits(s)).ending == Ending.MoreInput
  {
    hide *;
    EndFacts(d);
    FollowsEnd(d.taken, d.done, d.s.phase, d.s.r.pending);
    GivesIs(d.done, d.given, d.combinedCRC);
    ShortestEnd(d.consumed, d.done, d.s.phase, d.s.r.pending, s);
  }

  lemma EndFacts(d: BzStream)
    requires d.Means(BzStreamEnd)
    ensures InBits(d.consumed) == d.taken + d.s.r.pending && |d.s.r.pending| < 8
    ensures BlockParser.Stopped(d.s.phase) && Follows(d.taken, d.done, d.s.phase) && Gives(d.done, d.given, d.combinedCRC)
  {
    hide Decompressed, InBits, Follows, Gives, PhaseAfter, Decompressor.DState.Shaped, Decompressor.DState.Composed,
      Decompressor.DState.Lean;
    d.s.LeanMeans();
  }

  /** Nor has a compressor sent a byte too many. */
  lemma SentShortest(e: CompressCalls.EState, stream: seq<byte>, s: seq<byte>)
    requires e.Valid() && e.Complete() && Received(e, stream) && s < stream
    ensures Decompressed(InBits(s)).ending == Ending.MoreInput
  {
    hide *;
    CompleteHeaded(e);
    ReceivedBits(e, stream);
    var pad := StreamSession(e.level, e.e.ledger, e.e.combinedCRC, Bytes(e.sent));
    PrintedEmitted(e.level, e.e.ledger, e.e.combinedCRC, Bytes(e.sent));
    AllBlocks(e.level, e.e.ledger.blocks, e.e.ledger.coded);
    EndStopped(e.e.combinedCRC as nat);
    ShortestEnd(stream, BlockRoundTrip.ParsedOf(e.e.ledger.coded, e.level, NumbersOfAll(e.level, e.e.ledger.blocks, e.e.ledger.coded)),
                BlockParser.End(e.e.combinedCRC as nat), pad, s);
  }

  lemma ReceivedBits(e: CompressCalls.EState, stream: seq<byte>)
    requires Received(e, stream)
    ensures InBits(stream) == Bytes(e.sent)
  {
    hide InBits, Bytes;
    InBitsAreBytes(stream, e.sent);
  }

  lemma EndStopped(combined: nat)
    ensures BlockParser.Stopped(BlockParser.End(combined))
  {
  }

  /** What follows a stream is not touched: in any pieces, a decoder that reports the end of a
      compressor's stream has taken just that stream, whatever comes behind it. */
  lemma TrailingLeft(e: CompressCalls.EState, d: BzStream, stream: seq<byte>, tail: seq<byte>)
    requires e.Valid() && e.Complete() && Received(e, stream)
    requires d.Means(BzStreamEnd) && d.consumed <= stream + tail
    ensures d.consumed == stream && d.given == e.consumed
  {
    hide *;
    SentStandsFor(e, stream);
    EndSettled(d);
    if |d.consumed| < |stream| {
      Shorter(d.consumed, stream, tail);
      SentShortest(e, stream, d.consumed);
      assert false;
    } else if |d.consumed| > |stream| {
      assert stream < d.consumed by { Longer(d.consumed, stream, tail); }
      StopsAtEnd(d, stream);
      assert false;
    } else {
      assert d.consumed == (stream + tail)[..|stream|] == stream;
    }
  }

  lemma EndSettled(d: BzStream)
    requires d.Means(BzStreamEnd)
    ensures Decompressed(InBits(d.consumed)).bytes == d.given && Decompressed(InBits(d.consumed)).ending == Ending.StreamEnd
  {
    hide Decompressed, InBits, BzStream.Means;
    MeansSettled(d, BzStreamEnd);
  }

  lemma Shorter(a: seq<byte>, b: seq<byte>, tail: seq<byte>)
    requires a <= b + tail && |a| < |b|
    ensures a < b
  {
    assert a == (b + tail)[..|a|] == b[..|a|];
  }

  lemma Longer(a: seq<byte>, b: seq<byte>, tail: seq<byte>)
    requires a <= b + tail && |a| > |b|
    ensures b < a
  {
    assert a[..|b|] == (b + tail)[..|b|] == b;
  }

  // ---------- Whole streams ----------

  /** More input never takes back a byte. */
  lemma MoreBytes(s: seq<byte>, all: seq<byte>)
    requires s <= all
    ensures Decompressed(InBits(s)).bytes <= Decompressed(InBits(all)).bytes
  {
    hide Decompressed, InBits;
    var rest := InBitsPrefix(s, all);
    SettledStays(InBits(s), rest);
  }

  lemma Codes()
    ensures !Final(BzOk) && !Final(BzSequenceError)
  {
  }

  lemma Over(d: BzStream, code: Code)
    ensures AllOut(d, code) <==> Final(code) || (code == BzOk && d.availOut > 0)
    ensures !Final(code) ==> code == BzOk || code == BzSequenceError
  {
  }

  lemma OkStays(d: BzStream)
    requires d.Means(BzOk)
    ensures d.Valid() && !d.s.phase.End? && (d.availOut > 0 ==> d.s.r.nextIn == [])
  {
    hide Decompressed, InBits, PhaseAfter, BzStream.Valid, BzStream.Shaped;
  }

  /** One piece of the input: calls with what is left of it, whatever room each of them has, until
      it is taken and there is room to spare, or the stream is over. */
  method Feed(d: BzStream, piece: seq<byte>, rooms: nat -> nat, first: nat) returns (code: Code, out: seq<byte>, calls: nat)
    requires d.Valid() && !d.s.phase.End? && forall n :: 0 < rooms(n)
    modifies d, d.Frame, d.OutRepr
    ensures fresh(d.OutRepr - old(d.OutRepr)) && d.Means(code) && AllOut(d, code) && code != BzSequenceError
    ensures d.given == old(d.given) + out && d.consumed <= old(d.consumed) + piece
    ensures code == BzOk ==> d.Valid() && !d.s.phase.End? && d.consumed == old(d.consumed) + piece
  {
    hide *;
    ghost var consumed0, given0, total := d.consumed, d.given, Decompressed(InBits(d.consumed + piece)).bytes;
    var rest, more := piece, true;
    out, code, calls := [], BzOk, first;
    assert piece[..0] == [] && consumed0 + [] == consumed0 && given0 + [] == given0;
    while more
      invariant fresh(d.OutRepr - old(d.OutRepr)) && d.given == given0 + out
      invariant |rest| <= |piece| && rest == piece[|piece| - |rest|..]
        && d.consumed == consumed0 + piece[..|piece| - |rest|]
      invariant more ==> d.Valid() && !d.s.phase.End?
      invariant !more ==> d.Means(code) && AllOut(d, code) && code != BzSequenceError
      invariant !more && code == BzOk ==> d.Valid() && !d.s.phase.End? && rest == []
      decreases more, |total| - |d.given|
    {
      ghost var before, given1 := d.consumed, d.given;
      var w;
      code, w := d.BzDecompress(rest, rooms(calls));
      d.TakenParts(rest, before);
      MorePieces(piece, rest, d.s.r.nextIn, consumed0, before);
      rest := d.s.r.nextIn;
      Assoc(given0, out, w);
      out, calls := out + w, calls + 1;
      Over(d, code);
      Codes();
      if Final(code) {
        more := false;
      } else {
        OkStays(d);
        d.GivenFirst();
        TakePrefix(consumed0, piece, |piece| - |rest|);
        MoreBytes(d.consumed, consumed0 + piece);
        more := d.availOut == 0;
      }
    }
    TakePrefix(consumed0, piece, |piece| - |rest|);
  }

  lemma TakePrefix(a: seq<byte>, s: seq<byte>, k: nat)
    requires k <= |s|
    ensures a + s[..k] <= a + s && (k == |s| ==> a + s[..k] == a + s)
  {
  }

  lemma NothingGiven()
    ensures Decompressed(InBits([])) == Outcome([], Ending.MoreInput, 0)
  {
    DecompressCalls.BzStream.NothingTaken();
    DecompressedIs([], [], BlockParser.Magic(1), []);
  }

  /** A caller of BZ2_bzDecompress: the input in any pieces, any room for output in each call, and
      either of the two output routines.  What comes out, and whether the stream has ended, failed
      or is not finished, depends on the bytes of the input alone. */
  method ExpandAll(small: bool, pieces: seq<seq<byte>>, rooms: nat -> nat) returns (code: Code, out: seq<byte>)
    requires forall n :: 0 < rooms(n)
    ensures code != BzSequenceError && out == Decompressed(InBits(Flat(pieces))).bytes
    ensures EndingOf(code) == Decompressed(InBits(Flat(pieces))).ending
    ensures code == BzMagicError <==> NotBzip2(Flat(pieces))
    ensures code == BzDataError <==> Decompressed(InBits(Flat(pieces))).ending == Ending.DataError
    ensures code == BzStreamEnd <==> Decompressed(InBits(Flat(pieces))).ending == Ending.StreamEnd
  {
    hide *;
    var d := new BzStream(small);
    out, code := [], BzOk;
    var k, calls := 0, 0;
    NothingGiven();
    NothingFlat(pieces);
    while k < |pieces| && code == BzOk
      invariant k <= |pieces| && fresh(d) && fresh(d.Frame) && fresh(d.OutRepr) && d.given == out
        && code != BzSequenceError
      invariant d.consumed <= Flat(pieces[..k])
      invariant code == BzOk ==> d.Valid() && !d.s.phase.End? && d.consumed == Flat(pieces[..k])
      invariant k > 0 ==> d.Means(code) && AllOut(d, code)
      invariant k == 0 ==> code == BzOk && out == []
    {
      var w;
      FlatNext(pieces, k);
      code, w, calls := Feed(d, pieces[k], rooms, calls);
      out, k := out + w, k + 1;
    }
    FlatPrefix(pieces, k);
    assert pieces[..|pieces|] == pieces;
    CodeEnding(code);
    MagicLaw(Flat(pieces));
    if k > 0 {
      MeansSettled(d, code);
      Over(d, code);
      if Final(code) {
        FinalSettles(d, code, Flat(pieces));
      }
    }
  }

  lemma CodeEnding(code: Code)
    ensures EndingOf(BzOk) == Ending.MoreInput
    ensures EndingOf(code) == Ending.MagicError <==> code == BzMagicError
    ensures EndingOf(code) == Ending.DataError <==> code == BzDataError
    ensures EndingOf(code) == Ending.StreamEnd <==> code == BzStreamEnd
  {
  }

  /** All that a finished compressor has sent comes back as all that it was given, in whatever
      pieces it is fed and with whatever room. */
  method Restore(e: CompressCalls.EState, small: bool, pieces: seq<seq<byte>>, rooms: nat -> nat) returns (code: Code, out: seq<byte>)
    requires e.Valid() && e.Complete() && Received(e, Flat(pieces)) && forall n :: 0 < rooms(n)
    ensures code == BzStreamEnd && out == e.consumed
  {
    hide *;
    SentStandsFor(e, Flat(pieces));
    code, out := ExpandAll(small, pieces, rooms);
    CodesApart(code);
  }

  lemma SentStandsFor(e: CompressCalls.EState, all: seq<byte>)
    requires e.Valid() && e.Complete() && Received(e, all)
    ensures Decompressed(InBits(all)).bytes == e.consumed && Decompressed(InBits(all)).ending == Ending.StreamEnd
  {
    hide Decompressed, InBits, CompressCalls.EState.Valid, CompressCalls.EState.Complete, Bytes;
    CompressorRoundTrip(e);
    assert all == e.sent;
    InBitsAreBytes(all, e.sent);
  }

  lemma CodesApart(code: Code)
    ensures EndingOf(code) == Ending.StreamEnd ==> code == BzStreamEnd
  {
  }

  /** A string in pieces of the given sizes. */
  method Cut(all: seq<byte>, sizes: nat -> nat) returns (pieces: seq<seq<byte>>)
    requires forall n :: 0 < sizes(n)
    ensures Flat(pieces) == all
  {
    hide Flat;
    var rest := all;
    pieces := [];
    NothingFlat(pieces);
    while rest != []
      invariant Flat(pieces) + rest == all
      decreases |rest|
    {
      var k := if sizes(|pieces|) < |rest| then sizes(|pieces|) else |rest|;
      OneCut(pieces, rest, k);
      pieces, rest := pieces + [rest[..k]], rest[k..];
    }
  }

  lemma OneCut(pieces: seq<seq<byte>>, rest: seq<byte>, k: nat)
    requires k <= |rest|
    ensures Flat(pieces + [rest[..k]]) + rest[k..] == Flat(pieces) + rest
  {
    hide Flat;
    FlatNext(pieces + [rest[..k]], |pieces|);
    assert (pieces + [rest[..k]])[..|pieces|] == pieces && (pieces + [rest[..k]])[..|pieces| + 1] == pieces + [rest[..k]];
    Assoc(Flat(pieces), rest[..k], rest[k..]);
    assert rest == rest[..k] + rest[k..];
  }

  /** A caller of both: any input in any pieces, flushed or not, any room in each call, any level, any
      work factor and either output routine.  Both sides end, and the input comes back. */
  method RoundTrip(level: nat, workFactor: nat, pieces: seq<seq<byte>>, last: seq<byte>, flushes: nat -> bool,
                   rooms: nat -> nat, small: bool, sizes: nat -> nat, rooms': nat -> nat)
    returns (code: Code, out: seq<byte>)
    requires 1 <= level <= 9 && workFactor <= 250
    requires forall n :: 0 < rooms(n) && 0 < sizes(n) && 0 < rooms'(n)
    ensures code == BzStreamEnd && out == Flat(pieces) + last
  {
    hide *;
    var s, sent := WholeCompression.CompressAll(level, workFactor, pieces, last, flushes, rooms);
    var parts := Cut(sent, sizes);
    ReceivedIs(s, Flat(parts));
    code, out := Restore(s, small, parts, rooms');
  }

  lemma ReceivedIs(s: CompressCalls.EState, all: seq<byte>)
    requires all == s.sent
    ensures Received(s, all)
  {
  }
}
