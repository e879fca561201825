/** Decoding sessions piece by piece: what the bits taken so far settle about a whole stream
    (dep/bzip2/bzlib.c:783-815). */
module Sessions {
  import opened Sequences
  import opened Rotations
  import opened BlockParser
  import opened BlockRoundTrip
  import opened RunLength
  import opened InverseBwt
  import opened UsedBytes
  import opened StreamRoundTrip
  import opened Decompressor
  import BlockCrc
  import BlockOutput

  // ---------- Sessions piece by piece ----------

  /** Where one piece of the bits leaves off, the next goes on. */
  lemma {:induction false} SessionConcat(p: Phase, a: seq<bool>, b: seq<bool>)
    requires Valid(p) && !p.Block?
    ensures Valid(Session(p, a).1) && !Session(p, a).1.Block?
    ensures var s := Session(p, a); var s' := Session(s.1, s.2 + b);
      Session(p, a + b) == (s.0 + s'.0, s'.1, s'.2)
    decreases |a|
  {
    hide *;
    var q := Run(p, a);
    RunShrinks(p, a);
    RunConcat(p, a, b);
    SessionUnfold(p, a);
    SessionUnfold(p, a + b);
    RunValid(p, a);
    if q.0.Block? {
      BlockStops(q.0);
      RunStopped(q.0, q.1 + b);
      NextBlockValid(q.0.c.head.bs);
      SessionConcat(BlockMagic(q.0.c.head.bs, 1), q.1, b);
      var s := Session(BlockMagic(q.0.c.head.bs, 1), q.1);
      Assoc([Parsed(q.0.c, q.0.out)], s.0, Session(s.1, s.2 + b).0);
    } else {
      SessionUnfold(q.0, q.1 + b);
      assert [] + Session(q.0, q.1 + b).0 == Session(q.0, q.1 + b).0;
    }
  }

  lemma RunValid(p: Phase, bits: seq<bool>)
    requires Valid(p)
    ensures Valid(Run(p, bits).0)
  {
  }

  lemma BlockStops(p: Phase)
    requires p.Block?
    ensures Stopped(p) && !BlockMagic(p.c.head.bs, 1).Block?
  {
  }

  lemma RunStopped(p: Phase, bits: seq<bool>)
    requires Valid(p) && Stopped(p)
    ensures Run(p, bits) == (p, bits)
  {
  }

  lemma NextBlockValid(bs: nat)
    ensures Valid(BlockMagic(bs, 1))
  {
  }

  /** The phase a session is in once a block has been parsed: the next block header. */
  ghost function After(p: Phase): (q: Phase)
    ensures !q.Block?
    ensures Valid(p) ==> Valid(q)
  {
    if p.Block? then BlockMagic(p.c.head.bs, 1) else p
  }

  ghost function Completed(p: Phase): seq<Parsed> {
    if p.Block? then [Parsed(p.c, p.out)] else []
  }

  /** Bits that lead from one phase to the next, as a session. */
  lemma LeadsSession(p: Phase, s: seq<bool>, q: Phase)
    requires Leads(p, s, q) && !p.Block?
    ensures Valid(p) && Valid(q) && Session(p, s) == (Completed(q), After(q), [])
  {
    hide Need, Resume, Run, Valid;
    LeadsRun(p, s, q);
    RunShrinks(p, s);
    SessionUnfold(p, s);
    if q.Block? {
      NextBlockValid(q.c.head.bs);
      NothingRun(BlockMagic(q.c.head.bs, 1));
      assert [Parsed(q.c, q.out)] + [] == [Parsed(q.c, q.out)];
    }
  }

  lemma SessionUnfold(p: Phase, bits: seq<bool>)
    requires Valid(p) && !p.Block?
    ensures var q := Run(p, bits);
      && (q.0.Block? ==> Valid(BlockMagic(q.0.c.head.bs, 1)) && var r := Session(BlockMagic(q.0.c.head.bs, 1), q.1);
           Session(p, bits) == ([Parsed(q.0.c, q.0.out)] + r.0, r.1, r.2))
      && (!q.0.Block? ==> Session(p, bits) == ([], q.0, q.1))
  {
    hide Run;
    RunShrinks(p, bits);
  }

  lemma MagicValid()
    ensures Valid(Magic(1))
  {
  }

  lemma LeadsRun(p: Phase, s: seq<bool>, q: Phase)
    requires Leads(p, s, q)
    ensures Valid(p) && Valid(q) && Run(p, s) == (q, [])
  {
    hide Run;
  }

  lemma NothingRun(p: Phase)
    requires Valid(p) && !p.Block?
    ensures Session(p, []) == ([], p, [])
  {
    hide Resume, Valid;
  }

  /** The bits taken so far, as a session: the blocks parsed and the phase. */
  ghost predicate Follows(taken: seq<bool>, ps: seq<Parsed>, cur: Phase) {
    Valid(cur) && !cur.Block? && Session(Magic(1), taken) == (ps, cur, [])
  }

  lemma FollowsOn(taken: seq<bool>, ps: seq<Parsed>, p: Phase, s: seq<bool>, q: Phase)
    requires Follows(taken, ps, p) && Leads(p, s, q)
    ensures Follows(taken + s, ps + Completed(q), After(q))
  {
    hide Session, Leads, Valid;
    LeadsSession(p, s, q);
    MagicValid();
    SessionConcat(Magic(1), taken, s);
    assert [] + s == s;
  }

  /** A session that has come to its end is not changed by more bits. */
  lemma FollowsEnd(taken: seq<bool>, ps: seq<Parsed>, p: Phase, rest: seq<bool>)
    requires Follows(taken, ps, p) && Stopped(p)
    ensures Session(Magic(1), taken + rest) == (ps, p, rest)
  {
    hide Session, Valid;
    MagicValid();
    SessionConcat(Magic(1), taken, rest);
    assert [] + rest == rest;
    StoppedSession(p, rest);
    assert ps + [] == ps;
  }

  lemma StoppedSession(p: Phase, rest: seq<bool>)
    requires Valid(p) && Stopped(p) && !p.Block?
    ensures Session(p, rest) == ([], p, rest)
  {
    RunStopped(p, rest);
  }

  // ---------- Finished blocks ----------

  /** The blocks parsed are sound, agree with their checksums, and give these bytes. */
  ghost predicate Gives(ps: seq<Parsed>, bytes: seq<byte>, combined: bv32) {
    (forall i :: 0 <= i < |ps| ==> Sound(ps[i])) && Blocks(ps, 0) == Outcome(bytes, MoreInput, combined)
  }

  /** The expansion of one parsed block. */
  ghost function DataOf(p: Parsed): Expansion
    requires Sound(p)
  {
    BlockData(Column(p.c.inUse, p.out), p.c.head.orig)
  }

  lemma {:induction false} BlocksAppend(ps: seq<Parsed>, p: Parsed, combined: bv32)
    requires (forall i :: 0 <= i < |ps| ==> Sound(ps[i])) && Sound(p) && Blocks(ps, combined).ending == MoreInput
    ensures forall i :: 0 <= i < |ps + [p]| ==> Sound((ps + [p])[i])
    ensures var o := Blocks(ps, combined); var o' := Blocks([p], o.combined);
      Blocks(ps + [p], combined) == Outcome(o.bytes + o'.bytes, o'.ending, o'.combined)
    decreases |ps|
  {
    hide BlockData, Column, BlockCrc.OfBlock, BlockCrc.Combine, Sound;
    if ps == [] {
      assert ps + [p] == [p];
      assert [] + Blocks([p], combined).bytes == Blocks([p], combined).bytes;
    } else {
      assert (ps + [p])[0] == ps[0] && (ps + [p])[1..] == ps[1..] + [p];
      SoundFacts(ps[0]);
      var e := DataOf(ps[0]);
      BlocksAppend(ps[1..], p, BlockCrc.Combine(combined, BlockCrc.OfBlock(e.bytes)));
      var o := Blocks(ps[1..], BlockCrc.Combine(combined, BlockCrc.OfBlock(e.bytes)));
      Assoc(e.bytes, o.bytes, Blocks([p], o.combined).bytes);
    }
  }

  lemma SoundFacts(p: Parsed)
    requires Sound(p)
    ensures |p.c.inUse| == 256 && p.c.head.orig < |p.out|
  {
  }

  /** One more block whose checksum agrees. */
  lemma GivesMore(ps: seq<Parsed>, bytes: seq<byte>, combined: bv32, p: Parsed)
    requires Gives(ps, bytes, combined) && Sound(p) && !p.c.head.rand && !DataOf(p).corrupt
    requires BlockCrc.OfBlock(DataOf(p).bytes) as nat == p.c.head.crc
    ensures Gives(ps + [p], bytes + DataOf(p).bytes, BlockCrc.Combine(combined, BlockCrc.OfBlock(DataOf(p).bytes)))
  {
    hide BlockData, Column, BlockCrc.OfBlock, BlockCrc.Combine, Sound;
    BlocksAppend(ps, p, 0);
    SoundFacts(p);
    assert [p][1..] == [];
    assert DataOf(p).bytes + [] == DataOf(p).bytes;
  }

  /** A block that is corrupt or disagrees with its checksum. */
  lemma GivesError(ps: seq<Parsed>, bytes: seq<byte>, combined: bv32, p: Parsed)
    requires Gives(ps, bytes, combined) && Sound(p) && !p.c.head.rand
    requires DataOf(p).corrupt || BlockCrc.OfBlock(DataOf(p).bytes) as nat != p.c.head.crc
    ensures (forall i :: 0 <= i < |ps + [p]| ==> Sound((ps + [p])[i]))
    ensures Blocks(ps + [p], 0) == Outcome(bytes + DataOf(p).bytes, Ending.DataError, combined)
  {
    hide BlockData, Column, BlockCrc.OfBlock, BlockCrc.Combine, Sound;
    BlocksAppend(ps, p, 0);
    SoundFacts(p);
  }

  /** More blocks do not take back bytes. */
  lemma {:induction false} BlocksPrefix(ps: seq<Parsed>, qs: seq<Parsed>, combined: bv32)
    requires (forall i :: 0 <= i < |ps| ==> Sound(ps[i])) && (forall i :: 0 <= i < |qs| ==> Sound(qs[i]))
    ensures (forall i :: 0 <= i < |ps + qs| ==> Sound((ps + qs)[i]))
    ensures Blocks(ps, combined).bytes <= Blocks(ps + qs, combined).bytes
    decreases |ps|
  {
    hide BlockData, Column, BlockCrc.OfBlock, BlockCrc.Combine, Sound;
    if ps != [] {
      assert (ps + qs)[0] == ps[0] && (ps + qs)[1..] == ps[1..] + qs;
      SoundFacts(ps[0]);
      BlocksPrefix(ps[1..], qs, BlockCrc.Combine(combined, BlockCrc.OfBlock(DataOf(ps[0]).bytes)));
    }
  }

  /** One more block adds its bytes, whether or not its checksum agrees. */
  lemma GivesPrefix(ps: seq<Parsed>, bytes: seq<byte>, combined: bv32, p: Parsed)
    requires Gives(ps, bytes, combined) && Sound(p) && !p.c.head.rand
    ensures (forall i :: 0 <= i < |ps + [p]| ==> Sound((ps + [p])[i]))
    ensures Blocks(ps + [p], 0).bytes == bytes + DataOf(p).bytes
  {
    hide BlockData, Column, BlockCrc.OfBlock, BlockCrc.Combine, Sound;
    BlocksAppend(ps, p, 0);
    SoundFacts(p);
    assert [p][1..] == [];
    assert DataOf(p).bytes + [] == DataOf(p).bytes;
  }

  lemma DataIs(c: seq<byte>, t: seq<int>, orig: nat)
    requires orig < |c| && IsTInverse(c, t)
    ensures BlockData(c, orig) == Coming(BlockOutput.StreamOf(c, t, orig), |c|, 1)
  {
    hide Coming, Fetched;
    TInverseExists(c);
    var t' :| IsTInverse(c, t') && BlockData(c, orig) == Coming(BlockOutput.StreamOf(c, t', orig), |c|, 1);
    TInverseUnique(c, t, t');
  }

  // ---------- What is decided ----------

  /** The phase that the bits lead to, blocks being skipped. */
  ghost function PhaseAfter(bits: seq<bool>): Phase {
    MagicValid();
    Session(Magic(1), bits).1
  }

  /** A final phase stays whatever bits follow. */
  lemma PhaseStays(a: seq<bool>, b: seq<bool>)
    requires Stopped(PhaseAfter(a))
    ensures PhaseAfter(a + b) == PhaseAfter(a)
  {
    hide Session, Valid;
    MagicValid();
    SessionConcat(Magic(1), a, b);
    var s := Session(Magic(1), a);
    StoppedSession(s.1, s.2 + b);
  }

  /** A block in error hides all that follows. */
  lemma {:induction false} BlocksStop(ps: seq<Parsed>, qs: seq<Parsed>, combined: bv32)
    requires (forall i :: 0 <= i < |ps| ==> Sound(ps[i])) && (forall i :: 0 <= i < |qs| ==> Sound(qs[i]))
    requires Blocks(ps, combined).ending != MoreInput
    ensures (forall i :: 0 <= i < |ps + qs| ==> Sound((ps + qs)[i])) && Blocks(ps + qs, combined) == Blocks(ps, combined)
    decreases |ps|
  {
    hide BlockData, Column, BlockCrc.OfBlock, BlockCrc.Combine, Sound;
    assert ps != [];
    assert (ps + qs)[0] == ps[0] && (ps + qs)[1..] == ps[1..] + qs;
    SoundFacts(ps[0]);
    var e := DataOf(ps[0]);
    if !ps[0].c.head.rand && !e.corrupt && BlockCrc.OfBlock(e.bytes) as nat == ps[0].c.head.crc {
      BlocksStop(ps[1..], qs, BlockCrc.Combine(combined, BlockCrc.OfBlock(e.bytes)));
    }
  }

  lemma DecompressedIs(bits: seq<bool>, ps: seq<Parsed>, p: Phase, rest: seq<bool>)
    requires Session(Magic(1), bits) == (ps, p, rest)
    ensures forall i :: 0 <= i < |ps| ==> Sound(ps[i])
    ensures Decompressed(bits) ==
      var o := Blocks(ps, 0);
      if !o.ending.MoreInput? then o
      else
        match p
        case End(combined) => o.(ending := if o.combined as nat == combined then Ending.StreamEnd else Ending.DataError)
        case BadMagic => o.(ending := Ending.MagicError)
        case BadData => o.(ending := Ending.DataError)
        case Undefined => o.(ending := Ending.Unspecified)
        case _ => o
  {
    hide Session, Blocks, Sound;
    MagicValid();
    SessionSound(Magic(1), bits);
  }

  /** The blocks so far already end the matter. */
  lemma ErrorDecided(taken: seq<bool>, ps: seq<Parsed>, cur: Phase, rest: seq<bool>)
    requires Follows(taken, ps, cur) && (forall i :: 0 <= i < |ps| ==> Sound(ps[i])) && Blocks(ps, 0).ending != MoreInput
    ensures Decompressed(taken + rest) == Blocks(ps, 0)
  {
    hide Session, Blocks, Sound, Valid;
    MagicValid();
    SessionConcat(Magic(1), taken, rest);
    var s' := Session(cur, [] + rest);
    DecompressedIs(taken + rest, ps + s'.0, s'.1, s'.2);
    SessionSound(cur, [] + rest);
    BlocksStop(ps, s'.0, 0);
  }

  /** The decoder has stopped. */
  lemma Decided(taken: seq<bool>, ps: seq<Parsed>, p: Phase, rest: seq<bool>, bytes: seq<byte>, combined: bv32)
    requires Follows(taken, ps, p) && Stopped(p) && Gives(ps, bytes, combined)
    ensures Decompressed(taken + rest) == Outcome(bytes,
      match p
        case End(c) => if combined as nat == c then Ending.StreamEnd else Ending.DataError
        case BadMagic => Ending.MagicError
        case Undefined => Ending.Unspecified
        case _ => Ending.DataError, combined)
    ensures PhaseAfter(taken + rest) == p
  {
    hide Session, Blocks, Sound, Valid;
    FollowsEnd(taken, ps, p, rest);
    DecompressedIs(taken + rest, ps, p, rest);
    FollowsPhase(taken, ps, p);
  }

  lemma FollowsPhase(taken: seq<bool>, ps: seq<Parsed>, p: Phase)
    requires Follows(taken, ps, p)
    ensures !p.Block? && Valid(p)
  {
  }

  /** The bytes of the blocks so far are the first of the whole. */
  lemma FirstBytes(taken: seq<bool>, ps: seq<Parsed>, cur: Phase, rest: seq<bool>)
    requires Follows(taken, ps, cur) && (forall i :: 0 <= i < |ps| ==> Sound(ps[i]))
    ensures Blocks(ps, 0).bytes <= Decompressed(taken + rest).bytes
  {
    hide Session, Blocks, Sound, Valid;
    MagicValid();
    FollowsPhase(taken, ps, cur);
    SessionConcat(Magic(1), taken, rest);
    var s' := Session(cur, [] + rest);
    DecompressedIs(taken + rest, ps + s'.0, s'.1, s'.2);
    SessionSound(cur, [] + rest);
    BlocksPrefix(ps, s'.0, 0);
  }

  /** What has been settled stays so whatever input follows, and more input takes back no byte. */
  lemma SettledStays(a: seq<bool>, b: seq<bool>)
    ensures Decompressed(a).bytes <= Decompressed(a + b).bytes
    ensures Decompressed(a).ending != MoreInput ==> Decompressed(a + b) == Decompressed(a)
  {
    hide Session, Blocks, Sound, Valid;
    MagicValid();
    SessionConcat(Magic(1), a, b);
    var s := Session(Magic(1), a);
    var s' := Session(s.1, s.2 + b);
    DecompressedIs(a, s.0, s.1, s.2);
    DecompressedIs(a + b, s.0 + s'.0, s'.1, s'.2);
    SessionSound(s.1, s.2 + b);
    BlocksPrefix(s.0, s'.0, 0);
    if Blocks(s.0, 0).ending != MoreInput {
      BlocksStop(s.0, s'.0, 0);
    } else if Stopped(s.1) {
      StoppedSession(s.1, s.2 + b);
      assert s.0 + [] == s.0;
    } else {
      NotStopped(s.1);
    }
  }

  lemma NotStopped(p: Phase)
    ensures Stopped(p) <==> p.Block? || p.End? || p.BadMagic? || p.BadData? || p.Undefined?
  {
  }

  /** The decoder waits for more bits than there are. */
  lemma Waits(taken: seq<bool>, ps: seq<Parsed>, p: Phase, rest: seq<bool>, bytes: seq<byte>, combined: bv32)
    requires Follows(taken, ps, p) && !Stopped(p) && |rest| < Need(p) && Gives(ps, bytes, combined)
    ensures Decompressed(taken + rest) == Outcome(bytes, MoreInput, combined)
    ensures PhaseAfter(taken + rest) == p
  {
    hide Session, Blocks, Sound, Valid, Need;
    MagicValid();
    FollowsPhase(taken, ps, p);
    SessionConcat(Magic(1), taken, rest);
    assert [] + rest == rest;
    ShortSession(p, rest);
    assert ps + [] == ps;
    DecompressedIs(taken + rest, ps, p, rest);
  }

  lemma ShortSession(p: Phase, rest: seq<bool>)
    requires Valid(p) && !Stopped(p) && |rest| < Need(p)
    ensures Session(p, rest) == ([], p, rest)
  {
    hide Resume;
  }
}
