/** What the decoder refuses and what it accepts, as laws on whole streams
    (dep/bzip2/decompress.c:191-267, 577-604; dep/bzip2/bzlib.c:783-815). */
module StreamLaws {
  import opened Sequences
  import opened Rotations
  import opened BitStrings
  import opened BlockFormat
  import opened BlockParser
  import opened BlockRoundTrip
  import opened BlockLaws
  import opened UsedBytes
  import opened BitReader
  import opened StreamRoundTrip
  import opened Sessions
  import BlockCrc
  import Powers
  import MoveToFront
  import MtfEncoder
  import StreamCompressor

  // ---------- The first four bytes ----------

  /** What a stream starts with: 'B', 'Z', 'h', and a digit from '1' to '9'. */
  ghost predicate GoodByte(k: nat, v: nat) {
    match k
    case 0 => v == 0x42
    case 1 => v == 0x5a
    case 2 => v == 0x68
    case _ => 0x31 <= v <= 0x39
  }

  /** One of the first four bytes is there and is wrong. */
  ghost predicate NotBzip2(s: seq<byte>) {
    exists k: nat :: k < 4 && k < |s| && !GoodByte(k, s[k]) && forall i: nat :: i < k ==> GoodByte(i, s[i])
  }

  lemma MagicStep(k: nat, v: nat, level: nat)
    requires k < 4 && v < 256 && (k == 3 && GoodByte(k, v) ==> level + 0x30 == v)
    ensures GoodByte(k, v) ==> Leads(Magic(k + 1), Bits(v, 8), if k < 3 then Magic(k + 2) else BlockMagic(level, 1))
    ensures !GoodByte(k, v) ==> Leads(Magic(k + 1), Bits(v, 8), BadMagic)
  {
    hide Leads, Bits;
    OneByte(Magic(k + 1), v);
  }

  ghost function LevelOf(s: seq<byte>): nat {
    if |s| >= 4 && s[3] >= 0x30 then s[3] - 0x30 else 0
  }

  /** Good bytes so far. */
  lemma {:induction false} Started(s: seq<byte>, k: nat)
    requires k <= 4 && k <= |s| && forall i: nat :: i < k ==> GoodByte(i, s[i])
    ensures Leads(Magic(1), InBits(s[..k]), if k < 4 then Magic(k + 1) else BlockMagic(LevelOf(s), 1))
    decreases k
  {
    hide Leads, Bits, Valid;
    if k == 0 {
      MagicValid();
      Stay(Magic(1));
      assert InBits([]) == [];
      assert s[..0] == [];
    } else {
      Started(s, k - 1);
      MagicStep(k - 1, s[k - 1], if k == 4 then LevelOf(s) else 0);
      ByteMore(s, k - 1);
      Then(Magic(1), InBits(s[..k - 1]), Magic(k), Bits(s[k - 1], 8),
           if k < 4 then Magic(k + 1) else BlockMagic(LevelOf(s), 1));
    }
  }

  lemma ByteMore(s: seq<byte>, k: nat)
    requires k < |s|
    ensures InBits(s[..k + 1]) == InBits(s[..k]) + Bits(s[k], 8)
  {
    hide Bits;
    assert s[..k + 1] == s[..k] + [s[k]];
    InBitsConcat(s[..k], [s[k]]);
    assert InBits([s[k]]) == Bits(s[k], 8) by {
      assert InBits([s[k]][1..]) == [];
      assert Bits(s[k], 8) + [] == Bits(s[k], 8);
    }
  }

  /** Bits that lead from the start of a stream to a phase within a block or at the end. */
  lemma Follow(s: seq<bool>, q: Phase)
    requires Leads(Magic(1), s, q) && !q.Block?
    ensures Follows(s, [], q)
  {
    hide Leads, Session, Valid;
    LeadsSession(Magic(1), s, q);
  }

  lemma NothingGives()
    ensures Gives([], [], 0)
  {
  }

  /** Once past the first four bytes the magic is not doubted again. */
  ghost predicate Past(p: Phase) {
    !p.Magic? && !p.BadMagic?
  }

  lemma PastOn(p: Phase, v: nat)
    requires Valid(p) && !Stopped(p) && v < Powers.Pow2(Need(p)) && Past(p)
    ensures Past(Resume(p, v))
  {
    hide Valid, Powers.Pow2, UndoneSelectors, AlphaSize, SkipUnused, TableOf, MoveToFront.Step, MtfEncoder.UsedBelow;
  }

  lemma {:induction false} PastRun(p: Phase, bits: seq<bool>)
    requires Valid(p) && Past(p)
    ensures Past(Run(p, bits).0)
    decreases |bits|
  {
    hide Valid, Resume, Need, Past, Value;
    if !Stopped(p) && |bits| >= Need(p) {
      var v := Value(bits[..Need(p)]);
      PastOn(p, v);
      ResumeValid(p, v);
      PastRun(Resume(p, v), bits[Need(p)..]);
    }
  }

  lemma {:induction false} PastSession(p: Phase, bits: seq<bool>)
    requires Valid(p) && !p.Block? && Past(p)
    ensures Past(Session(p, bits).1)
    decreases |bits|
  {
    hide Run, Resume, Need, Valid;
    var q := Run(p, bits);
    RunShrinks(p, bits);
    PastRun(p, bits);
    if q.0.Block? {
      NextBlockValid(q.0.c.head.bs);
      PastSession(BlockMagic(q.0.c.head.bs, 1), q.1);
    }
  }

  /** Blocks alone never end a stream. */
  lemma {:induction false} BlocksEndings(ps: seq<Parsed>, combined: bv32)
    requires forall i :: 0 <= i < |ps| ==> Sound(ps[i])
    ensures Blocks(ps, combined).ending in {Ending.MoreInput, Ending.DataError, Ending.Randomised}
    decreases |ps|
  {
    hide BlockCrc.OfBlock, BlockCrc.Combine, BlockData, Column, Sound;
    if ps != [] {
      SoundFacts(ps[0]);
      BlocksEndings(ps[1..], BlockCrc.Combine(combined, BlockCrc.OfBlock(DataOf(ps[0]).bytes)));
    }
  }

  /** A file is refused as not bzip2 exactly when one of its first four bytes is wrong. */
  lemma MagicLaw(s: seq<byte>)
    ensures Decompressed(InBits(s)).ending == Ending.MagicError <==> NotBzip2(s)
    ensures NotBzip2(s) ==> Decompressed(InBits(s)).bytes == []
  {
    hide Decompressed, Session, Leads, Bits, InBits, Valid, Past, LevelOf;
    if k: nat :| k < 4 && k < |s| && !GoodByte(k, s[k]) && forall i: nat :: i < k ==> GoodByte(i, s[i]) {
      Started(s, k);
      MagicStep(k, s[k], 0);
      WrongByte(s, k);
    } else {
      var k := if |s| < 4 then |s| else 4;
      AllGood(s, k);
      Started(s, k);
      NotRefused(s, k);
    }
  }

  lemma WrongByte(s: seq<byte>, k: nat)
    requires k < 4 && k < |s| && Leads(Magic(1), InBits(s[..k]), Magic(k + 1))
    requires Leads(Magic(k + 1), Bits(s[k], 8), BadMagic)
    ensures Decompressed(InBits(s)) == Outcome([], Ending.MagicError, 0)
  {
    hide Decompressed, Leads, Bits, InBits, Follows, Gives;
    ByteMore(s, k);
    Then(Magic(1), InBits(s[..k]), Magic(k + 1), Bits(s[k], 8), BadMagic);
    Follow(InBits(s[..k + 1]), BadMagic);
    NothingGives();
    assert s == s[..k + 1] + s[k + 1..];
    InBitsConcat(s[..k + 1], s[k + 1..]);
    Decided(InBits(s[..k + 1]), [], BadMagic, InBits(s[k + 1..]), [], 0);
  }

  /** The first wrong byte is the one that counts. */
  lemma {:induction false} AllGood(s: seq<byte>, k: nat)
    requires k <= 4 && k <= |s|
    requires forall k: nat :: !(k < 4 && k < |s| && !GoodByte(k, s[k]) && forall i: nat :: i < k ==> GoodByte(i, s[i]))
    ensures forall i: nat :: i < k ==> GoodByte(i, s[i])
    decreases k
  {
    if k > 0 {
      AllGood(s, k - 1);
    }
  }

  lemma NotRefused(s: seq<byte>, k: nat)
    requires k == (if |s| < 4 then |s| else 4)
    requires Leads(Magic(1), InBits(s[..k]), if k < 4 then Magic(k + 1) else BlockMagic(LevelOf(s), 1))
    ensures Decompressed(InBits(s)).ending != Ending.MagicError
  {
    hide Decompressed, Session, Leads, Bits, InBits, Valid, LevelOf, Blocks, Sound;
    var q := if k < 4 then Magic(k + 1) else BlockMagic(LevelOf(s), 1);
    Follow(InBits(s[..k]), q);
    MagicValid();
    assert s == s[..k] + s[k..];
    InBitsConcat(s[..k], s[k..]);
    FollowsPhase(InBits(s[..k]), [], q);
    SessionConcat(Magic(1), InBits(s[..k]), InBits(s[k..]));
    var rest := [] + InBits(s[k..]);
    if k == 4 {
      PastSession(q, rest);
    } else {
      assert s[k..] == [];
      NoBits();
      assert rest == [];
      NothingRun(q);
    }
    var r := Session(Magic(1), InBits(s));
    assert r.1 == Session(q, rest).1;
    DecompressedIs(InBits(s), r.0, r.1, r.2);
    BlocksEndings(r.0, 0);
  }

  lemma NoBits()
    ensures InBits([]) == []
  {
  }

  // ---------- Blocks and their checksums ----------

  /** The block is not of the randomised kind, its runs are whole, and its checksum agrees. */
  ghost predicate Clean(p: Parsed) {
    Sound(p) && !p.c.head.rand && !DataOf(p).corrupt && BlockCrc.OfBlock(DataOf(p).bytes) as nat == p.c.head.crc
  }

  /** The bytes of each block. */
  ghost function Datas(ps: seq<Parsed>): (s: seq<seq<byte>>)
    requires forall i :: 0 <= i < |ps| ==> Sound(ps[i])
    ensures |s| == |ps|
  {
    seq(|ps|, i requires 0 <= i < |ps| => DataOf(ps[i]).bytes)
  }

  /** Clean blocks give their bytes, and their checksums are combined. */
  lemma {:induction false} CleanGives(ps: seq<Parsed>)
    requires forall i :: 0 <= i < |ps| ==> Sound(ps[i]) && Clean(ps[i])
    ensures Gives(ps, Flat(Datas(ps)), BlockCrc.OfStream(Datas(ps)))
    decreases |ps|
  {
    hide DataOf, BlockCrc.OfBlock, BlockCrc.Combine, Gives, Sound;
    if ps == [] {
      NothingGives();
    } else {
      var n := |ps| - 1;
      CleanGives(ps[..n]);
      CleanFacts(ps[n]);
      GivesMore(ps[..n], Flat(Datas(ps[..n])), BlockCrc.OfStream(Datas(ps[..n])), ps[n]);
      assert ps[..n] + [ps[n]] == ps;
      assert Datas(ps)[..n] == Datas(ps[..n]);
    }
  }

  lemma CleanFacts(p: Parsed)
    requires Sound(p)
    ensures Clean(p) <==>
      !p.c.head.rand && !DataOf(p).corrupt && BlockCrc.OfBlock(DataOf(p).bytes) as nat == p.c.head.crc
  {
    hide DataOf, BlockCrc.OfBlock, Sound;
  }

  /** What the phase that a stream has come to says of it, its blocks being clean. */
  ghost function EndingAt(p: Phase, combined: bv32): Ending {
    match p
    case End(stored) => if combined as nat == stored then Ending.StreamEnd else Ending.DataError
    case BadMagic => Ending.MagicError
    case BadData => Ending.DataError
    case Undefined => Ending.Unspecified
    case _ => Ending.MoreInput
  }

  /** What a block that is not clean ends a stream with. */
  ghost function UncleanEnd(p: Parsed): (e: (seq<byte>, Ending))
    requires Sound(p)
  {
    if p.c.head.rand then ([], Ending.Randomised) else (DataOf(p).bytes, Ending.DataError)
  }

  /** The outcome of any bits, i being the number of blocks before the first that is not clean: that
      block gives its bytes and is corrupt data, unless it is randomised; without one, the outcome is
      that of the phase that the bits lead to, the end of the stream being accepted exactly when its
      checksum is that of the blocks. */
  lemma VerdictLaw(bits: seq<bool>, ps: seq<Parsed>, p: Phase, rest: seq<bool>, i: nat)
    requires Session(Magic(1), bits) == (ps, p, rest)
    requires i <= |ps| && (forall j :: 0 <= j < i ==> Clean(ps[j])) && (i < |ps| ==> !Clean(ps[i]))
    ensures (forall j :: 0 <= j < |ps| ==> Sound(ps[j])) && forall j :: 0 <= j < i ==> Sound(ps[..i][j])
    ensures var d := Datas(ps[..i]);
      && (i == |ps| ==>
            Decompressed(bits) == Outcome(Flat(d), EndingAt(p, BlockCrc.OfStream(d)), BlockCrc.OfStream(d)))
      && (i < |ps| ==>
            Decompressed(bits) == Outcome(Flat(d) + UncleanEnd(ps[i]).0, UncleanEnd(ps[i]).1, BlockCrc.OfStream(d)))
  {
    hide Session, Blocks, Sound, Decompressed, Clean, DataOf, Flat, BlockCrc.OfStream, Valid;
    DecompressedIs(bits, ps, p, rest);
    var clean := ps[..i];
    var d := Datas(clean);
    CleanGives(clean);
    if i == |ps| {
      assert clean == ps;
      GivesIs(ps, Flat(d), BlockCrc.OfStream(d));
    } else {
      UncleanEnds(clean, ps[i], Flat(d), BlockCrc.OfStream(d));
      assert clean + [ps[i]] == ps[..i + 1];
      BlocksStop(ps[..i + 1], ps[i + 1..], 0);
      assert ps[..i + 1] + ps[i + 1..] == ps;
    }
  }

  lemma GivesIs(ps: seq<Parsed>, bytes: seq<byte>, combined: bv32)
    requires Gives(ps, bytes, combined)
    ensures (forall i :: 0 <= i < |ps| ==> Sound(ps[i])) && Blocks(ps, 0) == Outcome(bytes, Ending.MoreInput, combined)
  {
    hide Blocks, Sound;
  }

  lemma UncleanEnds(ps: seq<Parsed>, p: Parsed, bytes: seq<byte>, combined: bv32)
    requires Gives(ps, bytes, combined) && Sound(p) && !Clean(p)
    ensures forall i :: 0 <= i < |ps + [p]| ==> Sound((ps + [p])[i])
    ensures Blocks(ps + [p], 0) == Outcome(bytes + UncleanEnd(p).0, UncleanEnd(p).1, combined)
  {
    hide Blocks, Sound, DataOf, BlockCrc.OfBlock;
    CleanFacts(p);
    if p.c.head.rand {
      GivesIs(ps, bytes, combined);
      BlocksAppend(ps, p, 0);
      RandomisedBlock(p, combined);
    } else {
      GivesError(ps, bytes, combined, p);
    }
  }

  lemma RandomisedBlock(p: Parsed, combined: bv32)
    requires Sound(p) && p.c.head.rand
    ensures Blocks([p], combined) == Outcome([], Ending.Randomised, combined)
  {
  }

  // ---------- Printed blocks, then anything ----------

  ghost function Start(level: nat, cs: seq<Coded>): seq<bool>
    requires forall i :: 0 <= i < |cs| ==> GoodBlock(cs[i])
  {
    Bytes([0x42, 0x5a, 0x68, 0x30 + level]) + BlocksBits(cs)
  }

  /** Every coded block stands for its sequence numbers. */
  ghost predicate AllStand(level: nat, cs: seq<Coded>, outs: seq<seq<int>>) {
    |cs| == |outs| && forall i :: 0 <= i < |cs| ==> GoodBlock(cs[i]) && BlockStandsFor(cs[i], level, outs[i])
  }

  lemma {:induction false} BlocksFollow(level: nat, cs: seq<Coded>, outs: seq<seq<int>>)
    requires 1 <= level <= 9 && |cs| == |outs| && AllStand(level, cs, outs)
    ensures Follows(Start(level, cs), ParsedOf(cs, level, outs), BlockMagic(level, 1))
    decreases |cs|
  {
    hide *;
    if cs == [] {
      NoBlocks(level, outs);
      MagicParses(level);
      Follow(Bytes([0x42, 0x5a, 0x68, 0x30 + level]), BlockMagic(level, 1)) by { MagicIsPhase(level); }
    } else {
      var n := |cs| - 1;
      Stands(level, cs, outs, n);
      BlocksFollow(level, cs[..n], outs[..n]);
      StandsForParses(cs[n], level, outs[n]);
      FollowsOn(Start(level, cs[..n]), ParsedOf(cs[..n], level, outs[..n]), BlockMagic(level, 1), BlockBits(cs[n]),
                Block(CodingOf(cs[n], level), outs[n]));
      OneBlock(level, cs, outs, n);
    }
  }

  lemma NoBlocks(level: nat, outs: seq<seq<int>>)
    requires outs == []
    ensures Start(level, []) == Bytes([0x42, 0x5a, 0x68, 0x30 + level]) && ParsedOf([], level, outs) == []
  {
    hide Bytes;
    assert BlocksBits([]) == [];
  }

  lemma MagicIsPhase(level: nat)
    ensures !BlockMagic(level, 1).Block?
  {
  }

  lemma Stands(level: nat, cs: seq<Coded>, outs: seq<seq<int>>, n: nat)
    requires AllStand(level, cs, outs) && n < |cs|
    ensures |outs| == |cs| && GoodBlock(cs[n]) && BlockStandsFor(cs[n], level, outs[n])
    ensures AllStand(level, cs[..n], outs[..n]) && forall i :: 0 <= i < n ==> GoodBlock(cs[..n][i])
  {
    hide GoodBlock, BlockStandsFor;
  }

  lemma OneBlock(level: nat, cs: seq<Coded>, outs: seq<seq<int>>, n: nat)
    requires AllStand(level, cs, outs) && |cs| == n + 1
    ensures Start(level, cs) == Start(level, cs[..n]) + BlockBits(cs[n])
    ensures After(Block(CodingOf(cs[n], level), outs[n])) == BlockMagic(level, 1)
    ensures ParsedOf(cs, level, outs)
         == ParsedOf(cs[..n], level, outs[..n]) + Completed(Block(CodingOf(cs[n], level), outs[n]))
  {
    hide Bytes, BlockStandsFor, GoodBlock, BlockBits, BlocksBits, CodingOf;
    StreamCompressor.BlocksAppend(cs[..n], cs[n]);
    CodingOfBs(cs[n], level);
    assert cs[..n] + [cs[n]] == cs;
    Assoc(Bytes([0x42, 0x5a, 0x68, 0x30 + level]), BlocksBits(cs[..n]), BlockBits(cs[n]));
  }

  /** After clean blocks, bits that the section laws refuse are corrupt data, and what the blocks
      stand for has been given. */
  lemma RefusedAfter(level: nat, cs: seq<Coded>, outs: seq<seq<int>>, s: seq<bool>, rest: seq<bool>)
    requires 1 <= level <= 9 && AllStand(level, cs, outs)
    requires forall i :: 0 <= i < |cs| ==> Sound(ParsedOf(cs, level, outs)[i]) && Clean(ParsedOf(cs, level, outs)[i])
    requires Rejects(BlockMagic(level, 1), s)
    ensures var d := Datas(ParsedOf(cs, level, outs));
      Decompressed(Start(level, cs) + (s + rest)) == Outcome(Flat(d), Ending.DataError, BlockCrc.OfStream(d))
  {
    hide Session, Decompressed, Valid, Start, GoodBlock, BlockStandsFor, Clean, Sound, Flat, BlockCrc.OfStream, ParsedOf,
      Rejects, Run;
    var ps, t := ParsedOf(cs, level, outs), Start(level, cs);
    BlocksFollow(level, cs, outs);
    RejectsOn(BlockMagic(level, 1), s, rest);
    SessionRejected(BlockMagic(level, 1), s + rest);
    MagicValid();
    FollowsMore(t, ps, BlockMagic(level, 1), s + rest);
    assert ps + [] == ps;
    VerdictLaw(t + (s + rest), ps, BadData, Session(BlockMagic(level, 1), s + rest).2, |ps|);
    assert ps[..|ps|] == ps;
  }

  lemma FollowsMore(taken: seq<bool>, ps: seq<Parsed>, p: Phase, s: seq<bool>)
    requires Follows(taken, ps, p)
    ensures Valid(p) && !p.Block? && Valid(Magic(1))
    ensures var r := Session(p, s); Session(Magic(1), taken + s) == (ps + r.0, r.1, r.2)
  {
    hide Session, Valid;
    MagicValid();
    SessionConcat(Magic(1), taken, s);
    assert [] + s == s;
  }

  lemma SessionRejected(p: Phase, s: seq<bool>)
    requires Rejects(p, s) && !p.Block?
    ensures Valid(p) && Session(p, s).0 == [] && Session(p, s).1 == BadData
  {
    hide Run, Valid;
  }

  /** After clean blocks, the end of the stream is accepted exactly when the stored checksum is that
      of the blocks. */
  lemma EndLaw(level: nat, cs: seq<Coded>, outs: seq<seq<int>>, stored: nat, rest: seq<bool>)
    requires 1 <= level <= 9 && AllStand(level, cs, outs) && stored < 0x1_0000_0000
    requires forall i :: 0 <= i < |cs| ==> Sound(ParsedOf(cs, level, outs)[i]) && Clean(ParsedOf(cs, level, outs)[i])
    ensures var d := Datas(ParsedOf(cs, level, outs));
      Decompressed(Start(level, cs) + (Bytes(SQRT_PI) + Word(stored) + rest))
      == Outcome(Flat(d), if BlockCrc.OfStream(d) as nat == stored then Ending.StreamEnd else Ending.DataError, BlockCrc.OfStream(d))
  {
    hide Session, Decompressed, Valid, Start, GoodBlock, BlockStandsFor, Clean, Sound, Flat, BlockCrc.OfStream, ParsedOf,
      Run, Leads, Bytes, Word;
    var ps, t, s := ParsedOf(cs, level, outs), Start(level, cs), Bytes(SQRT_PI) + Word(stored);
    BlocksFollow(level, cs, outs);
    EndParses(level, stored);
    MagicValid();
    FollowsOn(t, ps, BlockMagic(level, 1), s, End(stored));
    assert ps + [] == ps;
    FollowsEnd(t + s, ps, End(stored), rest);
    assert t + s + rest == t + (s + rest);
    VerdictLaw(t + (s + rest), ps, End(stored), rest, |ps|);
    assert ps[..|ps|] == ps;
  }

  /** After clean blocks, one that is not: its bytes are given, and it is corrupt data. */
  lemma BadBlockLaw(level: nat, cs: seq<Coded>, outs: seq<seq<int>>, rest: seq<bool>)
    requires 1 <= level <= 9 && AllStand(level, cs, outs) && cs != []
    requires forall i :: 0 <= i < |cs| ==> Sound(ParsedOf(cs, level, outs)[i])
    requires forall i :: 0 <= i < |cs| - 1 ==> Clean(ParsedOf(cs, level, outs)[i])
    requires !Clean(ParsedOf(cs, level, outs)[|cs| - 1])
    ensures var ps := ParsedOf(cs, level, outs); var d := Datas(ps[..|cs| - 1]);
      Decompressed(Start(level, cs) + rest)
      == Outcome(Flat(d) + DataOf(ps[|cs| - 1]).bytes, Ending.DataError, BlockCrc.OfStream(d))
  {
    hide Session, Decompressed, Valid, Start, GoodBlock, BlockStandsFor, Clean, Sound, Flat, BlockCrc.OfStream,
      CodingOf, DataOf;
    var ps, t, n := ParsedOf(cs, level, outs), Start(level, cs), |cs| - 1;
    BlocksFollow(level, cs, outs);
    FollowsMore(t, ps, BlockMagic(level, 1), rest);
    var r := Session(BlockMagic(level, 1), rest);
    assert (ps + r.0)[..n] == ps[..n] && (ps + r.0)[n] == ps[n];
    assert forall j :: 0 <= j < n ==> (ps + r.0)[j] == ps[j];
    VerdictLaw(t + rest, ps + r.0, r.1, r.2, n);
    CodingKept(cs[n], level);
  }

  // ---------- Where a stream ends ----------

  /** Bytes that have come to an end with fewer than eight bits to spare had not before the last. */
  lemma ShortestEnd(all: seq<byte>, ps: seq<Parsed>, p: Phase, rest: seq<bool>, s: seq<byte>)
    requires Session(Magic(1), InBits(all)) == (ps, p, rest) && Stopped(p) && |rest| < 8 && s < all
    requires (forall i :: 0 <= i < |ps| ==> Sound(ps[i])) && Blocks(ps, 0).ending == Ending.MoreInput
    ensures Decompressed(InBits(s)).ending == Ending.MoreInput
  {
    hide Session, Blocks, Sound, Decompressed, Valid, InBits, Stopped;
    MagicValid();
    var t, u := InBits(s), InBits(all[|s|..]);
    assert all == s + all[|s|..];
    InBitsConcat(s, all[|s|..]);
    InBitsLength(all[|s|..]);
    SessionConcat(Magic(1), t, u);
    var r := Session(Magic(1), t);
    var x := Session(r.1, r.2 + u);
    if Stopped(r.1) {
      StoppedSession(r.1, r.2 + u);
      assert false;
    }
    SessionSound(Magic(1), t);
    SessionSound(r.1, r.2 + u);
    if Blocks(r.0, 0).ending != Ending.MoreInput {
      BlocksStop(r.0, x.0, 0);
      assert false;
    }
    DecompressedIs(t, r.0, r.1, r.2);
    NotStopped(r.1);
  }

  lemma {:induction false} InBitsLength(s: seq<byte>)
    ensures |InBits(s)| == 8 * |s|
  {
    hide Bits;
    if s != [] {
      InBitsLength(s[1..]);
    }
  }
}
