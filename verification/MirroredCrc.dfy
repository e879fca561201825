/** The block checksum of bzip2 (dep/bzip2/bzlib_private.h:153-173) against the CRC-32 of zlib: the
    same polynomial, read from the other end of every word and byte; and what the checksum of a
    stream is made of (dep/bzip2/compress.c:588-591, dep/bzip2/bzlib.c:803-806). */
module MirroredCrc {
  import opened Rotations
  import opened BlockCrc
  import Crc32
  import CrcTables

  // ---------- Words and bytes read from the other end ----------

  /** The 32 bits in reverse order. */
  function Mirror(x: bv32): bv32 {
    var a := ((x >> 1) & 0x5555_5555) | ((x & 0x5555_5555) << 1);
    var b := ((a >> 2) & 0x3333_3333) | ((a & 0x3333_3333) << 2);
    var c := ((b >> 4) & 0x0f0f_0f0f) | ((b & 0x0f0f_0f0f) << 4);
    var d := ((c >> 8) & 0x00ff_00ff) | ((c & 0x00ff_00ff) << 8);
    (d >> 16) | (d << 16)
  }

  /** The eight bits in reverse order. */
  function Mirror8(x: bv8): bv8 {
    var a := ((x >> 1) & 0x55) | ((x & 0x55) << 1);
    var b := ((a >> 2) & 0x33) | ((a & 0x33) << 2);
    (b >> 4) | (b << 4)
  }

  /** The bytes, each in reverse order. */
  function Mirrored(s: seq<byte>): (r: seq<bv8>)
    ensures |r| == |s|
  {
    seq(|s|, i requires 0 <= i < |s| => Mirror8(s[i] as bv8))
  }

  /** Bit j from below is bit j from above. */
  lemma MirrorBit(x: bv32, j: bv32)
    requires j < 32
    ensures Mirror(x) & (1 << j) != 0 <==> x & (0x8000_0000 >> j) != 0
  {
  }

  lemma MirrorBit8(x: bv8, j: bv8)
    requires j < 8
    ensures Mirror8(x) & (1 << j) != 0 <==> x & (0x80 >> j) != 0
  {
  }

  lemma MirrorTwice(x: bv32)
    ensures Mirror(Mirror(x)) == x
  {
  }

  lemma MirrorXor(a: bv32, b: bv32)
    ensures Mirror(a ^ b) == Mirror(a) ^ Mirror(b)
  {
  }

  lemma MirrorUpEight(x: bv32)
    ensures Mirror(x << 8) == Mirror(x) >> 8
  {
  }

  // ---------- One step, one byte, all bytes ----------

  function UpOne(x: bv32): bv32 { x << 1 }

  predicate TopSet(x: bv32) { x & 0x8000_0000 != 0 }

  /** One step of the register of bzip2. */
  function Next(c: bv32): bv32 {
    if TopSet(c) then Crc32.Xor(UpOne(c), 0x04c1_1db7) else UpOne(c)
  }

  lemma ShiftNext(c: bv32, k: nat)
    ensures Shift(c, 0) == c && Shift(c, k + 1) == Shift(Next(c), k)
  {
  }

  lemma MirrorUp(x: bv32)
    ensures Mirror(x << 1) == Mirror(x) >> 1
  {
  }

  lemma UpOneMirrored(x: bv32)
    ensures Mirror(UpOne(x)) == Crc32.Half(Mirror(x))
  {
    hide Mirror;
    MirrorUp(x);
  }

  lemma TopMirrored(x: bv32)
    ensures TopSet(x) <==> Crc32.Odd(Mirror(x))
  {
  }

  lemma PolynomialMirrored()
    ensures Mirror(0x04c1_1db7) == Crc32.POLY
  {
  }

  lemma XorMirrored(a: bv32, b: bv32)
    ensures Mirror(Crc32.Xor(a, b)) == Crc32.Xor(Mirror(a), Mirror(b))
  {
    hide Mirror;
    MirrorXor(a, b);
  }

  lemma NextMirrored(c: bv32)
    ensures Mirror(Next(c)) == Crc32.Step(Mirror(c))
  {
    hide Mirror, UpOne, TopSet, Crc32.Xor, Crc32.Half, Crc32.Odd;
    UpOneMirrored(c);
    TopMirrored(c);
    XorMirrored(UpOne(c), 0x04c1_1db7);
    PolynomialMirrored();
    Crc32.XorUnits(Crc32.POLY, Crc32.Half(Mirror(c)));
  }

  lemma {:induction false} ShiftMirrored(c: bv32, k: nat)
    ensures Mirror(Shift(c, k)) == Crc32.Steps(Mirror(c), k)
    decreases k
  {
    hide Mirror, Next, Shift, Crc32.Step, Crc32.Steps;
    if k == 0 {
      ShiftNext(c, 0);
      NoSteps(Mirror(c));
    } else {
      ShiftNext(c, k - 1);
      ShiftMirrored(Next(c), k - 1);
      NextMirrored(c);
      Crc32.StepsAdd(Mirror(c), 1, k - 1);
      NoSteps(Mirror(c));
    }
  }

  lemma NoSteps(c: bv32)
    ensures Crc32.Steps(c, 0) == c && Crc32.Steps(c, 1) == Crc32.Step(c)
  {
    hide Crc32.Step;
  }

  /** The table index, at the top of a word. */
  function TopIndex(crc: bv32, x: bv8): bv32 {
    Index(crc, x) << 24
  }

  lemma UpdateIs(crc: bv32, ch: byte)
    ensures Update(crc, ch) == Crc32.Xor(UpEight(crc), Shift(TopIndex(crc, ch as bv8), 8))
  {
    hide Shift, Crc32.Xor, UpEight, Index;
  }

  lemma RawIndex(crc: bv32, x: bv8)
    ensures Mirror(((crc >> 24) ^ (x as bv32)) << 24) == (Mirror(crc) ^ (Mirror8(x) as bv32)) & 0xff
  {
  }

  lemma LowByte(w: bv32)
    ensures ((w & 0xff) as bv8) as bv32 == w & 0xff
  {
  }

  lemma IndexMirrored(crc: bv32, x: bv8)
    ensures Mirror(TopIndex(crc, x)) == Crc32.Wide(CrcTables.Low(Crc32.Xor(Mirror(crc), Crc32.Wide(Mirror8(x)))))
  {
    hide Mirror, Mirror8;
    RawIndex(crc, x);
    LowByte(Mirror(crc) ^ (Mirror8(x) as bv32));
  }

  lemma UpEightMirrored(crc: bv32)
    ensures Mirror(UpEight(crc)) == CrcTables.Down(Mirror(crc), 8)
  {
    hide Mirror;
    MirrorUpEight(crc);
  }

  lemma UpdateMirrored(crc: bv32, ch: byte)
    ensures Mirror(Update(crc, ch)) == Crc32.Byte(Mirror(crc), Mirror8(ch as bv8))
  {
    hide *;
    var x := ch as bv8;
    UpdateIs(crc, ch);
    XorMirrored(UpEight(crc), Shift(TopIndex(crc, x), 8));
    UpEightMirrored(crc);
    ShiftMirrored(TopIndex(crc, x), 8);
    IndexMirrored(crc, x);
    CrcTables.ByteByTable(Mirror(crc), Mirror8(x));
    Crc32.XorUnits(CrcTables.Down(Mirror(crc), 8), Crc32.Steps(Mirror(TopIndex(crc, x)), 8));
  }

  /** The register of bzip2 over some bytes, read from the other end, is that of zlib over the bytes
      read from the other end. */
  lemma {:induction false} OverMirrored(crc: bv32, s: seq<byte>)
    ensures Mirror(Over(crc, s)) == Crc32.Reg(Mirror(crc), Mirrored(s))
  {
    hide Mirror, Mirror8, Update, Crc32.Byte;
    if s != [] {
      var n := |s| - 1;
      OverMirrored(crc, s[..n]);
      assert Mirrored(s)[..n] == Mirrored(s[..n]) && Mirrored(s)[n] == Mirror8(s[n] as bv8);
      UpdateMirrored(Over(crc, s[..n]), s[n]);
    }
  }

  lemma FlipIsXor(x: bv32)
    ensures !x == Crc32.Xor(x, 0xffff_ffff)
  {
  }

  lemma OfBlockFlips(s: seq<byte>)
    ensures OfBlock(s) == Crc32.Xor(Over(0xffff_ffff, s), 0xffff_ffff)
  {
    hide Over, Crc32.Xor;
    FlipIsXor(Over(0xffff_ffff, s));
  }

  lemma CrcFlips(t: seq<bv8>)
    ensures Crc32.Crc(0, t) == Crc32.Xor(Crc32.Reg(0xffff_ffff, t), 0xffff_ffff)
  {
    hide Crc32.Reg, Crc32.Xor;
    FlipIsXor(Crc32.Reg(0xffff_ffff, t));
  }

  lemma AllOnesMirrored()
    ensures Mirror(0xffff_ffff) == 0xffff_ffff
  {
  }

  lemma StartMirrored(s: seq<byte>)
    ensures Mirror(Over(0xffff_ffff, s)) == Crc32.Reg(0xffff_ffff, Mirrored(s))
  {
    hide *;
    OverMirrored(0xffff_ffff, s);
    AllOnesMirrored();
  }

  /** The block checksum is zlib's checksum, both sides read from the other end. */
  lemma OfBlockMirrored(s: seq<byte>)
    ensures OfBlock(s) == Mirror(Crc32.Crc(0, Mirrored(s)))
  {
    hide *;
    StartMirrored(s);
    AllOnesMirrored();
    OfBlockFlips(s);
    CrcFlips(Mirrored(s));
    XorMirrored(Over(0xffff_ffff, s), 0xffff_ffff);
    MirrorTwice(OfBlock(s));
  }

  lemma MirrorApart(x: bv8, y: bv8)
    requires x != y
    ensures Mirror8(x) != Mirror8(y)
  {
  }

  /** The byte that eight bits stand for. */
  function Number(x: bv8): int { x as int }

  lemma NumberOf(x: byte)
    ensures Number(x as bv8) == x
  {
  }

  lemma BytesApart(x: byte, y: byte)
    requires x != y
    ensures x as bv8 != y as bv8
  {
    hide Number;
    NumberOf(x);
    NumberOf(y);
  }

  /** A block in which one byte has been changed does not keep its checksum. */
  lemma OneByteSeen(s: seq<byte>, x: byte, y: byte, t: seq<byte>)
    requires x != y
    ensures OfBlock(s + [x] + t) != OfBlock(s + [y] + t)
  {
    hide *;
    BytesApart(x, y);
    MirrorApart(x as bv8, y as bv8);
    StartMirrored(s + [x] + t);
    StartMirrored(s + [y] + t);
    MirroredParts(s, x, t);
    MirroredParts(s, y, t);
    Crc32.OneByteSeen(0xffff_ffff, Mirrored(s), Mirror8(x as bv8), Mirror8(y as bv8), Mirrored(t));
    OfBlockFlips(s + [x] + t);
    OfBlockFlips(s + [y] + t);
    if OfBlock(s + [x] + t) == OfBlock(s + [y] + t) {
      Crc32.XorUndone(Over(0xffff_ffff, s + [x] + t), Over(0xffff_ffff, s + [y] + t), 0xffff_ffff);
    }
  }

  lemma MirroredParts(s: seq<byte>, x: byte, t: seq<byte>)
    ensures Mirrored(s + [x] + t) == Mirrored(s) + [Mirror8(x as bv8)] + Mirrored(t)
  {
    hide Mirror8;
  }

  /** The checksum of the block that holds the letter a. */
  lemma LetterA()
    ensures OfBlock([0x61]) == 0x1993_9b6b
  {
    assert [0x61][..0] == [];
    LetterEntry();
    assert Over(INITIAL, []) == INITIAL;
  }

  lemma LetterEntry()
    ensures !Update(INITIAL, 0x61) == 0x1993_9b6b
  {
  }

  // ---------- Streams ----------

  /** Bit j goes to place j + 1, and the last to the first. */
  lemma TurnedBit(x: bv32, j: bv32)
    requires j < 32
    ensures (Turned(x) >> ((j + 1) & 31)) & 1 == (x >> j) & 1
  {
  }

  lemma RawTurnedXor(a: bv32, b: bv32)
    ensures ((a ^ b) << 1) | ((a ^ b) >> 31) == ((a << 1) | (a >> 31)) ^ ((b << 1) | (b >> 31))
  {
  }

  lemma TurnedXor(a: bv32, b: bv32)
    ensures Turned(Crc32.Xor(a, b)) == Crc32.Xor(Turned(a), Turned(b))
  {
    RawTurnedXor(a, b);
  }

  function TurnedBy(x: bv32, k: nat): bv32 {
    if k == 0 then x else Turned(TurnedBy(x, k - 1))
  }

  /** The block checksums added up, each turned by as many places as blocks follow it. */
  function TurnedSum(crcs: seq<bv32>): bv32 {
    if crcs == [] then 0 else Crc32.Xor(TurnedBy(crcs[0], |crcs| - 1), TurnedSum(crcs[1..]))
  }

  lemma TurnedZero()
    ensures Turned(0) == 0
  {
  }

  lemma {:induction false} TurnedSumAppend(crcs: seq<bv32>, c: bv32)
    ensures TurnedSum(crcs + [c]) == Crc32.Xor(Turned(TurnedSum(crcs)), c)
    decreases |crcs|
  {
    hide Turned, Crc32.Xor;
    if crcs == [] {
      assert [c][1..] == [] && TurnedSum([]) == 0;
      TurnedZero();
      Crc32.XorUnits(0, c);
      Crc32.XorUnits(c, 0);
      assert crcs + [c] == [c] && TurnedBy(c, 0) == c;
    } else {
      var rest := crcs[1..];
      TurnedSumAppend(rest, c);
      assert (crcs + [c])[1..] == rest + [c] && (crcs + [c])[0] == crcs[0];
      TurnedXor(TurnedBy(crcs[0], |crcs| - 1), TurnedSum(rest));
      Crc32.XorAssoc(TurnedBy(crcs[0], |crcs|), Turned(TurnedSum(rest)), c);
    }
  }

  function BlockCrcs(blocks: seq<seq<byte>>): (crcs: seq<bv32>)
    ensures |crcs| == |blocks|
  {
    seq(|blocks|, i requires 0 <= i < |blocks| => OfBlock(blocks[i]))
  }

  /** The checksum of a stream. */
  lemma {:induction false} OfStreamTurned(blocks: seq<seq<byte>>)
    ensures OfStream(blocks) == TurnedSum(BlockCrcs(blocks))
  {
    hide Turned, Crc32.Xor, OfBlock, TurnedSum;
    if blocks == [] {
      NothingSummed(BlockCrcs(blocks));
    } else {
      var n := |blocks| - 1;
      OfStreamTurned(blocks[..n]);
      TurnedSumAppend(BlockCrcs(blocks[..n]), OfBlock(blocks[n]));
      assert BlockCrcs(blocks) == BlockCrcs(blocks[..n]) + [OfBlock(blocks[n])];
    }
  }

  lemma NothingSummed(crcs: seq<bv32>)
    requires crcs == []
    ensures TurnedSum(crcs) == 0
  {
  }
}
