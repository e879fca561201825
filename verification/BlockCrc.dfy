/** The block checksum of bzip2 (dep/bzip2/bzlib_private.h:153-173): a most-significant-bit-first
    CRC, and its combination over the blocks of a stream. */
module BlockCrc {
  import opened Rotations
  import opened Crc32

  /** `k` steps of the bit-at-a-time register with polynomial 0x04c11db7. */
  function Shift(c: bv32, k: nat): bv32
    decreases k
  {
    if k == 0 then c
    else Shift(if c & 0x8000_0000 != 0 then (c << 1) ^ 0x04c1_1db7 else c << 1, k - 1)
  }

  /** Entry i of the table: the register after the eight bits of i. */
  function TableEntry(i: bv32): bv32 {
    Shift(i << 24, 8)
  }

  function UpEight(x: bv32): bv32 { x << 8 }

  /** The table index for a byte. */
  function Index(crc: bv32, ch: bv8): bv32 {
    (crc >> 24) ^ (ch as bv32)
  }

  /** BZ_UPDATE_CRC. */
  function Update(crc: bv32, ch: byte): bv32 {
    Xor(UpEight(crc), TableEntry(Index(crc, ch as bv8)))
  }

  const INITIAL: bv32 := 0xffff_ffff

  function Over(crc: bv32, s: seq<byte>): bv32 {
    if s == [] then crc else Update(Over(crc, s[..|s| - 1]), s[|s| - 1])
  }

  lemma {:induction false} OverConcat(crc: bv32, s: seq<byte>, s': seq<byte>)
    ensures Over(crc, s + s') == Over(Over(crc, s), s')
  {
    hide Update;
    if s' == [] {
      assert s + s' == s;
    } else {
      OverConcat(crc, s, s'[..|s'| - 1]);
      assert (s + s')[..|s + s'| - 1] == s + s'[..|s'| - 1];
    }
  }

  /** BZ_FINALISE_CRC of a whole block's bytes. */
  function OfBlock(s: seq<byte>): bv32 {
    !Over(INITIAL, s)
  }

  /** One place to the left, round the end. */
  function Turned(x: bv32): bv32 {
    (x << 1) | (x >> 31)
  }

  /** Both sides rotate the running value left by one and mix the block's in. */
  function Combine(combined: bv32, blockCrc: bv32): bv32 {
    Xor(Turned(combined), blockCrc)
  }

  function OfStream(blocks: seq<seq<byte>>): bv32 {
    if blocks == [] then 0
    else Combine(OfStream(blocks[..|blocks| - 1]), OfBlock(blocks[|blocks| - 1]))
  }
}
