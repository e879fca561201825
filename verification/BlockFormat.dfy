/** The bits of one compressed block and of a stream (dep/bzip2/compress.c:441-572, 579-628),
    as functions of what they stand for. */
module BlockFormat {
  import opened BitStrings
  import opened CanonicalCodes
  import PrefixCodes
  import MtfEncoder
  import MoveToFront

  const GROUP: nat := 50

  // ---------- What a block carries ----------

  /** Checksum, row of the original rotation, bytes in use, code lengths by table, table by
      group of fifty symbols, and the symbols. */
  datatype Coded = Coded(crc: nat, origPtr: nat, inUse: seq<bool>, lens: seq<seq<nat>>,
                         selectors: seq<nat>, symbols: seq<int>)

  ghost function AlphaSize(inUse: seq<bool>): (n: nat)
    requires |inUse| == 256
  {
    MtfEncoder.UsedBelow(inUse, 256) + 2
  }

  /** The code lengths of one table make a full code that the decoder takes. */
  ghost predicate GoodLengths(len: seq<nat>, alphaSize: nat) {
    && |len| == alphaSize && (forall i :: 0 <= i < |len| ==> 1 <= len[i] <= LONGEST)
    && PrefixCodes.IsCode(len, LONGEST)
  }

  ghost predicate GoodBlock(c: Coded) {
    && c.crc < 0x1_0000_0000 && c.origPtr < 0x100_0000
    && |c.inUse| == 256 && 3 <= AlphaSize(c.inUse)
    && 2 <= |c.lens| <= 6 && (forall t :: 0 <= t < |c.lens| ==> GoodLengths(c.lens[t], AlphaSize(c.inUse)))
    && 1 <= |c.selectors| <= 18002 && (forall i :: 0 <= i < |c.selectors| ==> c.selectors[i] < |c.lens|)
    && 1 <= |c.symbols| <= GROUP * |c.selectors|
    && (forall i :: 0 <= i < |c.symbols| ==> 0 <= c.symbols[i] < AlphaSize(c.inUse))
  }

  // ---------- The sections ----------

  ghost function Bytes(s: seq<nat>): seq<bool> {
    if s == [] then [] else Bits(s[0], 8) + Bytes(s[1..])
  }

  /** bsPutUInt32. */
  ghost function Word(u: nat): seq<bool> {
    Bytes([u / 0x100_0000 % 256, u / 0x1_0000 % 256, u / 0x100 % 256, u % 256])
  }

  const BLOCK_MAGIC: seq<nat> := [0x31, 0x41, 0x59, 0x26, 0x53, 0x59]
  const END_MAGIC: seq<nat> := [0x17, 0x72, 0x45, 0x38, 0x50, 0x90]

  /** Is any byte 16i..16i+15 in use? */
  ghost predicate GroupUsed(inUse: seq<bool>, i: nat)
    requires |inUse| == 256 && i < 16
  {
    true in inUse[16 * i..16 * i + 16]
  }

  ghost function Used16(inUse: seq<bool>): (s: seq<bool>)
    requires |inUse| == 256
    ensures |s| == 16 && forall i :: 0 <= i < 16 ==> s[i] == GroupUsed(inUse, i)
  {
    seq(16, i requires 0 <= i < 16 => GroupUsed(inUse, i))
  }

  /** The flags of group i and later, where a group has any. */
  ghost function UsedGroups(inUse: seq<bool>, i: nat): seq<bool>
    requires |inUse| == 256 && i <= 16
    decreases 16 - i
  {
    if i == 16 then [] else (if GroupUsed(inUse, i) then inUse[16 * i..16 * i + 16] else []) + UsedGroups(inUse, i + 1)
  }

  ghost function Mapping(inUse: seq<bool>): seq<bool>
    requires |inUse| == 256
  {
    Used16(inUse) + UsedGroups(inUse, 0)
  }

  /** Number j in unary. */
  ghost function Unary(j: nat): seq<bool> {
    if j == 0 then [false] else [true] + Unary(j - 1)
  }

  ghost function Unaries(s: seq<nat>): seq<bool> {
    if s == [] then [] else Unary(s[0]) + Unaries(s[1..])
  }

  /** The selectors as positions in a move-to-front list. */
  ghost function SelectorMtf(pos: seq<int>, sel: seq<nat>): (r: seq<nat>)
    requires MoveToFront.Distinct(pos) && forall i :: 0 <= i < |sel| ==> sel[i] in pos
    ensures |r| == |sel|
    ensures forall i :: 0 <= i < |r| ==> r[i] < |pos|
    decreases |sel|
  {
    if sel == [] then []
    else
      var p := MoveToFront.IndexOf(pos, sel[0]);
      MoveToFront.FrontDistinct(pos, p);
      [p] + SelectorMtf(MoveToFront.Front(pos, p), sel[1..])
  }

  lemma IdentityHas(n: nat, sel: seq<nat>)
    requires forall i :: 0 <= i < |sel| ==> sel[i] < n
    ensures MoveToFront.Distinct(MtfEncoder.Identity(n))
    ensures forall i :: 0 <= i < |sel| ==> sel[i] in MtfEncoder.Identity(n)
  {
    forall i | 0 <= i < |sel| ensures sel[i] in MtfEncoder.Identity(n) {
      assert MtfEncoder.Identity(n)[sel[i]] == sel[i];
    }
  }

  ghost function Selectors(nGroups: nat, sel: seq<nat>): seq<bool>
    requires forall i :: 0 <= i < |sel| ==> sel[i] < nGroups
  {
    IdentityHas(nGroups, sel);
    Bits(nGroups, 3) + Bits(|sel|, 15) + Unaries(SelectorMtf(MtfEncoder.Identity(nGroups), sel))
  }

  /** From length `curr` to length `to`, and the stop bit. */
  ghost function Delta(curr: nat, to: nat): seq<bool>
    decreases if curr < to then to - curr else curr - to
  {
    if curr < to then [true, false] + Delta(curr + 1, to)
    else if curr > to then [true, true] + Delta(curr - 1, to)
    else [false]
  }

  ghost function Deltas(curr: nat, len: seq<nat>): seq<bool>
    decreases |len|
  {
    if len == [] then [] else Delta(curr, len[0]) + Deltas(len[0], len[1..])
  }

  ghost function LengthTable(len: seq<nat>): seq<bool>
    requires len != []
  {
    Bits(len[0], 5) + Deltas(len[0], len)
  }

  ghost function LengthTables(lens: seq<seq<nat>>): seq<bool>
    requires forall t :: 0 <= t < |lens| ==> lens[t] != []
  {
    if lens == [] then [] else LengthTable(lens[0]) + LengthTables(lens[1..])
  }

  /** The codes of symbols `pos` and later, by the table of their group. */
  ghost function Codes(c: Coded, pos: nat): seq<bool>
    requires GoodBlock(c) && pos <= |c.symbols|
    decreases |c.symbols| - pos
  {
    if pos == |c.symbols| then []
    else
      var len := c.lens[c.selectors[pos / GROUP]];
      Bits(Code(len, c.symbols[pos]), len[c.symbols[pos]]) + Codes(c, pos + 1)
  }

  ghost function BlockBits(c: Coded): seq<bool>
    requires GoodBlock(c)
  {
    Bytes(BLOCK_MAGIC) + Word(c.crc) + [false] + Bits(c.origPtr, 24) + Mapping(c.inUse)
    + Selectors(|c.lens|, c.selectors) + LengthTables(c.lens) + Codes(c, 0)
  }

  ghost function BlocksBits(cs: seq<Coded>): seq<bool>
    requires forall i :: 0 <= i < |cs| ==> GoodBlock(cs[i])
  {
    if cs == [] then [] else BlockBits(cs[0]) + BlocksBits(cs[1..])
  }

  ghost function StreamBits(level: nat, cs: seq<Coded>, combined: nat): seq<bool>
    requires forall i :: 0 <= i < |cs| ==> GoodBlock(cs[i])
  {
    Bytes([0x42, 0x5a, 0x68, 0x30 + level]) + BlocksBits(cs) + Bytes(END_MAGIC) + Word(combined)
  }
}
