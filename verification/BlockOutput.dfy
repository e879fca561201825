/** Handing out a decoded block in pieces: the two versions of unRLE_obuf_to_output
    (dep/bzip2/bzlib.c:510-767) and BZ2_indexIntoF, for blocks that are not randomised. */
module BlockOutput {
  import opened Rotations
  import opened Counting
  import opened InverseBwt
  import opened DecodeVectors
  import opened RunLength
  import BlockCrc

  // ---------- What both versions hand out ----------

  /** The bytes fetched: those of the block and the two a reader may run into. */
  ghost function StreamOf(c: seq<byte>, t: seq<int>, o: int): (d: seq<byte>)
    requires IsTInverse(c, t) && 0 <= o < |c|
    ensures Stream(d, |c|)
    ensures forall k :: 0 <= k < |d| ==> d[k] == Fetched(c, t, o, k)
  {
    seq(|c| + 2, k requires 0 <= k => Fetched(c, t, o, k))
  }

  /** Still to be handed out: `len` bytes `ch`, then the runs after the `used` bytes fetched. */
  ghost function Remaining(d: seq<byte>, n: nat, used: int, ch: byte, len: int): Expansion
    requires Stream(d, n) && 1 <= used <= n + 2 && 0 <= len
  {
    Prepend(ch, len, Coming(d, n, used))
  }

  /** `written` and what remains make up the expansion the call began with. */
  ghost predicate Emitting(p: Expansion, written: seq<byte>, d: seq<byte>, n: nat, used: int, ch: byte, len: int)
    requires Stream(d, n) && 1 <= used <= n + 2 && 0 <= len
  {
    && p.bytes == written + Remaining(d, n, used, ch, len).bytes
    && p.corrupt == Remaining(d, n, used, ch, len).corrupt
  }

  lemma EmitStart(d: seq<byte>, n: nat, used: int, ch: byte, len: int)
    requires Stream(d, n) && 1 <= used <= n + 2 && 0 <= len
    ensures Emitting(Remaining(d, n, used, ch, len), [], d, n, used, ch, len)
  {
    assert [] + Remaining(d, n, used, ch, len).bytes == Remaining(d, n, used, ch, len).bytes;
  }

  lemma EmitOne(p: Expansion, written: seq<byte>, d: seq<byte>, n: nat, used: int, ch: byte, len: int)
    requires Stream(d, n) && 1 <= used <= n + 2 && 1 <= len
    requires Emitting(p, written, d, n, used, ch, len)
    ensures Emitting(p, written + [ch], d, n, used, ch, len - 1)
  {
    hide Coming;
    RepeatSplit(ch, 1, len - 1);
    assert Repeat(ch, 1) == [ch];
    var rest := Coming(d, n, used).bytes;
    assert written + ([ch] + Repeat(ch, len - 1) + rest) == (written + [ch]) + (Repeat(ch, len - 1) + rest);
  }

  lemma EmitRun(p: Expansion, written: seq<byte>, d: seq<byte>, n: nat, used: int, ch: byte)
    requires Stream(d, n) && 1 <= used <= n
    requires Emitting(p, written, d, n, used, ch, 0)
    ensures var r := NextRun(d, n, used); Emitting(p, written, d, n, r.1, d[used - 1], r.0)
  {
    hide NextRun;
    assert Repeat(ch, 0) + Coming(d, n, used).bytes == Coming(d, n, used).bytes;
  }

  lemma EmitEnd(p: Expansion, written: seq<byte>, d: seq<byte>, n: nat, used: int, ch: byte)
    requires Stream(d, n) && n + 1 <= used <= n + 2
    requires Emitting(p, written, d, n, used, ch, 0)
    ensures p == Expansion(written, used > n + 1)
  {
    assert Repeat(ch, 0) == [];
    assert written + ([] + []) == written;
  }

  lemma EmitShort(p: Expansion, written: seq<byte>, d: seq<byte>, n: nat, used: int, ch: byte, len: int)
    requires Stream(d, n) && 1 <= used <= n + 2 && 0 <= len
    requires Emitting(p, written, d, n, used, ch, len)
    ensures written <= p.bytes
    ensures Remaining(d, n, used, ch, len) == Expansion(p.bytes[|written|..], p.corrupt)
    ensures 1 <= len ==> |written| < |p.bytes|
    ensures used <= n ==> |written| < |p.bytes|
  {
    hide NextRun;
  }

  lemma HandedPart(p: Expansion, written: seq<byte>)
    requires written <= p.bytes
    ensures written == Handed(p, |written|)
  {
  }

  lemma HandedAll(p: Expansion, written: seq<byte>, room: nat)
    requires written == p.bytes && |written| <= room
    ensures written == Handed(p, room)
  {
    assert written[..|written|] == written;
  }

  /** What a call with room for `room` bytes must have written. */
  function Handed(p: Expansion, room: nat): (w: seq<byte>)
    ensures |w| <= |p.bytes| && |w| <= room
  {
    if room <= |p.bytes| then p.bytes[..room] else p.bytes
  }

  lemma NothingPending(d: seq<byte>, n: nat, ch: byte)
    requires Stream(d, n)
    ensures Remaining(d, n, 1, ch, 0) == Coming(d, n, 1)
  {
    assert Repeat(ch, 0) + Coming(d, n, 1).bytes == Coming(d, n, 1).bytes;
  }

  // ---------- FAST ----------

  class FastOutput {
    const tt: array<int>
    const nblock: nat       // save_nblock
    const limit: nat        // 100000 * blockSize100k
    var tPos: int
    var k0: int
    var nblockUsed: int
    var outCh: byte
    var outLen: int
    var crc: bv32
    var availOut: nat       // strm->avail_out
    ghost const c: seq<byte>
    ghost const t: seq<int>
    ghost const origPtr: nat

    /** The vector and the stream: nothing in the output phase changes them. */
    ghost predicate Loaded()
      reads tt
    {
      && |c| == nblock && origPtr < nblock <= limit && nblock <= tt.Length
      && IsTInverse(c, t)
      && forall x :: 0 <= x < nblock ==> tt[x] == t[x] * 256 + c[x]
    }

    /** After `used` bytes have been fetched, what the scalars hold. */
    ghost predicate At(pos: int, k: int, used: int)
      reads tt
      requires Loaded()
    {
      TInverseIsPerm(c, t);
      && 1 <= used <= nblock + 2
      && pos == Iter(t, origPtr, used + 1)
      && 0 <= k < 256
      && (used <= nblock ==> k == StreamOf(c, t, origPtr)[used - 1])
    }

    ghost predicate Valid()
      reads this, tt
    {
      Loaded() && At(tPos, k0, nblockUsed) && 0 <= outLen
    }

    ghost function ToCome(): Expansion
      reads this, tt
      requires Valid()
    {
      Remaining(StreamOf(c, t, origPtr), nblock, nblockUsed, outCh, outLen)
    }

    /** BZ_GET_FAST: the bounds test that would report corruption never succeeds. */
    method Get(pos: int, ghost r: nat) returns (bad: bool, ch: byte, pos': int)
      requires Loaded() && IsPerm(t, nblock) && pos == Iter(t, origPtr, r + 1)
      ensures !bad && ch == Fetched(c, t, origPtr, r) && pos' == Iter(t, origPtr, r + 2)
    {
      bad, ch, pos' := pos >= limit, 0, pos;
      if bad {
        return;
      }
      var word := tt[pos];
      ch, pos' := word % 256, word / 256;
    }

    /** decompress.c:522-540: build the vector and fetch the first byte. */
    constructor (tt: array<int>, cftab: array<int>, nblock: nat, limit: nat, origPtr: nat, ghost c: seq<byte>, room: nat)
      requires tt != cftab && |c| == nblock && nblock <= tt.Length && nblock <= limit && cftab.Length == 257
      requires forall x :: 0 <= x < nblock ==> tt[x] == c[x]
      requires forall v :: 0 <= v <= 256 ==> cftab[v] == CountLess(c, v)
      requires origPtr < nblock
      modifies tt, cftab
      ensures Valid() && this.c == c && this.origPtr == origPtr && this.tt == tt && this.nblock == nblock
      ensures nblockUsed == 1 && outLen == 0 && crc == BlockCrc.INITIAL && availOut == room
      ensures ToCome() == Coming(StreamOf(c, t, origPtr), nblock, 1)
    {
      BuildFast(tt, cftab, nblock, c);
      ghost var t' := Upper(tt[..], nblock);
      TInverseIsPerm(c, t');
      this.tt, this.nblock, this.limit, this.origPtr, this.c, this.t := tt, nblock, limit, origPtr, c, t';
      outLen, outCh, crc, availOut := 0, 0, BlockCrc.INITIAL, room;
      var pos := tt[origPtr] / 256;
      assert Iter(t', origPtr, 1) == t'[Iter(t', origPtr, 0)] == pos;
      var word := tt[pos];
      k0, tPos, nblockUsed := word % 256, word / 256, 1;
      assert Iter(t', origPtr, 2) == word / 256;
      assert Fetched(c, t', origPtr, 0) == word % 256;
      new;
      NothingPending(StreamOf(c, t', origPtr), nblock, outCh);
    }

    /** The caller's room for output. */
    method SetRoom(room: nat)
      requires Valid()
      modifies this`availOut
      ensures Valid() && ToCome() == old(ToCome()) && crc == old(crc) && availOut == room
    {
      availOut := room;
    }

    /** The part of the loop that reads up to the next run's length. */
    method StartRun(pos: int, k: int, used: int) returns (bad: bool, pos': int, k': int, used': int, ch: byte, len: int)
      requires Loaded() && At(pos, k, used) && used <= nblock
      ensures !bad && At(pos', k', used')
      ensures ch == StreamOf(c, t, origPtr)[used - 1]
      ensures (len, used') == NextRun(StreamOf(c, t, origPtr), nblock, used)
    {
      hide Fetched, IsTInverse, Iter;
      TInverseIsPerm(c, t);
      ghost var d := StreamOf(c, t, origPtr);
      var end := nblock + 1;
      var k1: byte;
      bad, pos', k', used', ch, len := false, pos, k, used, k, 1;
      bad, k1, pos' := Get(pos', used'); used' := used' + 1;
      if k1 != k' {
        k' := k1;
        return;
      }
      if used' == end {
        return;
      }
      len := 2;
      bad, k1, pos' := Get(pos', used'); used' := used' + 1;
      if used' == end {
        return;
      }
      if k1 != k' {
        k' := k1;
        return;
      }
      len := 3;
      bad, k1, pos' := Get(pos', used'); used' := used' + 1;
      if used' == end {
        return;
      }
      if k1 != k' {
        k' := k1;
        return;
      }
      bad, k1, pos' := Get(pos', used'); used' := used' + 1;
      len := k1 as int + 4;
      var k2: byte;
      bad, k2, pos' := Get(pos', used'); used' := used' + 1;
      k' := k2;
    }

    /** The test by which BZ2_bzDecompress finds that the block has been handed out. */
    predicate Done()
      reads this
    {
      nblockUsed == nblock + 1 && outLen == 0
    }

    /** unRLE_obuf_to_output_FAST.  It works on copies of the scalars and stores them back only
        when it does not report corruption, so a corrupt block leaves avail_out as it was. */
    method UnRle() returns (written: seq<byte>, corrupt: bool)
      requires Valid()
      modifies this
      ensures written == Handed(old(ToCome()), old(availOut))
      ensures corrupt <==> old(ToCome()).corrupt && |old(ToCome()).bytes| <= old(availOut)
      ensures Valid()
      ensures corrupt ==> unchanged(this)
      ensures !corrupt ==> availOut == old(availOut) - |written|
      ensures !corrupt ==> crc == BlockCrc.Over(old(crc), written)
      ensures !corrupt ==> ToCome() == Expansion(old(ToCome()).bytes[|written|..], old(ToCome()).corrupt)
      ensures !corrupt ==> (Done() <==> !old(ToCome()).corrupt && |old(ToCome()).bytes| <= old(availOut))
    {
      hide Emitting, Remaining, NextRun, Coming, At, Handed, BlockCrc.Update, BlockCrc.Over;
      UsedRange(tPos, k0, nblockUsed);
      ghost var d := StreamOf(c, t, origPtr);
      ghost var p := ToCome();
      ghost var crc0 := crc;
      var cCrc, cCh, cLen, cUsed, cK0, cPos, room := crc, outCh, outLen, nblockUsed, k0, tPos, availOut;
      written := [];
      EmitStart(d, nblock, cUsed, cCh, cLen);
      CrcNone(crc0);
      while true
        invariant 0 <= cLen && At(cPos, cK0, cUsed) && 1 <= cUsed <= nblock + 2
        invariant Emitting(p, written, d, nblock, cUsed, cCh, cLen)
        invariant 0 <= room && |written| + room == old(availOut)
        invariant cCrc == BlockCrc.Over(crc0, written)
        decreases nblock + 2 - cUsed, cLen
        modifies {}
      {
        if cLen > 0 {
          while room > 0 && cLen > 0
            invariant 0 <= cLen && Emitting(p, written, d, nblock, cUsed, cCh, cLen)
            invariant 0 <= room && |written| + room == old(availOut)
            invariant cCrc == BlockCrc.Over(crc0, written)
            decreases cLen
            modifies {}
          {
            EmitOne(p, written, d, nblock, cUsed, cCh, cLen);
            CrcOne(crc0, written, cCh);
            written := written + [cCh];
            cCrc := BlockCrc.Update(cCrc, cCh);
            cLen, room := cLen - 1, room - 1;
          }
          if cLen > 0 {
            EmitShort(p, written, d, nblock, cUsed, cCh, cLen);
            HandedPart(p, written);
            break;
          }
        }
        if cUsed > nblock + 1 {
          EmitEnd(p, written, d, nblock, cUsed, cCh);
          HandedAll(p, written, availOut);
          corrupt := true;
          return;
        }
        if cUsed == nblock + 1 {
          EmitEnd(p, written, d, nblock, cUsed, cCh);
          HandedAll(p, written, availOut);
          EmitShort(p, written, d, nblock, cUsed, cCh, cLen);
          break;
        }
        EmitRun(p, written, d, nblock, cUsed, cCh);
        var bad;
        bad, cPos, cK0, cUsed, cCh, cLen := StartRun(cPos, cK0, cUsed);
        if bad {
          corrupt := true;
          return;
        }
        UsedRange(cPos, cK0, cUsed);
      }
      corrupt := false;
      crc, outCh, outLen, nblockUsed, k0, tPos, availOut := cCrc, cCh, cLen, cUsed, cK0, cPos, room;
    }

    lemma UsedRange(pos: int, k: int, used: int)
      requires Loaded() && At(pos, k, used)
      ensures 1 <= used <= nblock + 2
    {
    }
  }

  // ---------- SMALL ----------

  /** BZ2_indexIntoF: binary search for the one bucket that holds position indx. */
  method IndexIntoF(indx: int, cftab: array<int>) returns (nb: int)
    requires cftab.Length == 257 && cftab[0] <= indx < cftab[256]
    ensures 0 <= nb < 256 && cftab[nb] <= indx < cftab[nb + 1]
  {
    nb := 0;
    var na := 256;
    while na - nb != 1
      invariant 0 <= nb < na <= 256 && cftab[nb] <= indx < cftab[na]
      decreases na - nb
    {
      var mid := (nb + na) / 2;
      if indx >= cftab[mid] {
        nb := mid;
      } else {
        na := mid;
      }
    }
  }

  /** The bucket found is the byte that the item sent to this place holds. */
  lemma BucketIsByte(c: seq<byte>, t: seq<int>, x: int, v: int)
    requires IsTInverse(c, t) && 0 <= x < |c|
    requires CountLess(c, v) <= x < CountLess(c, v + 1)
    ensures 0 <= t[x] < |c| && c[t[x]] == v
  {
    TInverseAt(c, t, x);
    var w := c[t[x]];
    if v < w {
      CountMonotone(c, v + 1, w);
    } else if w < v {
      CountMonotone(c, w + 1, v);
    }
  }

  method CopyTable(cftab: array<int>, cftabCopy: array<int>)
    requires cftab != cftabCopy && cftab.Length == 257 && cftabCopy.Length == 257
    modifies cftabCopy
    ensures cftabCopy[..] == cftab[..]
  {
    var i := 0;
    while i <= 256
      invariant 0 <= i <= 257
      invariant cftabCopy[..i] == cftab[..i]
    {
      cftabCopy[i] := cftab[i];
      i := i + 1;
    }
  }

  method BuildSmall(ll16: array<int>, ll4: array<int>, cftab: array<int>, cftabCopy: array<int>,
                    nblock: nat, origPtr: nat, ghost c: seq<byte>, ghost t: seq<int>)
    requires cftab != ll16 && cftab != ll4 && cftab != cftabCopy && cftabCopy != ll16 && cftabCopy != ll4
    requires |c| == nblock && nblock < 0x10_0000 && Packed(ll16, ll4, nblock)
    requires cftab.Length == 257 && cftabCopy.Length == 257 && IsTInverse(c, t) && origPtr < nblock
    requires forall x :: 0 <= x < nblock ==> ll16[x] == c[x]
    requires forall v :: 0 <= v <= 256 ==> cftab[v] == CountLess(c, v)
    modifies ll16, ll4, cftabCopy
    ensures Packed(ll16, ll4, nblock)
    ensures forall x :: 0 <= x < nblock && OnCycle(c, origPtr, x) ==>
      LL(ll16[..], ll4[..], x) == t[x] && OnCycle(c, origPtr, t[x])
  {
    hide OnCycle, LL, CountLess, Place, IsTInverse;
    CopyTable(cftab, cftabCopy);
    assert forall v :: 0 <= v <= 256 ==> cftabCopy[v] == cftabCopy[..][v] == cftab[..][v] == cftab[v];
    BuildForward(ll16, ll4, cftabCopy, nblock, c);
    ReverseCycle(ll16, ll4, nblock, origPtr, c, t);
  }

  class SmallOutput {
    const ll16: array<int>
    const ll4: array<int>
    const cftab: array<int>
    const nblock: nat
    const limit: nat
    var tPos: int
    var k0: int
    var nblockUsed: int
    var outCh: byte
    var outLen: int
    var crc: bv32
    var availOut: nat
    ghost const c: seq<byte>
    ghost const t: seq<int>
    ghost const origPtr: nat

    /** The reversed cycle and the bucket starts. */
    ghost predicate Loaded()
      reads ll16, ll4, cftab
    {
      && |c| == nblock && origPtr < nblock <= limit && Packed(ll16, ll4, nblock)
      && cftab.Length == 257
      && IsTInverse(c, t)
      && (forall v :: 0 <= v <= 256 ==> cftab[v] == CountLess(c, v))
      && (forall x :: 0 <= x < nblock && OnCycle(c, origPtr, x) ==>
            LL(ll16[..], ll4[..], x) == t[x] && OnCycle(c, origPtr, t[x]))
    }

    /** The small decoder's position is one step behind the fast one's. */
    ghost predicate Tracking()
      reads this`tPos, this`nblockUsed, ll16, ll4, cftab
    {
      && Loaded() && IsPerm(t, nblock)
      && 0 <= nblockUsed
      && tPos == Iter(t, origPtr, nblockUsed) && OnCycle(c, origPtr, tPos)
    }

    ghost predicate Valid()
      reads this, ll16, ll4, cftab
    {
      && Tracking() && IsTInverse(c, t) && origPtr < nblock == |c|
      && 1 <= nblockUsed <= nblock + 2 && 0 <= outLen
      && 0 <= k0 < 256
      && (nblockUsed <= nblock ==> k0 == StreamOf(c, t, origPtr)[nblockUsed - 1])
    }

    ghost function ToCome(): Expansion
      reads this, ll16, ll4, cftab
      requires Valid()
    {
      Remaining(StreamOf(c, t, origPtr), nblock, nblockUsed, outCh, outLen)
    }

    predicate Done()
      reads this
    {
      nblockUsed == nblock + 1 && outLen == 0
    }

    /** BZ_GET_SMALL, and the byte counted. */
    method Fetch() returns (bad: bool, ch: byte)
      requires Tracking()
      modifies this`tPos, this`nblockUsed
      ensures Tracking() && nblockUsed == old(nblockUsed) + 1
      ensures !bad && ch == Fetched(c, t, origPtr, old(nblockUsed))
    {
      hide OnCycle, LL;
      bad, ch := tPos >= limit, 0;
      if bad {
        return;
      }
      CountAll(c, 0, 256);
      var nb := IndexIntoF(tPos, cftab);
      BucketIsByte(c, t, tPos, nb);
      ch := nb;
      tPos := GetLL(ll16, ll4, tPos, nblock);
      nblockUsed := nblockUsed + 1;
    }

    /** decompress.c:494-521: T in place, one cycle reversed, and the first byte fetched. */
    constructor (ll16: array<int>, ll4: array<int>, cftab: array<int>, cftabCopy: array<int>,
                 nblock: nat, limit: nat, origPtr: nat, ghost c: seq<byte>, ghost t: seq<int>, room: nat)
      requires cftab != ll16 && cftab != ll4 && cftab != cftabCopy && cftabCopy != ll16 && cftabCopy != ll4
      requires |c| == nblock && nblock <= limit && nblock < 0x10_0000 && Packed(ll16, ll4, nblock)
      requires cftab.Length == 257 && cftabCopy.Length == 257 && IsTInverse(c, t)
      requires forall x :: 0 <= x < nblock ==> ll16[x] == c[x]
      requires forall v :: 0 <= v <= 256 ==> cftab[v] == CountLess(c, v)
      requires origPtr < nblock
      modifies ll16, ll4, cftabCopy
      ensures Valid() && this.c == c && this.t == t && this.origPtr == origPtr && this.nblock == nblock
      ensures this.ll16 == ll16 && this.ll4 == ll4 && this.cftab == cftab
      ensures nblockUsed == 1 && outLen == 0 && crc == BlockCrc.INITIAL && availOut == room
      ensures ToCome() == Coming(StreamOf(c, t, origPtr), nblock, 1)
    {
      hide *;
      BuildSmall(ll16, ll4, cftab, cftabCopy, nblock, origPtr, c, t);
      this.ll16, this.ll4, this.cftab := ll16, ll4, cftab;
      this.nblock, this.limit, this.origPtr, this.c, this.t := nblock, limit, origPtr, c, t;
      outLen, outCh, crc, availOut := 0, 0, BlockCrc.INITIAL, room;
      tPos, k0, nblockUsed := origPtr, 0, 0;
      new;
      TrackingStart();
      var bad, k1 := Fetch();
      k0 := k1;
      FirstFetched();
    }

    lemma TrackingStart()
      requires |c| == nblock && origPtr < nblock <= limit && Packed(ll16, ll4, nblock) && cftab.Length == 257
        && IsTInverse(c, t)
      requires tPos == origPtr && nblockUsed == 0 && forall v :: 0 <= v <= 256 ==> cftab[v] == CountLess(c, v)
      requires forall x :: 0 <= x < nblock && OnCycle(c, origPtr, x) ==>
        LL(ll16[..], ll4[..], x) == t[x] && OnCycle(c, origPtr, t[x])
      ensures Tracking()
    {
      hide OnCycle, LL, CountLess, Place, Packed;
      TInverseIsPerm(c, t);
      OriginOnCycle(c, origPtr);
      assert Iter(t, origPtr, 0) == origPtr;
    }

    lemma FirstFetched()
      requires Tracking() && IsTInverse(c, t) && origPtr < nblock == |c| && nblockUsed == 1 && outLen == 0
      requires k0 == Fetched(c, t, origPtr, 0)
      ensures Valid() && ToCome() == Coming(StreamOf(c, t, origPtr), nblock, 1)
    {
      hide Tracking, Coming, Fetched, NextRun, Remaining;
      NothingPending(StreamOf(c, t, origPtr), nblock, outCh);
    }

    /** The caller's room for output. */
    method SetRoom(room: nat)
      requires Valid()
      modifies this`availOut
      ensures Valid() && ToCome() == old(ToCome()) && crc == old(crc) && availOut == room
    {
      availOut := room;
    }

    /** The part of the loop that reads up to the next run's length. */
    method StartRun() returns (bad: bool)
      requires Valid() && nblockUsed <= nblock && outLen == 0
      modifies this
      ensures Valid() && !bad
      ensures crc == old(crc) && availOut == old(availOut)
      ensures outCh == StreamOf(c, t, origPtr)[old(nblockUsed) - 1]
      ensures (outLen, nblockUsed) == NextRun(StreamOf(c, t, origPtr), nblock, old(nblockUsed))
    {
      hide Fetched, IsTInverse, Tracking;
      ghost var d := StreamOf(c, t, origPtr);
      var end := nblock + 1;
      var k1: byte;
      outLen := 1;
      outCh := k0;
      bad, k1 := Fetch();
      if nblockUsed == end {
        return;
      }
      if k1 != k0 {
        k0 := k1;
        return;
      }
      outLen := 2;
      bad, k1 := Fetch();
      if nblockUsed == end {
        return;
      }
      if k1 != k0 {
        k0 := k1;
        return;
      }
      outLen := 3;
      bad, k1 := Fetch();
      if nblockUsed == end {
        return;
      }
      if k1 != k0 {
        k0 := k1;
        return;
      }
      bad, k1 := Fetch();
      outLen := k1 as int + 4;
      var k2: byte;
      bad, k2 := Fetch();
      k0 := k2;
    }

    /** unRLE_obuf_to_output_SMALL.  It tests for room before anything else, so it reports a
        corrupt block only when there is room left over; its counters are always current. */
    method UnRle() returns (written: seq<byte>, corrupt: bool)
      requires Valid()
      modifies this
      ensures written == Handed(old(ToCome()), old(availOut))
      ensures corrupt <==> old(ToCome()).corrupt && |old(ToCome()).bytes| < old(availOut)
      ensures Valid()
      ensures availOut == old(availOut) - |written| && crc == BlockCrc.Over(old(crc), written)
      ensures ToCome() == Expansion(old(ToCome()).bytes[|written|..], old(ToCome()).corrupt)
      ensures Done() <==> !old(ToCome()).corrupt && |old(ToCome()).bytes| <= old(availOut)
    {
      hide Emitting, Remaining, NextRun, Coming, Tracking, IsTInverse, Handed, BlockCrc.Update, BlockCrc.Over;
      ghost var d := StreamOf(c, t, origPtr);
      ghost var p := ToCome();
      written := [];
      EmitStart(d, nblock, nblockUsed, outCh, outLen);
      CrcNone(crc);
      while true
        invariant Valid() && 1 <= nblockUsed <= nblock + 2
        invariant Emitting(p, written, d, nblock, nblockUsed, outCh, outLen)
        invariant |written| + availOut == old(availOut) && crc == BlockCrc.Over(old(crc), written)
        decreases nblock + 2 - nblockUsed, outLen
      {
        written := Drain(p, written, d, old(crc));
        EmitShort(p, written, d, nblock, nblockUsed, outCh, outLen);
        if availOut == 0 {
          HandedPart(p, written);
          DoneWhen(p, written, d);
          corrupt := false;
          return;
        }
        if nblockUsed == nblock + 1 {
          EmitEnd(p, written, d, nblock, nblockUsed, outCh);
          HandedAll(p, written, old(availOut));
          corrupt := false;
          return;
        }
        if nblockUsed > nblock + 1 {
          EmitEnd(p, written, d, nblock, nblockUsed, outCh);
          HandedAll(p, written, old(availOut));
          corrupt := true;
          return;
        }
        EmitRun(p, written, d, nblock, nblockUsed, outCh);
        var bad := StartRun();
        if bad {
          corrupt := true;
          return;
        }
      }
    }

    /** The inner loop: finish the current run as far as there is room. */
    method Drain(ghost p: Expansion, sofar: seq<byte>, ghost d: seq<byte>, ghost crc0: bv32) returns (written: seq<byte>)
      requires Valid() && d == StreamOf(c, t, origPtr) && 1 <= nblockUsed <= nblock + 2
      requires Emitting(p, sofar, d, nblock, nblockUsed, outCh, outLen) && crc == BlockCrc.Over(crc0, sofar)
      modifies this`outLen, this`crc, this`availOut
      ensures Valid() && outLen <= old(outLen) && (availOut == 0 || outLen == 0)
      ensures Emitting(p, written, d, nblock, nblockUsed, outCh, outLen)
      ensures |written| + availOut == |sofar| + old(availOut) && crc == BlockCrc.Over(crc0, written)
    {
      hide Emitting, Remaining, Tracking, IsTInverse, BlockCrc.Update, BlockCrc.Over;
      written := sofar;
      while availOut > 0 && outLen > 0
        invariant Valid() && 0 <= outLen <= old(outLen)
        invariant Emitting(p, written, d, nblock, nblockUsed, outCh, outLen)
        invariant |written| + availOut == |sofar| + old(availOut) && crc == BlockCrc.Over(crc0, written)
        decreases outLen
      {
        EmitOne(p, written, d, nblock, nblockUsed, outCh, outLen);
        CrcOne(crc0, written, outCh);
        written := written + [outCh];
        crc := BlockCrc.Update(crc, outCh);
        outLen, availOut := outLen - 1, availOut - 1;
      }
    }

    /** With no room left, the block is done exactly when nothing is to come and all was well. */
    lemma DoneWhen(p: Expansion, written: seq<byte>, d: seq<byte>)
      requires Valid() && d == StreamOf(c, t, origPtr)
      requires Emitting(p, written, d, nblock, nblockUsed, outCh, outLen)
      ensures Done() <==> !p.corrupt && |p.bytes| <= |written|
    {
    }
  }

  lemma OriginOnCycle(c: seq<byte>, o: int)
    requires 0 <= o < |c|
    ensures OnCycle(c, o, o)
  {
    assert Forward(c, o, 0) == o;
  }

  lemma CrcNone(crc: bv32)
    ensures BlockCrc.Over(crc, []) == crc
  {
  }

  lemma CrcOne(crc: bv32, s: seq<byte>, ch: byte)
    ensures BlockCrc.Over(crc, s + [ch]) == BlockCrc.Update(BlockCrc.Over(crc, s), ch)
  {
    assert (s + [ch])[..|s|] == s;
  }
}
