/** The bit writer of the compressor (dep/bzip2/compress.c:37-94). */
module BitWriter {
  import opened Powers
  import opened BitStrings
  import opened BlockFormat

  // ---------- Bits held at the top of a 32-bit word ----------

  /** The word that holds these bits at its top, and zeros below. */
  ghost function Packed(s: seq<bool>): (w: nat)
    requires |s| <= 32
  {
    Value(s) * Pow2(32 - |s|)
  }

  lemma Pow2Word()
    ensures Pow2(8) == 0x100 && Pow2(24) == 0x100_0000 && Pow2(32) == 0x1_0000_0000
  {
    hide Pow2;
    Pow2Next(0);
    assert Pow2(4) == 16 by { Pow2Next(0); Pow2Next(1); Pow2Next(2); Pow2Next(3); }
    Pow2Add(4, 4);
    Pow2Add(8, 16);
    Pow2Add(8, 8);
    Pow2Add(24, 8);
  }

  /** A packed word: the leading byte, and below it the packed rest. */
  lemma PackedSplit(s: seq<bool>) returns (a: nat, r: nat)
    requires 8 <= |s| <= 32
    ensures a == Value(s[..8]) < 256 && r == Value(s[8..]) * Pow2(32 - |s|) < 0x100_0000
    ensures Packed(s) == a * 0x100_0000 + r
  {
    hide Value, Pow2;
    Pow2Word();
    assert s == s[..8] + s[8..];
    BitsOfValue(s[..8]);
    ValueConcat(s[..8], s[8..]);
    Pow2Add(|s| - 8, 32 - |s|);
    a := Value(s[..8]);
    r := SplitProduct(Value(s), a, Value(s[8..]), Pow2(|s| - 8), Pow2(32 - |s|));
  }

  lemma SplitProduct(v: nat, a: nat, b: nat, p: nat, q: nat) returns (r: nat)
    requires v == a * p + b && b < p && p * q == 0x100_0000
    ensures v * q == a * 0x100_0000 + r && r == b * q < 0x100_0000
  {
    r := b * q;
    Distribute(a * p, b, q);
    Associate(a, p, q);
    MulMonotone(b + 1, p, q);
    Distribute(b, 1, q);
  }

  /** The top byte is the first eight bits; shifting it out leaves the rest, packed. */
  lemma TopByte(s: seq<bool>)
    requires 8 <= |s| <= 32
    ensures Packed(s) / 0x100_0000 == Value(s[..8]) < 256
    ensures Packed(s) * 0x100 % 0x1_0000_0000 == Packed(s[8..])
    ensures Bits(Value(s[..8]), 8) == s[..8]
  {
    hide Value, Pow2, Bits;
    Pow2Word();
    var a, r := PackedSplit(s);
    BitsOfValue(s[..8]);
    var b, q := Value(s[8..]), Pow2(32 - |s|);
    Pow2Add(8, 32 - |s|);
    assert 0x100 * q == Pow2(32 - |s[8..]|);
    Rotate(b, q);
    Split(a, r);
  }

  lemma Rotate(b: int, q: int)
    ensures b * q * 0x100 == b * (0x100 * q)
  {
  }

  lemma Associate(a: int, b: int, c: int)
    ensures a * b * c == a * (b * c)
  {
  }

  lemma Split(a: nat, r: nat)
    requires a < 256 && r < 0x100_0000
    ensures (a * 0x100_0000 + r) / 0x100_0000 == a
    ensures (a * 0x100_0000 + r) * 0x100 % 0x1_0000_0000 == r * 0x100
  {
  }

  /** Or-ing in n bits below the ones held: they do not overlap, so or is addition. */
  lemma Append(s: seq<bool>, v: nat, n: nat)
    requires |s| + n <= 32 && v < Pow2(n)
    ensures Packed(s + Bits(v, n)) == Packed(s) + v * Pow2(32 - |s| - n)
    ensures Packed(s) % Pow2(32 - |s|) == 0 && v * Pow2(32 - |s| - n) < Pow2(32 - |s|)
  {
    hide Value, Pow2, Bits;
    ValueConcat(s, Bits(v, n));
    ValueOfBits(v, n);
    var p := Pow2(32 - |s| - n);
    Pow2Add(n, 32 - |s| - n);
    Distribute(Value(s) * Pow2(n), v, p);
    Associate(Value(s), Pow2(n), p);
    MulMonotone(v + 1, Pow2(n), p);
    Distribute(v, 1, p);
    MultipleOf(Value(s), Pow2(32 - |s|));
  }

  lemma MultipleOf(a: nat, p: nat)
    requires p >= 1
    ensures a * p % p == 0
  {
    DivUnique(a * p, p, a, 0);
  }

  lemma {:induction false} BytesAppend(s: seq<nat>, x: nat)
    ensures Bytes(s + [x]) == Bytes(s) + Bits(x, 8)
  {
    hide Bits;
    if s == [] {
      assert [x][1..] == [];
      assert Bits(x, 8) + [] == Bits(x, 8) == [] + Bits(x, 8);
    } else {
      BytesAppend(s[1..], x);
      assert (s + [x])[1..] == s[1..] + [x];
      assert (Bits(s[0], 8) + Bytes(s[1..])) + Bits(x, 8) == Bits(s[0], 8) + (Bytes(s[1..]) + Bits(x, 8));
    }
  }

  lemma {:induction false} BytesLength(s: seq<nat>)
    ensures |Bytes(s)| == 8 * |s|
  {
    if s != [] {
      BytesLength(s[1..]);
    }
  }

  // ---------- The writer ----------

  /** bsBuff, bsLive, zbits and numZ of the compressor's state. */
  class Writer {
    const zbits: array<nat>
    var numZ: nat
    var bsBuff: nat
    var bsLive: int
    /** The bits in bsBuff. */
    ghost var pending: seq<bool>

    ghost predicate Valid()
      reads this, zbits
    {
      && bsLive == |pending| <= 31 && bsBuff == Packed(pending)
      && numZ <= zbits.Length && 8 * numZ + bsLive <= 8 * zbits.Length && AllBytes()
    }

    /** What has been put into zbits are bytes. */
    ghost predicate AllBytes()
      reads this, zbits
    {
      forall k :: 0 <= k < numZ && k < zbits.Length ==> zbits[k] < 256
    }

    /** Everything written since numZ was last reset. */
    ghost function Written(): (s: seq<bool>)
      reads this, zbits
    {
      if numZ <= zbits.Length then Bytes(zbits[..numZ]) + pending else []
    }

    /** Bits that still fit. */
    ghost function Room(): (r: int)
      reads this, zbits
    {
      8 * zbits.Length - 8 * numZ - bsLive
    }

    /** BZ2_bsInitWrite, with numZ at 0. */
    constructor (zbits: array<nat>)
      ensures Valid() && numZ == 0 && Written() == [] && this.zbits == zbits && Room() == 8 * zbits.Length
    {
      this.zbits := zbits;
      numZ, bsBuff, bsLive, pending := 0, 0, 0, [];
      new;
      assert Bytes(zbits[..0]) == [];
      assert Value([]) == 0;
    }

    /** numZ = 0: the bytes have been handed out, bits short of a byte stay. */
    method Restart()
      requires Valid()
      modifies this
      ensures Valid() && numZ == 0 && Written() == pending == old(pending) && bsLive == old(bsLive)
      ensures Room() == 8 * zbits.Length - bsLive
    {
      numZ := 0;
      assert Bytes(zbits[..0]) == [];
      assert [] + pending == pending;
    }

    /** bsNEEDW. */
    method Drain()
      requires Valid()
      modifies this, zbits
      ensures Valid() && bsLive <= 7 && Written() == old(Written()) && Room() == old(Room())
      ensures numZ >= old(numZ) && zbits[..old(numZ)] == old(zbits[..numZ])
    {
      hide Packed, Bytes, Bits, Value;
      while bsLive >= 8
        invariant Valid() && Written() == old(Written()) && Room() == old(Room())
        invariant numZ >= old(numZ) && zbits[..old(numZ)] == old(zbits[..numZ])
        decreases bsLive
      {
        EmitByte();
      }
    }

    /** One byte from the top of the buffer. */
    method EmitByte()
      requires 8 <= |pending| <= 32 && bsBuff == Packed(pending) && numZ < zbits.Length && AllBytes()
      modifies this, zbits
      ensures pending == old(pending)[8..] && bsBuff == Packed(pending) && bsLive == old(bsLive) - 8
      ensures numZ == old(numZ) + 1 && Written() == old(Written()) && AllBytes()
      ensures zbits[..old(numZ)] == old(zbits[..numZ])
    {
      hide Packed, Bytes, Bits, Value;
      TopByte(pending);
      zbits[numZ] := bsBuff / 0x100_0000;
      BytesAppend(zbits[..numZ], zbits[numZ]);
      assert zbits[..numZ + 1] == zbits[..numZ] + [zbits[numZ]];
      assert pending == pending[..8] + pending[8..];
      numZ := numZ + 1;
      bsBuff := bsBuff * 0x100 % 0x1_0000_0000;
      bsLive := bsLive - 8;
      pending := pending[8..];
    }

    /** bsW: the n low bits of v. */
    method W(n: nat, v: nat)
      requires Valid() && n <= 24 && v < Pow2(n) && n <= Room()
      modifies this, zbits
      ensures Valid() && Written() == old(Written()) + Bits(v, n) && Room() == old(Room()) - n
      ensures numZ >= old(numZ) && zbits[..old(numZ)] == old(zbits[..numZ])
    {
      hide Packed, Bytes, Bits, Value;
      Drain();
      Append(pending, v, n);
      bsBuff := bsBuff + v * Shift(32 - bsLive - n);
      bsLive := bsLive + n;
      pending := pending + Bits(v, n);
      assert Written() == old(Written()) + Bits(v, n);
    }

    /** bsFinishWrite: the last byte is padded with zeros. */
    method FinishWrite()
      requires Valid()
      modifies this, zbits
      ensures numZ <= zbits.Length && -7 <= bsLive <= 0 && pending == [] && AllBytes()
      ensures exists pad: seq<bool> :: Padding(pad) && Bytes(zbits[..numZ]) == old(Written()) + pad
    {
      hide Packed, Bytes, Bits, Value;
      ghost var pad: seq<bool> := seq((8 - bsLive % 8) % 8, i => false);
      PadZeros(pending, |pad|);
      pending := pending + pad;
      ghost var all := Written();
      assert all == old(Written()) + pad;
      while bsLive > 0
        invariant -7 <= bsLive && |pending| == bsLive + |pad| <= 32 && |pending| % 8 == 0
        invariant numZ <= zbits.Length && bsBuff == Packed(pending) && Written() == all && AllBytes()
        invariant 8 * numZ + bsLive <= 8 * zbits.Length
        decreases bsLive
      {
        EmitByte();
      }
      assert pending == [] && Written() == Bytes(zbits[..numZ]);
    }
  }

  /** With more than 31 bits written some byte is complete. */
  lemma SomeByte(w: Writer)
    requires w.Valid() && |w.Written()| > 31
    ensures w.numZ > 0
  {
    hide Packed;
    BytesLength(w.zbits[..w.numZ]);
  }

  ghost predicate Padding(pad: seq<bool>) {
    |pad| < 8 && forall i :: 0 <= i < |pad| ==> !pad[i]
  }

  function Shift(k: nat): (p: nat)
    ensures p == Pow2(k)
  {
    Pow2(k)
  }

  /** Trailing zeros do not change the word. */
  lemma {:induction false} PadZeros(s: seq<bool>, k: nat)
    requires |s| + k <= 32
    ensures Packed(s + seq(k, i => false)) == Packed(s)
  {
    hide Value, Pow2;
    if k == 0 {
      assert s + seq(0, i => false) == s;
    } else {
      PadZeros(s, k - 1);
      var t := s + seq(k - 1, i => false);
      assert s + seq(k, i => false) == t + [false];
      Pow2Next(32 - |t| - 1);
      PushFalse(t);
      Double(Value(t), Pow2(32 - |t| - 1));
      DoubleFirst(Value(t), Pow2(32 - |t| - 1));
    }
  }

  lemma PushFalse(s: seq<bool>)
    ensures Value(s + [false]) == 2 * Value(s)
  {
    assert (s + [false])[..|s|] == s;
  }
}
