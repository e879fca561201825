/** GET_BITS: the decompressor's bit buffer (dep/bzip2/decompress.c:39-61). */
module BitReader {
  import opened Rotations
  import opened Powers
  import opened BitStrings
  import opened BlockFormat
  import opened BitWriter

  const TWO32 := 0x1_0000_0000

  /** The bits of the caller's input. */
  ghost function InBits(s: seq<byte>): seq<bool> {
    if s == [] then [] else Bits(s[0], 8) + InBits(s[1..])
  }

  lemma {:induction false} InBitsConcat(s: seq<byte>, t: seq<byte>)
    ensures InBits(s + t) == InBits(s) + InBits(t)
  {
    hide Bits;
    if s == [] {
      assert s + t == t;
    } else {
      InBitsConcat(s[1..], t);
      assert (s + t)[1..] == s[1..] + t;
    }
  }

  /** Bytes given out by the compressor are bytes taken in by the decompressor. */
  lemma {:induction false} InBitsAreBytes(s: seq<byte>, t: seq<nat>)
    requires s == t
    ensures InBits(s) == Bytes(t)
  {
    if s != [] {
      InBitsAreBytes(s[1..], t[1..]);
    }
  }

  // ---------- The word as a number ----------

  /** The low bits of the buffer word; what is above them is left over from earlier reads. */
  ghost predicate Buffer(buff: nat, high: nat, pending: seq<bool>) {
    buff == high * Pow2(|pending|) + Value(pending) && buff < TWO32
  }

  /** Taking the n topmost live bits. */
  lemma BufferTake(buff: nat, high: nat, pending: seq<bool>, n: nat) returns (high': nat)
    requires Buffer(buff, high, pending) && n <= |pending|
    ensures buff / Pow2(|pending| - n) % Pow2(n) == Value(pending[..n])
    ensures Buffer(buff, high', pending[n..])
  {
    hide Pow2, Value;
    var a, b, p := Value(pending[..n]), Value(pending[n..]), Pow2(|pending| - n);
    assert pending == pending[..n] + pending[n..];
    ValueConcat(pending[..n], pending[n..]);
    Pow2Add(n, |pending| - n);
    high' := high * Pow2(n) + a;
    Regroup(high, Pow2(n), p, a, b);
    BitsOfValue(pending[n..]);
    DivUnique(buff, p, high', b);
    DivUnique(high', Pow2(n), high, a);
  }

  lemma Regroup(h: nat, q: nat, p: nat, a: nat, b: nat)
    ensures h * (q * p) + (a * p + b) == (h * q + a) * p + b
  {
    Powers.Distribute(h * q, a, p);
    assert h * (q * p) == h * q * p;
  }

  /** Shifting in a byte; bits that leave the word at the top are not live. */
  lemma BufferPush(buff: nat, high: nat, pending: seq<bool>, x: byte) returns (high': nat)
    requires Buffer(buff, high, pending) && |pending| <= 24
    ensures Buffer((buff * 256 + x) % TWO32, high', pending + Bits(x, 8))
  {
    hide Pow2, Value, Bits;
    Pow2Word();
    var v, p, l := buff * 256 + x, Pow2(|pending| + 8), |pending|;
    ValueOfBits(x, 8);
    ValueConcat(pending, Bits(x, 8));
    Pow2Add(l, 8);
    Pow2Add(l + 8, 24 - l);
    var w := Value(pending + Bits(x, 8));
    assert v == high * p + w by { PushProduct(high, Pow2(l), Value(pending), x); }
    var k := v / TWO32;
    high' := Wrapped(v, high, p, w, k, Pow2(24 - l));
  }

  lemma PushProduct(h: nat, p: nat, v: nat, x: nat)
    ensures (h * p + v) * 256 + x == h * (p * 256) + (v * 256 + x)
  {
  }

  lemma Wrapped(v: nat, high: nat, p: nat, w: nat, k: nat, q: nat) returns (high': nat)
    requires v == high * p + w && w < p && TWO32 == p * q && k == v / TWO32
    ensures v % TWO32 == high' * p + w
  {
    var d: int := high - k * q;
    var back: int := d - high;
    assert v % TWO32 == v - k * TWO32;
    assert k * TWO32 == k * q * p;
    Powers.Distribute(high, back, p);
    assert back * p == -(k * q * p);
    assert v % TWO32 == d * p + w;
    if d < 0 {
      MulMonotone(d, -1, p);
    }
    high' := d;
  }

  class Reader {
    /** strm->next_in[0..avail_in-1]. */
    var nextIn: seq<byte>
    var bsBuff: nat
    var bsLive: nat
    ghost var high: nat
    ghost var pending: seq<bool>

    /** There are never more than 27 live bits, so the 32-bit word never overflows. */
    ghost predicate Valid()
      reads this
    {
      bsLive == |pending| <= 27 && Buffer(bsBuff, high, pending)
    }

    /** No more than a byte has been taken in beyond what n bits need. */
    ghost predicate Lean(n: nat)
      reads this
    {
      |pending| < 8 || |pending| < n
    }

    /** All bits not yet taken. */
    ghost function Rest(): seq<bool>
      reads this
    {
      pending + InBits(nextIn)
    }

    constructor ()
      ensures Valid() && Rest() == [] && nextIn == []
    {
      nextIn, bsBuff, bsLive, high, pending := [], 0, 0, 0, [];
    }

    /** The caller's input of the next call. */
    method Supply(input: seq<byte>)
      requires Valid()
      modifies this`nextIn
      ensures Valid() && nextIn == input
    {
      nextIn := input;
    }

    /** GET_BITS: n bits, or, when the input runs out first, nothing is lost. */
    method GetBits(n: nat) returns (ok: bool, v: nat)
      requires Valid() && 1 <= n <= 20
      modifies this
      ensures Valid() && |nextIn| <= old(|nextIn|) && nextIn == old(nextIn)[|old(nextIn)| - |nextIn|..]
      ensures ok <==> |old(Rest())| >= n
      ensures ok ==> v == Value(old(Rest())[..n]) && Rest() == old(Rest())[n..]
      ensures !ok ==> nextIn == [] && Rest() == old(Rest())
      ensures old(Lean(n)) ==> Lean(if ok then 0 else n)
    {
      hide Buffer, Value, InBits, Bits;
      ghost var rest := Rest();
      ghost var given := nextIn;
      v := 0;
      while bsLive < n
        invariant Valid() && Rest() == rest && |nextIn| <= |given| && nextIn == given[|given| - |nextIn|..]
        invariant bsLive == old(bsLive) || bsLive < n + 8
        decreases |nextIn|
      {
        if nextIn == [] {
          NoneLeft();
          return false, 0;
        }
        TakeByte(pending, nextIn);
        ghost var h := BufferPush(bsBuff, high, pending, nextIn[0]);
        high, pending := h, pending + Bits(nextIn[0], 8);
        bsBuff := (bsBuff * 256 + nextIn[0]) % TWO32;
        bsLive := bsLive + 8;
        nextIn := nextIn[1..];
      }
      ghost var h := BufferTake(bsBuff, high, pending, n);
      v := bsBuff / Pow2(bsLive - n) % Pow2(n);
      assert rest[..n] == pending[..n] && rest[n..] == pending[n..] + InBits(nextIn);
      high, pending := h, pending[n..];
      bsLive := bsLive - n;
      return true, v;
    }

    lemma NoneLeft()
      requires nextIn == []
      ensures Rest() == pending
    {
    }
  }

  lemma TakeByte(pending: seq<bool>, s: seq<byte>)
    requires s != []
    ensures pending + InBits(s) == pending + Bits(s[0], 8) + InBits(s[1..])
  {
  }
}
