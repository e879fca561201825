/** How the decoder builds the vector it follows: packed with the bytes in one word array
    (FAST), or by reversing one cycle in a 16 + 4 bit array (SMALL)
    (dep/bzip2/decompress.c:477-542, dep/bzip2/bzlib_private.h:444-479). */
module DecodeVectors {
  import opened Rotations
  import opened Counting
  import opened InverseBwt

  // ---------- Bucket starts ----------

  /** cftab: running totals of the byte frequencies.  The sanity check of the source on every
      entry is the second result; it never fails on true frequencies. */
  method SetUpCftab(unzftab: array<Int32>, cftab: array<int>, nblock: nat, ghost c: seq<byte>)
    returns (sane: bool)
    requires |c| == nblock && unzftab as object != cftab && unzftab.Length == 256 && cftab.Length == 257
    requires forall v :: 0 <= v < 256 ==> unzftab[v] == CountEq(c, v)
    modifies cftab
    ensures forall v :: 0 <= v <= 256 ==> cftab[v] == CountLess(c, v)
    ensures sane
  {
    CountAll(c, 0, 256);
    cftab[0] := 0;
    var i := 1;
    while i <= 256
      invariant 1 <= i <= 257 && cftab[0] == 0
      invariant forall v :: 1 <= v < i ==> cftab[v] == CountEq(c, v - 1)
    {
      cftab[i] := unzftab[i - 1];
      i := i + 1;
    }
    i := 1;
    while i <= 256
      invariant 1 <= i <= 257
      invariant forall v :: 0 <= v < i ==> cftab[v] == CountLess(c, v)
      invariant forall v :: i <= v <= 256 ==> cftab[v] == CountEq(c, v - 1)
    {
      CountNext(c, i - 1);
      cftab[i] := cftab[i] + cftab[i - 1];
      i := i + 1;
    }
    sane := true;
    i := 0;
    while i <= 256
      invariant 0 <= i <= 257 && sane
    {
      if cftab[i] < 0 || cftab[i] > nblock {
        sane := false;
      }
      i := i + 1;
    }
  }

  // ---------- FAST ----------

  /** The vector held above the low byte of each word. */
  ghost function Upper(tt: seq<int>, n: nat): (t: seq<int>)
    requires n <= |tt|
    ensures |t| == n
  {
    seq(n, x requires 0 <= x < n => tt[x] / 256)
  }

  /** Builds T^(-1): item i goes above the byte already in its place.  The source stores it
      with an inclusive or, into bits that are still zero. */
  method BuildFast(tt: array<int>, cftab: array<int>, n: nat, ghost c: seq<byte>)
    requires tt != cftab && |c| == n && n <= tt.Length && cftab.Length == 257
    requires forall x :: 0 <= x < n ==> tt[x] == c[x]
    requires forall v :: 0 <= v <= 256 ==> cftab[v] == CountLess(c, v)
    modifies tt, cftab
    ensures forall x :: 0 <= x < n ==> tt[x] % 256 == c[x]
    ensures IsTInverse(c, Upper(tt[..], n))
  {
    hide CountLess, CountEq, Filled;
    var i := 0;
    FilledStart(c, tt[..], cftab[..]);
    while i < n
      invariant 0 <= i <= n && Filled(c, tt[..], cftab[..], i)
    {
      FilledStep(c, tt[..], cftab[..], i);
      ghost var t, f := tt[..], cftab[..];
      var uc := tt[i] % 256;
      var place := cftab[uc];
      tt[place] := tt[place] + i * 256;  // the upper bits are still zero
      cftab[uc] := cftab[uc] + 1;
      assert tt[..] == t[place := t[place] + i * 256] && cftab[..] == f[uc := f[uc] + 1];
      i := i + 1;
    }
    FilledEnd(c, tt[..], cftab[..]);
  }

  /** The first i indices are in the upper bits of their slots. */
  ghost predicate Filled(c: seq<byte>, t: seq<int>, f: seq<int>, i: nat) {
    && i <= |c| <= |t| && |f| == 257
    && (forall x :: 0 <= x < |c| ==> t[x] % 256 == c[x])
    && (forall v :: 0 <= v < 256 ==> f[v] == CountLess(c, v) + CountEq(c[..i], v))
    && (forall k :: 0 <= k < i ==> t[Place(c, k)] / 256 == k)
    && (forall x :: 0 <= x < |c| && (forall k :: 0 <= k < i ==> Place(c, k) != x) ==> t[x] == c[x])
  }

  lemma FilledStart(c: seq<byte>, t: seq<int>, f: seq<int>)
    requires |c| <= |t| && |f| == 257 && forall x :: 0 <= x < |c| ==> t[x] == c[x]
    requires forall v :: 0 <= v <= 256 ==> f[v] == CountLess(c, v)
    ensures Filled(c, t, f, 0)
  {
    hide CountLess, CountEq;
    forall v ensures CountEq(c[..0], v) == 0 { NothingCounted(c, v); }
  }

  lemma FilledStep(c: seq<byte>, t: seq<int>, f: seq<int>, i: nat)
    requires i < |c| && Filled(c, t, f, i)
    ensures t[i] % 256 == c[i] && |f| == 257 && 0 <= f[c[i]] < |c| <= |t|
    ensures 0 <= t[f[c[i]]] < 256
    ensures Filled(c, t[f[c[i]] := t[f[c[i]]] + i * 256], f[c[i] := f[c[i]] + 1], i + 1)
  {
    hide CountLess, CountEq;
    var uc := c[i];
    var place := f[uc];
    assert place == Place(c, i) by { hide Place; PlaceFromCount(c, i); }
    forall k | 0 <= k < i ensures Place(c, k) != place {
      PlaceInjective(c, k, i);
    }
    forall v | 0 <= v < 256 ensures CountEq(c[..i + 1], v) == CountEq(c[..i], v) + if uc as int == v then 1 else 0 {
      CountStep(c, i, v);
    }
  }

  lemma PlaceFromCount(c: seq<byte>, i: nat)
    requires i < |c|
    ensures Place(c, i) == CountLess(c, c[i] as int) + CountEq(c[..i], c[i] as int)
  {
  }

  lemma FilledEnd(c: seq<byte>, t: seq<int>, f: seq<int>)
    requires Filled(c, t, f, |c|)
    ensures forall x :: 0 <= x < |c| ==> t[x] % 256 == c[x]
    ensures IsTInverse(c, Upper(t, |c|))
  {
    hide CountLess, CountEq;
  }

  lemma NothingCounted(c: seq<int>, v: int)
    ensures CountEq(c[..0], v) == 0
  {
  }

  // ---------- SMALL: twenty bits an entry ----------

  /** GET_LL4: the nibble of entry i. */
  function Nibble(ll4: seq<int>, i: int): int
    requires 0 <= i && i / 2 < |ll4|
  {
    if i % 2 == 0 then ll4[i / 2] % 16 else ll4[i / 2] / 16 % 16
  }

  /** GET_LL. */
  function LL(ll16: seq<int>, ll4: seq<int>, i: int): int
    requires 0 <= i < |ll16| && i / 2 < |ll4|
  {
    ll16[i] + 0x1_0000 * Nibble(ll4, i)
  }

  /** The two arrays of the small decoder, large enough for n entries. */
  ghost predicate Packed(ll16: array<int>, ll4: array<int>, n: nat)
    reads ll16, ll4
  {
    && ll16 != ll4 && n <= ll16.Length && (n + 1) / 2 <= ll4.Length
    && (forall i :: 0 <= i < ll16.Length ==> 0 <= ll16[i] < 0x1_0000)
    && (forall i :: 0 <= i < ll4.Length ==> 0 <= ll4[i] < 256)
  }

  /** SET_LL: stores 20 bits; every other entry keeps its value. */
  method SetLL(ll16: array<int>, ll4: array<int>, i: nat, v: int, ghost n: nat)
    requires Packed(ll16, ll4, n) && i < n && 0 <= v < 0x10_0000
    modifies ll16, ll4
    ensures Packed(ll16, ll4, n)
    ensures LL(ll16[..], ll4[..], i) == v
    ensures forall k :: 0 <= k < n && k != i ==>
      LL(ll16[..], ll4[..], k) == LL(old(ll16[..]), old(ll4[..]), k) && ll16[k] == old(ll16[k])
  {
    ll16[i] := v % 0x1_0000;
    var high := v / 0x1_0000;
    if i % 2 == 0 {
      ll4[i / 2] := ll4[i / 2] / 16 * 16 + high;
    } else {
      ll4[i / 2] := ll4[i / 2] % 16 + high * 16;
    }
  }

  method GetLL(ll16: array<int>, ll4: array<int>, i: nat, ghost n: nat) returns (v: int)
    requires Packed(ll16, ll4, n) && i < n
    ensures v == LL(ll16[..], ll4[..], i)
  {
    var b := ll4[i / 2];
    v := ll16[i] + 0x1_0000 * (if i % 2 == 0 then b % 16 else b / 16 % 16);
  }

  /** The vector T itself: entry i becomes the place of item i. */
  method BuildForward(ll16: array<int>, ll4: array<int>, cftabCopy: array<int>, n: nat, ghost c: seq<byte>)
    requires Packed(ll16, ll4, n) && cftabCopy != ll16 && cftabCopy != ll4 && cftabCopy.Length == 257
    requires |c| == n && n < 0x10_0000
    requires forall x :: 0 <= x < n ==> ll16[x] == c[x]
    requires forall v :: 0 <= v <= 256 ==> cftabCopy[v] == CountLess(c, v)
    modifies ll16, ll4, cftabCopy
    ensures Packed(ll16, ll4, n)
    ensures forall i :: 0 <= i < n ==> LL(ll16[..], ll4[..], i) == Place(c, i)
  {
    hide CountLess, CountEq, LL;
    forall v ensures CountEq(c[..0], v) == 0 { NothingCounted(c, v); }
    var i := 0;
    while i < n
      invariant 0 <= i <= n && Packed(ll16, ll4, n)
      invariant forall v :: 0 <= v < 256 ==> cftabCopy[v] == CountLess(c, v) + CountEq(c[..i], v)
      invariant forall x :: i <= x < n ==> ll16[x] == c[x]
      invariant forall k :: 0 <= k < i ==> LL(ll16[..], ll4[..], k) == Place(c, k)
    {
      var uc := ll16[i] % 256;
      var place := cftabCopy[uc];
      assert place == Place(c, i);
      forall v | 0 <= v < 256 ensures CountEq(c[..i + 1], v) == CountEq(c[..i], v) + if uc == v then 1 else 0 {
        CountStep(c, i, v);
      }
      SetLL(ll16, ll4, i, place, n);
      cftabCopy[uc] := cftabCopy[uc] + 1;
      i := i + 1;
    }
  }

  // ---------- SMALL: reversing one cycle ----------

  /** Item reached from o after k steps forward along the places. */
  ghost function Forward(c: seq<byte>, o: int, k: nat): (x: int)
    requires 0 <= o < |c|
    ensures 0 <= x < |c|
  {
    if k == 0 then o else Place(c, Forward(c, o, k - 1))
  }

  /** Steps forward can be undone: equal items m and k steps out give equal items nearer. */
  lemma {:induction false} ForwardCancel(c: seq<byte>, o: int, m: nat, k: nat)
    requires 0 <= o < |c| && m <= k && Forward(c, o, m) == Forward(c, o, k)
    ensures Forward(c, o, k - m) == o
  {
    hide Place;
    if m > 0 {
      var x, y := Forward(c, o, m - 1), Forward(c, o, k - 1);
      if x != y {
        PlaceInjective(c, x, y);
      }
      ForwardCancel(c, o, m - 1, k - 1);
    }
  }

  /** The cycle has not closed within the first k steps, so those items are all different. */
  ghost predicate Open(c: seq<byte>, o: int, k: nat)
    requires 0 <= o < |c|
  {
    forall m :: 1 <= m < k ==> Forward(c, o, m) != o
  }

  lemma OpenDistinct(c: seq<byte>, o: int, k: nat, m: nat, m': nat)
    requires 0 <= o < |c| && Open(c, o, k) && 1 <= m < m' <= k
    ensures Forward(c, o, m) != Forward(c, o, m')
  {
    if Forward(c, o, m) == Forward(c, o, m') {
      ForwardCancel(c, o, m, m');
    }
  }

  lemma OpenBounded(c: seq<byte>, o: int, k: nat)
    requires 0 <= o < |c| && Open(c, o, k)
    ensures k <= |c|
  {
    var r := seq(k, m requires 0 <= m < k => Forward(c, o, m + 1));
    forall i, j | 0 <= i < j < k ensures r[i] != r[j] {
      OpenDistinct(c, o, k, i + 1, j + 1);
    }
    Pigeonhole(r, |c|);
  }

  /** After k reversals: the items passed point back one step, the others still point forward. */
  ghost predicate Reversing(c: seq<byte>, ll: seq<int>, o: int, k: nat)
    requires 0 <= o < |c| == |ll|
  {
    && (forall m :: 1 <= m <= k ==> ll[Forward(c, o, m)] == Forward(c, o, m - 1))
    && (forall x :: 0 <= x < |c| && (forall m :: 1 <= m <= k ==> Forward(c, o, m) != x) ==> ll[x] == Place(c, x))
  }

  /** All entries, unpacked. */
  ghost function Entries(ll16: seq<int>, ll4: seq<int>, n: nat): (s: seq<int>)
    requires n <= |ll16| && (n + 1) / 2 <= |ll4|
    ensures |s| == n && forall i :: 0 <= i < n ==> s[i] == LL(ll16, ll4, i)
  {
    seq(n, i requires 0 <= i < n => LL(ll16, ll4, i))
  }

  lemma ReversingNext(c: seq<byte>, ll: seq<int>, o: int, k: nat)
    requires 0 <= o < |c| == |ll| && Reversing(c, ll, o, k) && Open(c, o, k + 1)
    ensures ll[Forward(c, o, k + 1)] == Forward(c, o, k + 2)
    ensures Reversing(c, ll[Forward(c, o, k + 1) := Forward(c, o, k)], o, k + 1)
  {
    hide Place, Forward, Open;
    var j := Forward(c, o, k + 1);
    forall m | 1 <= m <= k ensures Forward(c, o, m) != j {
      OpenDistinct(c, o, k + 1, m, k + 1);
    }
    ForwardStep(c, o, k + 1);
    var ll' := ll[j := Forward(c, o, k)];
    forall m | 1 <= m <= k + 1 ensures ll'[Forward(c, o, m)] == Forward(c, o, m - 1) { }
    forall x | 0 <= x < |c| && (forall m :: 1 <= m <= k + 1 ==> Forward(c, o, m) != x)
      ensures ll'[x] == Place(c, x)
    {
      assert x != j;
    }
  }

  lemma ForwardStep(c: seq<byte>, o: int, k: nat)
    requires 0 <= o < |c|
    ensures Forward(c, o, k + 1) == Place(c, Forward(c, o, k))
  {
  }

  /** The items on the cycle of o. */
  ghost predicate OnCycle(c: seq<byte>, o: int, x: int)
    requires 0 <= o < |c|
  {
    exists m: nat :: Forward(c, o, m) == x
  }

  lemma {:induction false} CycleWraps(c: seq<byte>, o: int, k: nat, m: nat) returns (m': nat)
    requires 0 <= o < |c| && 1 <= k && Forward(c, o, k) == o
    ensures 1 <= m' <= k && Forward(c, o, m') == Forward(c, o, m)
  {
    hide Place;
    if m == 0 {
      m' := k;
    } else {
      m' := CycleWraps(c, o, k, m - 1);
      if m' == k {
        m' := 1;
        assert Forward(c, o, 1) == Place(c, Forward(c, o, 0)) == Place(c, o);
      } else {
        m' := m' + 1;
      }
    }
  }

  /** With the cycle closed after k steps, every entry on it holds the inverse. */
  lemma ReversedCycle(c: seq<byte>, ll: seq<int>, o: int, k: nat, t: seq<int>)
    requires 0 <= o < |c| == |ll| && 1 <= k && Forward(c, o, k) == o && Reversing(c, ll, o, k)
    requires IsTInverse(c, t)
    ensures forall x :: 0 <= x < |c| && OnCycle(c, o, x) ==> ll[x] == t[x] && OnCycle(c, o, ll[x])
  {
    forall x | 0 <= x < |c| && OnCycle(c, o, x)
      ensures ll[x] == t[x] && OnCycle(c, o, ll[x])
    {
      var m: nat :| Forward(c, o, m) == x;
      var m' := CycleWraps(c, o, k, m);
      var y := Forward(c, o, m' - 1);
      assert ll[x] == y && Place(c, y) == x;
    }
  }

  /** Pointer reversal: on origPtr's cycle, and only there, T becomes T^(-1). */
  method ReverseCycle(ll16: array<int>, ll4: array<int>, n: nat, origPtr: nat, ghost c: seq<byte>, ghost t: seq<int>)
    requires Packed(ll16, ll4, n) && |c| == n && n < 0x10_0000 && origPtr < n && IsTInverse(c, t)
    requires forall i :: 0 <= i < n ==> LL(ll16[..], ll4[..], i) == Place(c, i)
    modifies ll16, ll4
    ensures Packed(ll16, ll4, n)
    ensures forall x :: 0 <= x < n && OnCycle(c, origPtr, x) ==>
      LL(ll16[..], ll4[..], x) == t[x] && OnCycle(c, origPtr, t[x])
  {
    hide Reversing, Open, Place, LL, IsTInverse, OnCycle;
    var i := origPtr;
    var j := GetLL(ll16, ll4, i, n);
    ghost var k: nat := 0;
    assert Forward(c, origPtr, 0) == i && Forward(c, origPtr, 1) == j;
    StartReversing(c, Entries(ll16[..], ll4[..], n), origPtr);
    while true
      invariant Packed(ll16, ll4, n) && 0 <= i < n && 0 <= j < n && k <= n
      invariant i == Forward(c, origPtr, k) && j == Forward(c, origPtr, k + 1)
      invariant Reversing(c, Entries(ll16[..], ll4[..], n), origPtr, k) && Open(c, origPtr, k + 1)
      decreases n - k
    {
      ghost var ll := Entries(ll16[..], ll4[..], n);
      ReversingNext(c, ll, origPtr, k);
      OpenBounded(c, origPtr, k + 1);
      var tmp := GetLL(ll16, ll4, j, n);
      SetLL(ll16, ll4, j, i, n);
      assert Entries(ll16[..], ll4[..], n) == ll[j := i];
      i := j;
      j := tmp;
      k := k + 1;
      if i == origPtr {
        break;
      }
      OpenNext(c, origPtr, k);
    }
    ReversedCycle(c, Entries(ll16[..], ll4[..], n), origPtr, k, t);
  }

  lemma StartReversing(c: seq<byte>, ll: seq<int>, o: int)
    requires 0 <= o < |c| == |ll| && forall i :: 0 <= i < |c| ==> ll[i] == Place(c, i)
    ensures Reversing(c, ll, o, 0) && Open(c, o, 1)
  {
  }

  lemma OpenNext(c: seq<byte>, o: int, k: nat)
    requires 0 <= o < |c| && Open(c, o, k) && Forward(c, o, k) != o
    ensures Open(c, o, k + 1)
  {
  }
}
