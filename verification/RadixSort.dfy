/** The initial two-byte radix sort of mainSort (dep/bzip2/blocksort.c:752-830). */
module RadixSort {
  import opened Rotations
  import opened Counting
  import opened MainCompare

  /** The first two bytes of rotation i as a number. */
  ghost function TwoBytes(b: seq<byte>, i: int): (k: int)
    requires 0 <= i < |b|
    ensures 0 <= k < 65536
  {
    b[i] as int * 256 + b[Adv(|b|, i, 1)]
  }

  ghost function Keys(b: seq<byte>): (c: seq<int>)
    ensures |c| == |b| && forall i :: 0 <= i < |b| ==> c[i] == TwoBytes(b, i)
  {
    seq(|b|, i requires 0 <= i < |b| => TwoBytes(b, i))
  }

  /** Where small bucket sb starts. */
  ghost function Start(b: seq<byte>, sb: int): (s: nat)
    ensures s <= |b|
  {
    CountLess(Keys(b), sb)
  }

  lemma StartOrder(b: seq<byte>, u: int, v: int)
    requires u <= v
    ensures Start(b, u) <= Start(b, v)
    ensures u <= 0 ==> Start(b, u) == 0
    ensures 65536 <= v ==> Start(b, v) == |b|
  {
    hide CountLess;
    CountMonotone(Keys(b), u, v);
    CountAll(Keys(b), 0, 65536);
    if u <= 0 {
      CountMonotone(Keys(b), u, 0);
    }
    if 65536 <= v {
      CountMonotone(Keys(b), 65536, v);
    }
  }

  /** Every slot holds a rotation of its own small bucket. */
  ghost predicate Bucketed(b: seq<byte>, p: seq<int>) {
    && IsPerm(p, |b|)
    && forall x :: 0 <= x < |b| ==> Start(b, TwoBytes(b, p[x])) <= x < Start(b, TwoBytes(b, p[x]) + 1)
  }

  /** Slots of bucket sb hold rotations that start with those two bytes. */
  lemma BucketOf(b: seq<byte>, p: seq<int>, sb: int, x: int)
    requires Bucketed(b, p) && 0 <= x < |b| && 0 <= p[x] < |b|
    ensures Start(b, sb) <= x < Start(b, sb + 1) <==> TwoBytes(b, p[x]) == sb
  {
    var k := TwoBytes(b, p[x]);
    if k < sb {
      StartOrder(b, k + 1, sb);
    } else if k > sb {
      StartOrder(b, sb + 1, k);
    }
  }

  lemma BucketedRange(b: seq<byte>, p: seq<int>)
    requires Bucketed(b, p)
    ensures |p| == |b| && (forall x :: 0 <= x < |b| ==> 0 <= p[x] < |b|)
    ensures forall x, y :: 0 <= x < y < |b| ==> p[x] != p[y]
  {
  }

  // ---------- Counting from the end of the block ----------

  lemma CountDown(c: seq<int>, i: nat, v: int)
    requires i < |c|
    ensures CountEq(c[i..], v) == CountEq(c[i + 1..], v) + if c[i] == v then 1 else 0
    ensures CountEq(c[..i], v) + CountEq(c[i..], v) == CountEq(c, v)
  {
    assert c[i..] == [c[i]] + c[i + 1..] && c == c[..i] + c[i..];
    CountConcat([c[i]], c[i + 1..], v);
    CountConcat(c[..i], c[i..], v);
    assert [c[i]][..0] == [];
  }

  /** The register of the two latest bytes. */
  lemma Register(b: seq<byte>, i: int, j: int)
    requires 0 <= i < |b| && 0 <= j < 65536 && j / 256 == b[Adv(|b|, i, 1)]
    ensures j / 256 + b[i] as int * 256 == TwoBytes(b, i) && TwoBytes(b, i) / 256 == b[i]
  {
  }

  lemma RegisterNext(n: nat, i: int)
    requires 0 <= i < n
    ensures i < n - 1 ==> Adv(n, i, 1) == i + 1
    ensures i == n - 1 ==> Adv(n, i, 1) == 0
  {
    AdvSmall(n, i, 1);
  }

  /** The two-byte frequencies; every quadrant value is cleared. */
  method CountKeys(block: array<byte>, quadrant: array<int>, ftab: array<int>, nblock: nat)
    requires quadrant != ftab && block as object != quadrant as object && block as object != ftab as object
    requires 0 < nblock <= block.Length && nblock <= quadrant.Length && ftab.Length == 65537
    modifies quadrant, ftab
    ensures forall v :: 0 <= v <= 65536 ==> ftab[v] == CountEq(Keys(block[..nblock]), v)
    ensures forall i :: 0 <= i < nblock ==> quadrant[i] == 0
  {
    hide TwoBytes, CountEq, Adv;
    ghost var b := block[..nblock];
    ghost var c := Keys(b);
    var i := 65536;
    while i >= 0
      invariant -1 <= i <= 65536
      invariant forall v :: i < v <= 65536 ==> ftab[v] == 0
    {
      ftab[i] := 0;
      i := i - 1;
    }
    var j := block[0] as int * 256;
    i := nblock - 1;
    RegisterNext(nblock, i);
    NoneCounted(c);
    while i >= 0
      invariant -1 <= i < nblock && 0 <= j < 65536
      invariant i >= 0 ==> j / 256 == b[Adv(nblock, i, 1)]
      invariant forall v :: 0 <= v <= 65536 ==> ftab[v] == CountEq(c[i + 1..], v)
      invariant forall k :: i < k < nblock ==> quadrant[k] == 0
    {
      quadrant[i] := 0;
      Register(b, i, j);
      j := j / 256 + block[i] as int * 256;
      forall v | 0 <= v <= 65536 ensures CountEq(c[i..], v) == CountEq(c[i + 1..], v) + if j == v then 1 else 0 {
        CountDown(c, i, v);
      }
      ftab[j] := ftab[j] + 1;
      i := i - 1;
      if i >= 0 { RegisterNext(nblock, i); }
    }
    assert c[0..] == c;
  }

  lemma NoneCounted(c: seq<int>)
    ensures forall v :: CountEq(c[|c|..], v) == 0
  {
  }

  /** The first bytes once more behind the block. */
  method Wrap(block: array<byte>, quadrant: array<int>, nblock: nat)
    requires block as object != quadrant as object
    requires OVERSHOOT < nblock && nblock + OVERSHOOT <= block.Length && nblock + OVERSHOOT <= quadrant.Length
    requires forall i :: 0 <= i < nblock ==> quadrant[i] == 0
    modifies block, quadrant
    ensures block[..nblock] == old(block[..nblock])
    ensures Wrapped(block[..], nblock) && Wrapped(quadrant[..], nblock)
    ensures forall i :: 0 <= i < nblock ==> quadrant[i] == 0
  {
    var i := 0;
    while i < OVERSHOOT
      invariant 0 <= i <= OVERSHOOT
      invariant forall k :: 0 <= k < nblock ==> block[k] == old(block[k]) && quadrant[k] == 0
      invariant forall k :: nblock <= k < nblock + i ==> block[k] == block[k - nblock] && quadrant[k] == 0
    {
      block[nblock + i] := block[i];
      quadrant[nblock + i] := 0;
      i := i + 1;
    }
  }

  method Accumulate(ftab: array<int>, ghost b: seq<byte>)
    requires ftab.Length == 65537 && forall v :: 0 <= v <= 65536 ==> ftab[v] == CountEq(Keys(b), v)
    modifies ftab
    ensures forall v :: 0 <= v <= 65536 ==> ftab[v] == Start(b, v + 1)
  {
    hide CountEq, CountLess;
    ghost var c := Keys(b);
    CountAll(c, 0, 65536);
    CountNext(c, 0);
    var i := 1;
    while i <= 65536
      invariant 1 <= i <= 65537
      invariant forall v :: 0 <= v < i ==> ftab[v] == CountLess(c, v + 1)
      invariant forall v :: i <= v <= 65536 ==> ftab[v] == CountEq(c, v)
    {
      CountNext(c, i);
      ftab[i] := ftab[i] + ftab[i - 1];
      i := i + 1;
    }
  }

  /** Rotations i.. have their places; each bucket's end has moved down past its share of them. */
  ghost predicate Filling(c: seq<int>, ftab: seq<int>, p: seq<int>, i: nat) {
    && i <= |c| <= |p| && |ftab| == 65537
    && (forall v :: 0 <= v <= 65536 ==> ftab[v] == CountLess(c, v) + CountEq(c[..i], v))
    && forall k :: i <= k < |c| ==> p[Place(c, k)] == k
  }

  lemma FillingStart(c: seq<int>, ftab: seq<int>, p: seq<int>)
    requires |c| <= |p| && |ftab| == 65537 && forall v :: 0 <= v <= 65536 ==> ftab[v] == CountLess(c, v + 1)
    ensures Filling(c, ftab, p, |c|)
  {
    hide CountLess, CountEq, Place;
    assert c[..|c|] == c;
    forall v | 0 <= v <= 65536 ensures ftab[v] == CountLess(c, v) + CountEq(c[..|c|], v) {
      CountNext(c, v);
    }
  }

  lemma FillingStep(c: seq<int>, ftab: seq<int>, p: seq<int>, i: nat)
    requires i < |c| && Filling(c, ftab, p, i + 1) && 0 <= c[i] <= 65536
    ensures 0 <= ftab[c[i]] - 1 < |p|
    ensures Filling(c, ftab[c[i] := ftab[c[i]] - 1], p[ftab[c[i]] - 1 := i], i)
  {
    hide CountLess, CountEq;
    PlaceFromCount(c, i);
    assert ftab[c[i]] - 1 == Place(c, i);
    forall k | i < k < |c| ensures Place(c, k) != Place(c, i) {
      PlaceInjective(c, i, k);
    }
    forall v | 0 <= v <= 65536 ensures CountEq(c[..i + 1], v) == CountEq(c[..i], v) + if c[i] == v then 1 else 0 {
      CountStep(c, i, v);
    }
  }

  lemma PlaceFromCount(c: seq<int>, i: nat)
    requires i < |c|
    ensures Place(c, i) == CountLess(c, c[i]) + CountEq(c[..i], c[i]) == CountLess(c, c[i]) + CountEq(c[..i + 1], c[i]) - 1
  {
    CountStep(c, i, c[i]);
  }

  lemma FillingEnd(c: seq<int>, ftab: seq<int>, p: seq<int>)
    requires Filling(c, ftab, p, 0)
    ensures forall v :: 0 <= v <= 65536 ==> ftab[v] == CountLess(c, v)
    ensures forall k :: 0 <= k < |c| ==> p[Place(c, k)] == k
  {
    assert c[..0] == [];
  }

  /** Each rotation goes to its place, the buckets filling from their ends. */
  method Distribute(ptr: array<int>, block: array<byte>, ftab: array<int>, nblock: nat)
    requires ptr != ftab && block as object != ptr as object && block as object != ftab as object
    requires 0 < nblock <= block.Length && nblock <= ptr.Length && ftab.Length == 65537
    requires forall v :: 0 <= v <= 65536 ==> ftab[v] == Start(block[..nblock], v + 1)
    modifies ptr, ftab
    ensures Bucketed(block[..nblock], ptr[..nblock])
    ensures forall v :: 0 <= v <= 65536 ==> ftab[v] == Start(block[..nblock], v)
    ensures forall k :: 0 <= k < nblock ==> ptr[Place(Keys(block[..nblock]), k)] == k
  {
    hide TwoBytes, CountEq, CountLess, Adv, Place, Filling;
    ghost var b := block[..nblock];
    ghost var c := Keys(b);
    var s := block[0] as int * 256;
    var i := nblock - 1;
    RegisterNext(nblock, i);
    FillingStart(c, ftab[..], ptr[..]);
    while i >= 0
      invariant -1 <= i < nblock && 0 <= s < 65536
      invariant i >= 0 ==> s / 256 == b[Adv(nblock, i, 1)]
      invariant Filling(c, ftab[..], ptr[..], i + 1)
    {
      Register(b, i, s);
      s := s / 256 + block[i] as int * 256;
      FillingStep(c, ftab[..], ptr[..], i);
      ghost var f, p := ftab[..], ptr[..];
      var j := ftab[s] - 1;
      ftab[s] := j;
      ptr[j] := i;
      assert ftab[..] == f[s := j] && ptr[..] == p[j := i];
      i := i - 1;
      if i >= 0 { RegisterNext(nblock, i); }
    }
    FillingEnd(c, ftab[..], ptr[..]);
    forall k | 0 <= k < nblock ensures ptr[..nblock][Place(c, k)] == k { }
    PlacedIsBucketed(b, ptr[..nblock]);
  }

  lemma PlacedIsBucketed(b: seq<byte>, p: seq<int>)
    requires |p| == |b| && forall k :: 0 <= k < |b| ==> p[Place(Keys(b), k)] == k
    ensures Bucketed(b, p)
  {
    hide TwoBytes, Place, CountLess;
    var c := Keys(b);
    forall x | 0 <= x < |b| ensures 0 <= p[x] < |b| && Place(c, p[x]) == x {
      var k := PlaceOnto(c, x);
    }
  }

  /** The radix sort as a whole. */
  method Radix(ptr: array<int>, block: array<byte>, quadrant: array<int>, ftab: array<int>, nblock: nat)
    requires ptr != ftab && ptr != quadrant && quadrant != ftab
    requires block as object !in {ptr as object, ftab as object, quadrant as object}
    requires OVERSHOOT < nblock && nblock + OVERSHOOT <= block.Length && nblock + OVERSHOOT <= quadrant.Length
    requires nblock <= ptr.Length && ftab.Length == 65537
    modifies ptr, block, quadrant, ftab
    ensures block[..nblock] == old(block[..nblock]) && Comparable(block[..], quadrant[..], nblock)
    ensures Bucketed(block[..nblock], ptr[..nblock])
    ensures forall v :: 0 <= v <= 65536 ==> ftab[v] == Start(block[..nblock], v)
    ensures forall i :: 0 <= i < nblock ==> quadrant[i] == 0
    ensures forall k :: 0 <= k < nblock ==> ptr[Place(Keys(block[..nblock]), k)] == k
  {
    hide Start, CountEq, Wrapped, Bucketed, Place;
    CountKeys(block, quadrant, ftab, nblock);
    ghost var f := ftab[..];
    Wrap(block, quadrant, nblock);
    assert block[..][..nblock] == block[..nblock];
    Accumulate(ftab, block[..nblock]);
    Distribute(ptr, block, ftab, nblock);
  }
}
