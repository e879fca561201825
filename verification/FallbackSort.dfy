/** fallbackSort (dep/bzip2/blocksort.c:205-320): the exponential radix sort used for small
    and for repetitive blocks. */
module FallbackSort {
  import opened Rotations
  import opened Segments
  import opened BitTable
  import opened Counting
  import opened PrefixDoubling
  import opened RotationRank
  import FallbackQSort

  // ---------- The initial one-character radix sort ----------

  lemma BytesCounted(c: seq<byte>)
    ensures CountLess(c, 0) == 0 && CountLess(c, 256) == |c| && CountEq(c, 256) == 0
  {
    CountAll(c, 0, 256);
    CountAll(c, 0, 257);
    CountNext(c, 256);
  }

  /** Frequencies of the byte values. */
  method CountBytes(block: array<byte>, n: nat, ftab: array<int>)
    requires n <= block.Length && ftab.Length == 257
    modifies ftab
    ensures forall v :: 0 <= v <= 256 ==> ftab[v] == CountEq(block[..n], v)
  {
    var i := 0;
    while i < 257
      invariant 0 <= i <= 257
      invariant forall v :: 0 <= v < i ==> ftab[v] == 0
    {
      ftab[i] := 0;
      i := i + 1;
    }
    i := 0;
    while i < n
      invariant 0 <= i <= n
      invariant forall v :: 0 <= v <= 256 ==> ftab[v] == CountEq(block[..i], v)
    {
      forall v | 0 <= v <= 256
        ensures CountEq(block[..i + 1], v) == CountEq(block[..i], v) + if block[i] == v then 1 else 0
      {
        assert block[..i + 1][..i] == block[..i];
      }
      ftab[block[i]] := ftab[block[i]] + 1;
      i := i + 1;
    }
  }

  /** Running totals: where each byte's bucket ends. */
  method Accumulate(ftab: array<int>, ghost c: seq<byte>)
    requires ftab.Length == 257
    requires forall v :: 0 <= v <= 256 ==> ftab[v] == CountEq(c, v)
    modifies ftab
    ensures forall v :: 0 <= v <= 256 ==> ftab[v] == CountLess(c, v + 1)
  {
    BytesCounted(c);
    CountNext(c, 0);
    var i := 1;
    while i < 257
      invariant 1 <= i <= 257
      invariant forall v :: 0 <= v < i ==> ftab[v] == CountLess(c, v + 1)
      invariant forall v :: i <= v <= 256 ==> ftab[v] == CountEq(c, v)
    {
      CountNext(c, i);
      ftab[i] := ftab[i] + ftab[i - 1];
      i := i + 1;
    }
  }

  /** Fills every bucket from its top; each position goes to its place. */
  method PlaceAll(block: array<byte>, n: nat, ftab: array<int>, fmap: array<int>)
    requires n <= block.Length && n <= fmap.Length && ftab.Length == 257
    requires ftab != fmap
    requires forall v :: 0 <= v <= 256 ==> ftab[v] == CountLess(block[..n], v + 1)
    modifies ftab, fmap
    ensures forall i :: 0 <= i < n ==> fmap[PlaceDown(block[..n], i)] == i
    ensures forall v :: 0 <= v < 256 ==> ftab[v] == CountLess(block[..n], v)
  {
    ghost var c := block[..n];
    forall v | 0 <= v < 256 ensures CountEq(c[..0], v) == 0 { }
    var i := 0;
    while i < n
      invariant 0 <= i <= n
      invariant forall v :: 0 <= v < 256 ==> ftab[v] == CountLess(c, v + 1) - CountEq(c[..i], v)
      invariant forall k :: 0 <= k < i ==> fmap[PlaceDown(c, k)] == k
    {
      var j := block[i];
      assert c[i] == j;
      var k := ftab[j] - 1;
      assert k == PlaceDown(c, i);
      forall v | 0 <= v < 256 ensures CountEq(c[..i + 1], v) == CountEq(c[..i], v) + if j == v then 1 else 0 {
        CountStep(c, i, v);
      }
      forall k' | 0 <= k' < i ensures PlaceDown(c, k') != PlaceDown(c, i) {
        PlaceInjective(c, k', i);
      }
      ftab[j] := k;
      fmap[k] := i;
      i := i + 1;
    }
    assert c[..n] == c;
    forall v | 0 <= v < 256 ensures ftab[v] == CountLess(c, v) {
      CountNext(c, v);
    }
  }

  /** The entry at slot x lies in the bucket of its first character. */
  ghost predicate InBucket(c: seq<int>, f: seq<int>, x: int)
    requires 0 <= x < |f| && 0 <= f[x] < |c|
  {
    CountLess(c, c[f[x]]) <= x < CountLess(c, c[f[x]] + 1)
  }

  /** After the radix sort: a permutation, ordered by first character, bucket by bucket. */
  lemma RadixSorted(b: seq<byte>, f: seq<int>)
    requires |b| <= |f|
    requires forall i :: 0 <= i < |b| ==> f[PlaceDown(b, i)] == i
    ensures IndexPerm(f, |b|) && Ordered(b, f, 1, |b| - 1)
    ensures forall x :: 0 <= x < |b| ==> InBucket(b, f, x)
  {
    var n := |b|;
    forall x | 0 <= x < n
      ensures 0 <= f[x] < n && PlaceDown(b, f[x]) == x
    {
      var i := PlaceDownOnto(b, x);
    }
    forall x, y | 0 <= x < y < n ensures Cmp(b, f[x], f[y], 1) <= 0 {
      CmpOne(b, f[x], f[y]);
      CmpFlip(b, f[x], f[y], 1);
      CmpOne(b, f[y], f[x]);
      PlaceOrder(b, f[y], f[x]);
    }
  }

  /** A slot starts a bucket exactly when it is the first slot of some byte value. */
  lemma BucketStartsHere(c: seq<int>, f: seq<int>, x: int)
    requires 0 < x < |f| && 0 <= f[x] < |c| && 0 <= f[x - 1] < |c|
    requires InBucket(c, f, x) && InBucket(c, f, x - 1)
    requires c[f[x - 1]] < c[f[x]]
    ensures CountLess(c, c[f[x]]) == x
  {
    CountMonotone(c, c[f[x - 1]] + 1, c[f[x]]);
  }

  lemma NoBucketStartsHere(c: seq<int>, f: seq<int>, x: int, w: int)
    requires 0 < x < |f| && 0 <= f[x] < |c| && 0 <= f[x - 1] < |c|
    requires InBucket(c, f, x) && InBucket(c, f, x - 1)
    requires c[f[x - 1]] == c[f[x]]
    ensures CountLess(c, w) != x
  {
    if w <= c[f[x]] {
      CountMonotone(c, w, c[f[x]]);
    } else {
      CountMonotone(c, c[f[x]] + 1, w);
    }
  }

  /** Some byte value's bucket, possibly an empty one, starts at slot x. */
  ghost predicate BucketAt(c: seq<int>, x: int, top: int) {
    exists v :: 0 <= v < top && CountLess(c, v) == x
  }

  lemma NoBucketAt(c: seq<int>, x: int)
    ensures !BucketAt(c, x, 0)
  {
  }

  lemma BucketAtNext(c: seq<int>, x: int, i: nat)
    ensures BucketAt(c, x, i + 1) <==> CountLess(c, i) == x || BucketAt(c, x, i)
  {
  }

  lemma RadixStarts(b: seq<byte>, f: seq<int>, x: int)
    requires IndexPerm(f, |b|) && 0 <= x < |b| && Ordered(b, f, 1, |b| - 1)
    requires forall x :: 0 <= x < |b| ==> InBucket(b, f, x)
    ensures Starts(b, f, 1, x) <==> BucketAt(b, x, 256)
  {
    if x == 0 {
      BytesCounted(b);
      assert CountLess(b, 0) == x;
    } else {
      assert CmpAt(b, f, 1, x - 1, x) <= 0;
      CmpOne(b, f[x - 1], f[x]);
      if Starts(b, f, 1, x) {
        BucketStartsHere(b, f, x);
        assert CountLess(b, b[f[x]]) == x;
      } else {
        forall w | 0 <= w < 256 ensures CountLess(b, w) != x {
          NoBucketStartsHere(b, f, x, w);
        }
      }
    }
  }

  method ZeroBits(bhtab: array<bv32>, n: nat)
    requires n + 63 < 32 * bhtab.Length
    modifies bhtab
    ensures forall x :: 0 <= x <= n ==> !IsSet(bhtab[..], x)
  {
    var nBhtab := 2 + n / 32;
    var i := 0;
    while i < nBhtab
      invariant 0 <= i <= nBhtab
      invariant forall w :: 0 <= w < i ==> bhtab[w] == 0
    {
      bhtab[i] := 0;
      i := i + 1;
    }
    forall x | 0 <= x <= n ensures !IsSet(bhtab[..], x) {
      FullWord(x % 32);
    }
  }

  /** Header bits of the initial buckets. */
  method MarkBuckets(bhtab: array<bv32>, ftab: array<int>, n: nat, ghost c: seq<int>)
    requires bhtab as object != ftab as object && |c| == n
    requires ftab.Length == 257 && n + 63 < 32 * bhtab.Length
    requires forall v :: 0 <= v < 256 ==> ftab[v] == CountLess(c, v)
    requires forall x :: 0 <= x <= n ==> !IsSet(bhtab[..], x)
    modifies bhtab
    ensures forall x :: 0 <= x <= n ==> (IsSet(bhtab[..], x) <==> BucketAt(c, x, 256))
  {
    hide IsSet, BucketAt;
    forall x ensures !BucketAt(c, x, 0) {
      NoBucketAt(c, x);
    }
    var i := 0;
    while i < 256
      invariant 0 <= i <= 256
      invariant forall x :: 0 <= x <= n ==> (IsSet(bhtab[..], x) <==> BucketAt(c, x, i))
    {
      Set(bhtab, ftab[i]);
      forall x ensures BucketAt(c, x, i + 1) <==> CountLess(c, i) == x || BucketAt(c, x, i) {
        BucketAtNext(c, x, i);
      }
      i := i + 1;
    }
  }

  /** The alternating sentinel bits after the block. */
  method MarkSentinels(bhtab: array<bv32>, n: nat)
    requires n + 63 < 32 * bhtab.Length
    modifies bhtab
    ensures forall x :: 0 <= x < n ==> (IsSet(bhtab[..], x) <==> IsSet(old(bhtab[..]), x))
    ensures IsSet(bhtab[..], n) && !IsSet(bhtab[..], n + 1)
  {
    hide IsSet;
    var i := 0;
    while i < 32
      invariant 0 <= i <= 32
      invariant forall x :: 0 <= x < n ==> (IsSet(bhtab[..], x) <==> IsSet(old(bhtab[..]), x))
      invariant 1 <= i ==> IsSet(bhtab[..], n) && !IsSet(bhtab[..], n + 1)
    {
      Set(bhtab, n + 2 * i);
      Clear(bhtab, n + 2 * i + 1);
      i := i + 1;
    }
  }

  // ---------- One refinement pass ----------

  ghost predicate KeysUpTo(b: seq<byte>, f: seq<int>, e: seq<int>, H: nat, i: int)
    requires IndexPerm(f, |b|) && H <= |b| <= |e|
  {
    forall x :: 0 <= x < i && x < |b| ==> e[Back(|b|, f[x], H)] == Head(b, f, H, x)
  }

  lemma HeadStep(b: seq<byte>, f: seq<int>, t: seq<bv32>, H: nat, i: int, j: int)
    requires Level(b, f, t, H) && 0 <= i < |b|
    requires 0 < i ==> j == Head(b, f, H, i - 1)
    ensures (if IsSet(t, i) then i else j) == Head(b, f, H, i)
  {
    hide IsSet, CmpAt;
  }

  lemma KeysStep(b: seq<byte>, f: seq<int>, e: seq<int>, H: nat, i: int)
    requires IndexPerm(f, |b|) && H <= |b| <= |e| && 0 <= i < |b| && KeysUpTo(b, f, e, H, i)
    ensures KeysUpTo(b, f, e[Back(|b|, f[i], H) := Head(b, f, H, i)], H, i + 1)
  {
    hide Back, Head, Adv, IndexPerm, Starts, CmpAt;
    var n := |b|;
    EntryBounds(f, n);
    var e' := e[Back(n, f[i], H) := Head(b, f, H, i)];
    forall x | 0 <= x < i + 1 ensures e'[Back(n, f[x], H)] == Head(b, f, H, x) {
      if x < i {
        BackDistinct(f, n, H, x, i);
      }
    }
  }

  lemma EntryBounds(f: seq<int>, n: nat)
    requires IndexPerm(f, n)
    ensures n <= |f|
    ensures forall i :: 0 <= i < n ==> 0 <= f[i] < n
  {
  }

  lemma BackDistinct(f: seq<int>, n: nat, H: nat, x: int, y: int)
    requires IndexPerm(f, n) && H <= n && 0 <= x < y < n
    ensures Back(n, f[x], H) != Back(n, f[y], H)
  {
    BackAdv(n, f[x], H);
    BackAdv(n, f[y], H);
  }

  lemma KeysInRange(b: seq<byte>, f: seq<int>, e: seq<int>, H: nat)
    requires IndexPerm(f, |b|) && H <= |b| <= |e| && KeysUpTo(b, f, e, H, |b|)
    ensures forall p :: 0 <= p < |b| ==> 0 <= e[p] < |b|
  {
    var n := |b|;
    forall p | 0 <= p < n ensures 0 <= e[p] < n {
      IndexPermIsPerm(f, n);
      var x := PermOnto(f[..n], n, Adv(n, p, H));
      AdvBack(n, p, H);
      assert e[Back(n, f[x], H)] == Head(b, f, H, x);
    }
  }

  /** Key of each position: the first slot of the class of the position H further on. */
  method AssignKeys(fmap: array<int>, eclass: array<int>, bhtab: array<bv32>, n: nat, H: nat, ghost b: seq<byte>)
    requires fmap != eclass && bhtab as object != eclass as object
    requires |b| == n && n <= eclass.Length && 1 <= H <= n
    requires Level(b, fmap[..], bhtab[..], H)
    modifies eclass
    ensures Classes(b, eclass[..], H)
    ensures forall p :: 0 <= p < n ==> 0 <= eclass[p] < n
  {
    hide Ordered, Starts, Classes, IsSet, KeysUpTo;
    ghost var f, t := fmap[..], bhtab[..];
    var j := 0;
    var i := 0;
    assert KeysUpTo(b, f, eclass[..], H, 0) by { NoKeys(b, f, eclass[..], H); }
    while i < n
      invariant 0 <= i <= n
      invariant 0 < i ==> j == Head(b, f, H, i - 1)
      invariant KeysUpTo(b, f, eclass[..], H, i)
    {
      HeadStep(b, f, t, H, i, j);
      KeysStep(b, f, eclass[..], H, i);
      if IsSet(bhtab[..], i) {
        j := i;
      }
      var k := fmap[i] - H;
      if k < 0 {
        k := k + n;
      }
      Put(eclass, k, j);
      i := i + 1;
    }
    KeysInRange(b, f, eclass[..], H);
    KeysDone(b, f, t, eclass[..], H);
  }

  lemma NoKeys(b: seq<byte>, f: seq<int>, e: seq<int>, H: nat)
    requires IndexPerm(f, |b|) && H <= |b| <= |e|
    ensures KeysUpTo(b, f, e, H, 0)
  {
  }

  lemma KeysDone(b: seq<byte>, f: seq<int>, t: seq<bv32>, e: seq<int>, H: nat)
    requires Level(b, f, t, H) && H <= |b| <= |e| && KeysUpTo(b, f, e, H, |b|)
    ensures Classes(b, e, H)
  {
    ClassesAssigned(b, f, e, H);
  }

  /** Sorts one class by key and marks the classes it splits into. */
  method RefineBucket(fmap: array<int>, eclass: array<int>, bhtab: array<bv32>,
                      ghost b: seq<byte>, ghost H: nat, l: int, r: int, ghost still: bool)
    requires fmap != eclass && bhtab as object != eclass as object && bhtab as object != fmap as object
    requires |b| <= 0x7fff_ffff
    requires Refining(b, fmap[..], bhtab[..], H, l - 1, still) && Bucket(b, fmap[..], H, l, r)
    requires Classes(b, eclass[..], H)
    requires forall p :: 0 <= p < |b| ==> 0 <= eclass[p] < |b|
    modifies fmap, bhtab
    ensures Refining(b, fmap[..], bhtab[..], H, r, false)
    ensures forall c :: Uniform(b, c) ==> fmap[..] == old(fmap[..])
  {
    hide Refining, Bucket, Classes, Rearranged, IsSet, Uniform, FallbackQSort.Tied;
    ghost var f, t, e := fmap[..], bhtab[..], eclass[..];
    RefiningFacts(b, f, t, H, l - 1, still);
    BucketFacts(b, f, H, l, r);
    ClassesLength(b, e, H);
    BucketBits(b, f, t, H, l, r, still);
    forall c | Uniform(b, c) ensures FallbackQSort.Tied(f, e, l, r) {
      UniformTied(b, f, e, H, l, r, c);
    }
    FallbackQSort.QSort3(fmap, eclass, l, r);
    ghost var g := fmap[..];
    IndexPermKept(f, g, |b|, l, r + 1);
    MarkClasses(fmap, eclass, bhtab, l, r);
    RefiningBucket(b, f, g, e, t, bhtab[..], H, l, r, still);
  }

  /** In a block of one repeated byte all keys are the same. */
  lemma UniformTied(b: seq<byte>, f: seq<int>, e: seq<int>, H: nat, l: int, r: int, c: int)
    requires Uniform(b, c) && Classes(b, e, H) && IndexPerm(f, |b|) && 0 <= l && r < |b|
    ensures FallbackQSort.Tied(f, e, l, r)
  {
    hide Cmp, Adv;
    forall x, y | l <= x <= r && l <= y <= r ensures e[f[x]] == e[f[y]] {
      UniformCmp(b, c, Adv(|b|, f[x], H), Adv(|b|, f[y], H), H);
      UniformCmp(b, c, Adv(|b|, f[y], H), Adv(|b|, f[x], H), H);
    }
  }

  lemma RefiningFacts(b: seq<byte>, f: seq<int>, t: seq<bv32>, H: nat, r: int, still: bool)
    requires Refining(b, f, t, H, r, still)
    ensures IndexPerm(f, |b|) && -1 <= r < |b| && |b| + 1 < 32 * |t|
    ensures IsSet(t, |b|) && !IsSet(t, |b| + 1)
  {
  }

  lemma BucketBits(b: seq<byte>, f: seq<int>, t: seq<bv32>, H: nat, l: int, r: int, still: bool)
    requires Refining(b, f, t, H, l - 1, still) && Bucket(b, f, H, l, r)
    ensures forall x :: l <= x <= r ==> (IsSet(t, x) <==> x == l)
  {
  }

  /** The scan that sets a header bit wherever the key changes. */
  method MarkClasses(fmap: array<int>, eclass: array<int>, bhtab: array<bv32>, l: int, r: int)
    requires bhtab as object != eclass as object && bhtab as object != fmap as object
    requires 0 <= l <= r < fmap.Length && r < 32 * bhtab.Length
    requires forall x :: 0 <= x < fmap.Length && l <= x <= r ==> 0 <= fmap[x] < eclass.Length && 0 <= eclass[fmap[x]]
    requires forall x :: l <= x <= r ==> (IsSet(bhtab[..], x) <==> x == l)
    modifies bhtab
    ensures forall x :: 0 <= x < 32 * bhtab.Length && !(l <= x <= r) ==>
      (IsSet(bhtab[..], x) <==> IsSet(old(bhtab[..]), x))
    ensures forall x :: l <= x <= r ==>
      (IsSet(bhtab[..], x) <==> x == l || !SameKey(fmap[..], eclass[..], x - 1, x))
  {
    hide IsSet;
    var cc := -1;
    var i := l;
    while i <= r
      invariant l <= i <= r + 1
      invariant cc == if i == l then -1 else eclass[fmap[i - 1]]
      invariant forall x :: 0 <= x < 32 * bhtab.Length && !(l <= x < i) ==>
        (IsSet(bhtab[..], x) <==> IsSet(old(bhtab[..]), x))
      invariant forall x :: l <= x < i ==>
        (IsSet(bhtab[..], x) <==> x == l || !SameKey(fmap[..], eclass[..], x - 1, x))
    {
      var cc1 := eclass[fmap[i]];
      if cc != cc1 {
        Set(bhtab, i);
        cc := cc1;
      }
      i := i + 1;
    }
  }

  /** Slots r+1..l hold set bits, l+1..r' clear ones, r'+1 a set one: l..r' is one class. */
  lemma BucketFound(b: seq<byte>, f: seq<int>, t: seq<bv32>, H: nat, r: int, still: bool, l: int, r': int)
    requires Refining(b, f, t, H, r, still) && r < l < r' < |b|
    requires forall x :: r < x <= l ==> IsSet(t, x)
    requires forall x :: l < x <= r' ==> !IsSet(t, x)
    requires IsSet(t, r' + 1)
    ensures Refining(b, f, t, H, l - 1, still) && Bucket(b, f, H, l, r')
  {
    hide Cmp, CmpAt, IsSet;
    RefiningSkip(b, f, t, H, r, still, l - 1);
  }

  /** Brackets the next class of more than one rotation after slot r, if there is one. */
  method NextClass(bhtab: array<bv32>, n: nat, r: int, ghost f: seq<int>, ghost b: seq<byte>,
                   ghost H: nat, ghost still: bool) returns (l: int, r': int)
    requires |b| == n && Refining(b, f, bhtab[..], H, r, still)
    ensures l >= n ==> Refining(b, f, bhtab[..], H, n - 1, still)
    ensures l < n ==>
      (r < l < r' < n && Refining(b, f, bhtab[..], H, l - 1, still) && Bucket(b, f, H, l, r'))
  {
    hide Refining, IsSet, Bucket;
    ghost var t := bhtab[..];
    RefiningFacts(b, f, t, H, r, still);
    var k := SkipSet(bhtab, r + 1, n + 1);
    l := k - 1;
    r' := l;
    RefiningNext(b, f, t, H, r, still);
    if l >= n {
      RefiningSkip(b, f, t, H, r, still, n - 1);
    } else {
      k := SkipClear(bhtab, k, n);
      r' := k - 1;
      BucketFound(b, f, t, H, r, still, l, r');
    }
  }

  /** The slot after r starts a class, or the block ends there: its bit is set. */
  lemma RefiningNext(b: seq<byte>, f: seq<int>, t: seq<bv32>, H: nat, r: int, still: bool)
    requires Refining(b, f, t, H, r, still)
    ensures IsSet(t, r + 1)
  {
  }

  /** One pass over all classes of more than one rotation; returns how many rotations they hold. */
  method RefineAll(fmap: array<int>, eclass: array<int>, bhtab: array<bv32>,
                   n: nat, ghost b: seq<byte>, ghost H: nat) returns (nNotDone: int)
    requires fmap != eclass && bhtab as object != eclass as object && bhtab as object != fmap as object
    requires |b| == n && n <= 0x7fff_ffff
    requires Level(b, fmap[..], bhtab[..], H) && Classes(b, eclass[..], H)
    requires forall p :: 0 <= p < n ==> 0 <= eclass[p] < n
    modifies fmap, bhtab
    ensures Level(b, fmap[..], bhtab[..], 2 * H)
    ensures 0 <= nNotDone
    ensures nNotDone == 0 ==> Ordered(b, fmap[..], H, n - 1) && forall x :: 0 <= x < n ==> Starts(b, fmap[..], H, x)
    ensures forall c :: Uniform(b, c) ==> fmap[..] == old(fmap[..])
  {
    RefiningStart(b, fmap[..], bhtab[..], H);
    ClassesLength(b, eclass[..], H);
    hide Refining, Classes, IsSet, Bucket, Uniform;
    nNotDone := 0;
    var r := -1;
    while true
      invariant nNotDone >= 0
      invariant Refining(b, fmap[..], bhtab[..], H, r, nNotDone == 0)
      invariant forall c :: Uniform(b, c) ==> fmap[..] == old(fmap[..])
      decreases n - r
    {
      var l, r' := NextClass(bhtab, n, r, fmap[..], b, H, nNotDone == 0);
      if l >= n {
        break;
      }
      if r' > l {
        RefineBucket(fmap, eclass, bhtab, b, H, l, r', nNotDone == 0);
        nNotDone := nNotDone + (r' - l + 1);
      }
      r := r';
    }
    RefiningEnd(b, fmap[..], bhtab[..], H, nNotDone == 0);
    RefiningStill(b, fmap[..], bhtab[..], H, nNotDone == 0);
  }

  lemma ClassesLength(b: seq<byte>, e: seq<int>, H: nat)
    requires Classes(b, e, H)
    ensures |b| <= |e|
  {
  }

  lemma RefiningStill(b: seq<byte>, f: seq<int>, t: seq<bv32>, H: nat, still: bool)
    requires Refining(b, f, t, H, |b| - 1, still)
    ensures IndexPerm(f, |b|)
    ensures still ==> Ordered(b, f, H, |b| - 1) && forall x :: 0 <= x < |b| ==> Starts(b, f, H, x)
  {
  }

  // ---------- Putting the block back ----------

  /** The first characters in slot order. */
  ghost function FirstColumn(b: seq<byte>, f: seq<int>): (d: seq<int>)
    requires IndexPerm(f, |b|)
    ensures |d| == |b| && forall x :: 0 <= x < |b| ==> d[x] == b[f[x]]
  {
    IndexPermIsPerm(f, |b|);
    Permuted(b, f[..|b|])
  }

  lemma FirstColumnCounts(b: seq<byte>, f: seq<int>, v: int)
    requires IndexPerm(f, |b|)
    ensures CountEq(FirstColumn(b, f), v) == CountEq(b, v)
  {
    IndexPermIsPerm(f, |b|);
    PermutedCounts(b, f[..|b|], v);
  }

  lemma FirstColumnSorted(b: seq<byte>, f: seq<int>, H: nat)
    requires IndexPerm(f, |b|) && Ordered(b, f, H, |b| - 1) && 1 <= H
    ensures forall x, y :: 0 <= x < y < |b| ==> FirstColumn(b, f)[x] <= FirstColumn(b, f)[y]
  {
    forall x, y | 0 <= x < y < |b| ensures b[f[x]] <= b[f[y]] {
      assert CmpAt(b, f, H, x, y) <= 0;
      CmpSplit(b, f[x], f[y], 1, H - 1);
      CmpOne(b, f[x], f[y]);
    }
  }

  lemma CountNone(v: int)
    ensures CountEq([], v) == 0
  {
  }

  /** The bytes come back in slot order from the saved frequencies alone: the block's own
      content at this point is not used. */
  method Reconstruct(block: array<byte>, fmap: array<int>, ftabCopy: array<int>, n: nat, ghost b: seq<byte>, ghost H: nat)
    requires fmap != ftabCopy && block as object != fmap as object && block as object != ftabCopy as object
    requires |b| == n && n <= block.Length && ftabCopy.Length == 256 && 1 <= H
    requires IndexPerm(fmap[..], n) && Ordered(b, fmap[..], H, n - 1)
    requires forall v :: 0 <= v < 256 ==> ftabCopy[v] == CountEq(b, v)
    modifies block, ftabCopy
    ensures block[..n] == b
    ensures forall k :: n <= k < block.Length ==> block[k] == old(block[k])
  {
    hide Ordered, CountEq, FirstColumn;
    ghost var f := fmap[..];
    ghost var d := FirstColumn(b, f);
    FirstColumnSorted(b, f, H);
    forall v | 0 <= v < 256 ensures CountEq(d, v) == CountEq(b, v) && CountEq(d[..0], v) == 0 {
      FirstColumnCounts(b, f, v);
      CountNone(v);
    }
    var j := 0;
    var i := 0;
    while i < n
      invariant 0 <= i <= n && 0 <= j < 256
      invariant i < n ==> j <= d[i]
      invariant forall v :: 0 <= v < 256 ==> ftabCopy[v] == CountEq(d, v) - CountEq(d[..i], v)
      invariant forall x :: 0 <= x < i ==> block[f[x]] == b[f[x]]
      invariant forall k :: n <= k < block.Length ==> block[k] == old(block[k])
    {
      CountStep(d, i, d[i]);
      CountPrefix(d, i + 1, n, d[i]);
      assert d[..n] == d;
      while ftabCopy[j] == 0
        invariant 0 <= j <= d[i]
        decreases d[i] - j
      {
        j := j + 1;
      }
      if j < d[i] {
        SortedCounts(d, i, j);
      }
      forall v | 0 <= v < 256 ensures CountEq(d[..i + 1], v) == CountEq(d[..i], v) + if d[i] == v then 1 else 0 {
        CountStep(d, i, v);
      }
      ftabCopy[j] := ftabCopy[j] - 1;
      block[fmap[i]] := j;
      i := i + 1;
    }
    assert j < 256;  // AssertH 1005
    EverySlotWritten(b, f, block[..n]);
  }

  lemma EverySlotWritten(b: seq<byte>, f: seq<int>, c: seq<byte>)
    requires IndexPerm(f, |b|) && |c| == |b|
    requires forall x :: 0 <= x < |b| ==> c[f[x]] == b[f[x]]
    ensures c == b
  {
    forall p | 0 <= p < |b| ensures c[p] == b[p] {
      IndexPermIsPerm(f, |b|);
      var x := PermOnto(f[..|b|], |b|, p);
    }
  }

  // ---------- The whole sort ----------

  /** In the source the keys and the block share memory: storing keys destroys the block.
      Nothing is promised about the bytes afterwards. */
  method Overlay(block: array<byte>, eclass: array<int>, n: nat)
    requires n <= block.Length && n <= eclass.Length
    requires forall p :: 0 <= p < n ==> 0 <= eclass[p]
    requires block as object != eclass as object
    modifies block
    ensures forall k :: n <= k < block.Length ==> block[k] == old(block[k])
  {
    var i := 0;
    while i < n
      invariant 0 <= i <= n
      invariant forall k :: n <= k < block.Length ==> block[k] == old(block[k])
    {
      var word := eclass[i / 4];
      block[i] := (if i % 4 == 0 then word else if i % 4 == 1 then word / 0x100
                   else if i % 4 == 2 then word / 0x1_0000 else word / 0x100_0000) % 256;
      i := i + 1;
    }
  }

  /** The initial buckets are the classes at depth 1. */
  lemma InitialLevel(b: seq<byte>, f: seq<int>, t: seq<bv32>)
    requires |b| <= |f| && |b| + 1 < 32 * |t|
    requires forall i :: 0 <= i < |b| ==> f[PlaceDown(b, i)] == i
    requires forall x :: 0 <= x < |b| ==> (IsSet(t, x) <==> BucketAt(b, x, 256))
    requires IsSet(t, |b|) && !IsSet(t, |b| + 1)
    ensures Level(b, f, t, 1)
  {
    hide IsSet, Ordered, Starts, IndexPerm, InBucket, BucketAt, PlaceDown;
    RadixSorted(b, f);
    forall x | 0 <= x < |b| ensures IsSet(t, x) <==> Starts(b, f, 1, x) {
      RadixStarts(b, f, x);
    }
  }

  method InitialSort(fmap: array<int>, block: array<byte>, bhtab: array<bv32>, ftab: array<int>,
                     ftabCopy: array<int>, n: nat)
    requires ftab != fmap && ftabCopy != fmap && ftab != ftabCopy
    requires bhtab as object != fmap as object && bhtab as object != ftab as object
      && bhtab as object != ftabCopy as object && block as object != fmap as object
      && block as object != ftab as object && block as object != ftabCopy as object
      && block as object != bhtab as object
    requires n <= block.Length && n <= fmap.Length && ftab.Length == 257 && ftabCopy.Length == 256
    requires n + 63 < 32 * bhtab.Length
    modifies fmap, bhtab, ftab, ftabCopy
    ensures Level(block[..n], fmap[..], bhtab[..], 1)
    ensures forall v :: 0 <= v < 256 ==> ftabCopy[v] == CountEq(block[..n], v)
    ensures forall i :: 0 <= i < n ==> fmap[PlaceDown(block[..n], i)] == i
  {
    hide IsSet, Level, PlaceDown, BucketAt, CountEq, CountLess;
    ghost var b := block[..n];
    CountBytes(block, n, ftab);
    var i := 0;
    while i < 256
      invariant 0 <= i <= 256
      invariant forall v :: 0 <= v < i ==> ftabCopy[v] == CountEq(b, v)
      invariant forall v :: 0 <= v <= 256 ==> ftab[v] == CountEq(b, v)
    {
      ftabCopy[i] := ftab[i];
      i := i + 1;
    }
    Accumulate(ftab, b);
    PlaceAll(block, n, ftab, fmap);
    ghost var f := fmap[..];
    assert block[..n] == b;
    assert forall i :: 0 <= i < n ==> f[PlaceDown(b, i)] == i;
    ZeroBits(bhtab, n);
    MarkBuckets(bhtab, ftab, n, b);
    MarkSentinels(bhtab, n);
    assert fmap[..] == f;
    InitialLevel(b, f, bhtab[..]);
    forall i | 0 <= i < n ensures fmap[PlaceDown(b, i)] == i {
      assert f[PlaceDown(b, i)] == i;
    }
  }

  /** Rotations that are all equal are listed from the last to the first. */
  ghost predicate Backwards(f: seq<int>, n: nat) {
    n <= |f| && forall x :: 0 <= x < n ==> f[x] == n - 1 - x
  }

  lemma UniformBackwards(b: seq<byte>, f: seq<int>, c: int)
    requires Uniform(b, c) && |b| <= |f| && forall i :: 0 <= i < |b| ==> f[PlaceDown(b, i)] == i
    ensures Backwards(f, |b|)
  {
    forall x | 0 <= x < |b| ensures f[x] == |b| - 1 - x {
      PlacesOfSame(b, c, |b| - 1 - x);
      assert f[PlaceDown(b, |b| - 1 - x)] == |b| - 1 - x;
    }
  }

  lemma LevelFacts(b: seq<byte>, f: seq<int>, t: seq<bv32>, H: nat)
    requires Level(b, f, t, H)
    ensures IndexPerm(f, |b|) && Ordered(b, f, H, |b| - 1)
  {
  }

  /** fallbackSort: for every non-empty block, the slots list the rotations in order and the
      block bytes are back in place. */
  method Sort(fmap: array<int>, block: array<byte>, eclass: array<int>, bhtab: array<bv32>, n: nat)
    requires fmap != eclass
    requires bhtab as object != fmap as object && bhtab as object != eclass as object
      && block as object != fmap as object && block as object != eclass as object
      && block as object != bhtab as object
    requires 0 < n <= 0x7fff_ffff
    requires n <= block.Length && n <= fmap.Length && n <= eclass.Length && n + 63 < 32 * bhtab.Length
    modifies fmap, block, eclass, bhtab
    ensures InRotationOrder(old(block[..n]), fmap[..n])
    ensures block[..] == old(block[..])
    ensures forall c :: Uniform(old(block[..n]), c) ==> Backwards(fmap[..], n)
  {
    hide Level, Classes, Ordered, Starts, IsSet, Uniform, Backwards, PlaceDown;
    ghost var b, all := block[..n], block[..];
    var ftab := new int[257];
    var ftabCopy := new int[256];
    InitialSort(fmap, block, bhtab, ftab, ftabCopy, n);
    forall c | Uniform(b, c) ensures Backwards(fmap[..], n) {
      UniformBackwards(b, fmap[..], c);
    }
    var H := 1;
    var nNotDone := 1;
    while H <= n && nNotDone != 0
      invariant 1 <= H && nNotDone >= 0
      invariant fresh(ftabCopy) && forall v :: 0 <= v < 256 ==> ftabCopy[v] == CountEq(b, v)
      invariant Level(b, fmap[..], bhtab[..], H)
      invariant nNotDone == 0 ==> InRotationOrder(b, fmap[..n])
      invariant forall c :: Uniform(b, c) ==> Backwards(fmap[..], n)
      invariant forall k :: n <= k < block.Length ==> block[k] == all[k]
      decreases n - H
    {
      AssignKeys(fmap, eclass, bhtab, n, H, b);
      Overlay(block, eclass, n);
      nNotDone := RefineAll(fmap, eclass, bhtab, n, b, H);
      LevelFacts(b, fmap[..], bhtab[..], 2 * H);
      if nNotDone == 0 {
        FinishedBySingles(b, fmap[..], H);
      }
      H := 2 * H;
    }
    LevelFacts(b, fmap[..], bhtab[..], H);
    if H > n {
      FinishedByDepth(b, fmap[..], H);
    }
    Reconstruct(block, fmap, ftabCopy, n, b, H);
    assert block[..] == block[..n] + block[n..];
    assert all == b + all[n..];
  }
}
