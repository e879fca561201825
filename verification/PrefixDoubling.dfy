/** The theory behind the fallback sorter: rotations ordered by their first H characters,
    bucket headers, and the step from H to 2H (dep/bzip2/blocksort.c:202-320). */
module PrefixDoubling {
  import opened Rotations
  import opened Segments
  import opened BitTable

  /** The first n entries of `f` are a permutation of 0..n-1. */
  ghost predicate IndexPerm(f: seq<int>, n: nat) {
    && n <= |f|
    && (forall i :: 0 <= i < n ==> 0 <= f[i] < n)
    && (forall i, j :: 0 <= i < j < n ==> f[i] != f[j])
  }

  lemma IndexPermIsPerm(f: seq<int>, n: nat)
    requires IndexPerm(f, n)
    ensures IsPerm(f[..n], n)
  {
  }

  lemma IndexPermKept(f: seq<int>, g: seq<int>, n: nat, lo: int, hi: int)
    requires IndexPerm(f, n) && Rearranged(f, g, lo, hi) && hi <= n
    ensures IndexPerm(g, n)
  {
    RearrangedPrefix(f, g, n, lo, hi);
    RearrangedDistinct(f[..n], g[..n], lo, hi);
    assert forall i :: 0 <= i < n ==> g[i] == g[..n][i];
    forall i | 0 <= i < n ensures 0 <= g[i] < n {
      if lo <= i < hi {
        var i' := RearrangedMember(f, g, lo, hi, i);
      } else {
        RearrangedOutside(f, g, lo, hi, i);
      }
    }
  }

  lemma RearrangedPrefix(f: seq<int>, g: seq<int>, n: nat, lo: int, hi: int)
    requires Rearranged(f, g, lo, hi) && hi <= n <= |f|
    ensures Rearranged(f[..n], g[..n], lo, hi)
  {
    assert f[..n][lo..hi] == f[lo..hi] && g[..n][lo..hi] == g[lo..hi];
    assert f[..n][..lo] == f[..lo] && g[..n][..lo] == g[..lo];
    assert f[..n][hi..] == f[hi..][..n - hi] && g[..n][hi..] == g[hi..][..n - hi];
  }

  /** Comparison of the entries at slots x and y by their first H characters. */
  ghost function CmpAt(b: seq<byte>, f: seq<int>, H: nat, x: int, y: int): int
    requires IndexPerm(f, |b|) && 0 <= x < |b| && 0 <= y < |b|
  {
    Cmp(b, f[x], f[y], H)
  }

  /** The slots up to `top` are in order of their first H characters. */
  ghost predicate Ordered(b: seq<byte>, f: seq<int>, H: nat, top: int)
    requires IndexPerm(f, |b|) && top < |b|
  {
    forall x, y :: 0 <= x < y <= top ==> CmpAt(b, f, H, x, y) <= 0
  }

  /** Slot x starts a class of rotations with the same first H characters. */
  ghost predicate Starts(b: seq<byte>, f: seq<int>, H: nat, x: int)
    requires IndexPerm(f, |b|) && 0 <= x < |b|
  {
    x == 0 || CmpAt(b, f, H, x - 1, x) != 0
  }

  /** Transitivity in terms of slots. */
  lemma CmpAtTransitive(b: seq<byte>, f: seq<int>, H: nat, x: int, y: int, z: int)
    requires IndexPerm(f, |b|) && 0 <= x < |b| && 0 <= y < |b| && 0 <= z < |b|
    requires CmpAt(b, f, H, x, y) <= 0 && CmpAt(b, f, H, y, z) <= 0
    ensures CmpAt(b, f, H, x, z) <= 0
    ensures CmpAt(b, f, H, x, y) < 0 || CmpAt(b, f, H, y, z) < 0 ==> CmpAt(b, f, H, x, z) < 0
    ensures CmpAt(b, f, H, x, y) == 0 && CmpAt(b, f, H, y, z) == 0 ==> CmpAt(b, f, H, x, z) == 0
  {
    CmpTransitive(b, f[x], f[y], f[z], H);
    if CmpAt(b, f, H, x, y) == 0 && CmpAt(b, f, H, y, z) == 0 {
      CmpFlip(b, f[x], f[y], H);
      CmpFlip(b, f[y], f[z], H);
      CmpFlip(b, f[x], f[z], H);
      CmpTransitive(b, f[z], f[y], f[x], H);
    }
  }

  /** A class start separates what is before it from what follows, at any greater depth. */
  lemma StartSeparates(b: seq<byte>, f: seq<int>, H: nat, K: nat, x: int, s: int, y: int)
    requires IndexPerm(f, |b|) && 0 <= x < s <= y < |b| && H <= K
    requires Ordered(b, f, H, |b| - 1) && Starts(b, f, H, s)
    ensures CmpAt(b, f, H, x, y) < 0 && CmpAt(b, f, K, x, y) < 0
  {
    assert CmpAt(b, f, H, s - 1, s) < 0;
    if x < s - 1 {
      CmpAtTransitive(b, f, H, x, s - 1, s);
    }
    if s < y {
      CmpAtTransitive(b, f, H, x, s, y);
    }
    CmpSplit(b, f[x], f[y], H, K - H);
  }

  /** The last class start at or before x. */
  ghost function Head(b: seq<byte>, f: seq<int>, H: nat, x: int): (h: int)
    requires IndexPerm(f, |b|) && 0 <= x < |b|
    ensures 0 <= h <= x && Starts(b, f, H, h)
    ensures forall k :: h < k <= x ==> !Starts(b, f, H, k)
    decreases x
  {
    if x == 0 || Starts(b, f, H, x) then x else Head(b, f, H, x - 1)
  }

  lemma HeadUnfold(b: seq<byte>, f: seq<int>, H: nat, y: int)
    requires IndexPerm(f, |b|) && 0 < y < |b|
    ensures Starts(b, f, H, y) ==> Head(b, f, H, y) == y
    ensures !Starts(b, f, H, y) ==> Head(b, f, H, y) == Head(b, f, H, y - 1) && CmpAt(b, f, H, y - 1, y) == 0
  {
    hide CmpAt, IndexPerm;
  }

  lemma OrderedAt(b: seq<byte>, f: seq<int>, H: nat, x: int, y: int)
    requires IndexPerm(f, |b|) && 0 <= x <= y < |b| && Ordered(b, f, H, |b| - 1)
    ensures CmpAt(b, f, H, x, y) <= 0 && (x == y ==> CmpAt(b, f, H, x, y) == 0)
  {
    if x == y {
      CmpFlip(b, f[x], f[x], H);
    }
  }

  /** Heads compare as the first H characters do. */
  lemma {:induction false} HeadCompares(b: seq<byte>, f: seq<int>, H: nat, x: int, y: int)
    requires IndexPerm(f, |b|) && 0 <= x <= y < |b| && Ordered(b, f, H, |b| - 1)
    ensures Head(b, f, H, x) <= Head(b, f, H, y)
    ensures Head(b, f, H, x) == Head(b, f, H, y) <==> CmpAt(b, f, H, x, y) == 0
    decreases y
  {
    hide *;
    OrderedAt(b, f, H, x, y);
    if x < y {
      HeadUnfold(b, f, H, y);
      if Starts(b, f, H, y) {
        StartSeparates(b, f, H, H, x, y, y);
      } else {
        HeadCompares(b, f, H, x, y - 1);
        OrderedAt(b, f, H, x, y - 1);
        CmpAtTransitive(b, f, H, x, y - 1, y);
      }
    }
  }

  /** The position H characters before p, cyclically. */
  function Back(n: nat, p: int, H: nat): (q: int)
    requires 0 <= p < n && H <= n
    ensures 0 <= q < n
  {
    if p - H < 0 then p - H + n else p - H
  }

  lemma BackAdv(n: nat, p: int, H: nat)
    requires 0 <= p < n && H <= n
    ensures Adv(n, Back(n, p, H), H) == p
  {
    AdvSmall(n, Back(n, p, H), H);
  }

  lemma AdvBack(n: nat, q: int, H: nat)
    requires 0 <= q < n && H <= n
    ensures Back(n, Adv(n, q, H), H) == q
  {
    AdvSmall(n, q, H);
  }

  /** The key array ranks every position by the H characters that follow its first H. */
  ghost predicate Classes(b: seq<byte>, e: seq<int>, H: nat) {
    && |b| <= |e|
    && forall p, q :: 0 <= p < |b| && 0 <= q < |b| ==>
         (e[p] <= e[q] <==> Cmp(b, Adv(|b|, p, H), Adv(|b|, q, H), H) <= 0)
  }

  /** What the key-assigning pass writes is such a ranking. */
  lemma ClassesAssigned(b: seq<byte>, f: seq<int>, e: seq<int>, H: nat)
    requires IndexPerm(f, |b|) && Ordered(b, f, H, |b| - 1) && H <= |b| <= |e|
    requires forall x :: 0 <= x < |b| ==> e[Back(|b|, f[x], H)] == Head(b, f, H, x)
    ensures Classes(b, e, H)
  {
    var n := |b|;
    forall p, q | 0 <= p < n && 0 <= q < n
      ensures e[p] <= e[q] <==> Cmp(b, Adv(n, p, H), Adv(n, q, H), H) <= 0
    {
      IndexPermIsPerm(f, n);
      var x := PermOnto(f[..n], n, Adv(n, p, H));
      var y := PermOnto(f[..n], n, Adv(n, q, H));
      AdvBack(n, p, H);
      AdvBack(n, q, H);
      assert e[p] == Head(b, f, H, x) && e[q] == Head(b, f, H, y);
      if x <= y {
        HeadCompares(b, f, H, x, y);
        if x == y {
          CmpFlip(b, f[x], f[x], H);
        }
      } else {
        HeadCompares(b, f, H, y, x);
        CmpFlip(b, f[x], f[y], H);
      }
    }
  }

  /** Inside a class at depth H, the keys order by depth 2H. */
  lemma ClassCompares(b: seq<byte>, e: seq<int>, H: nat, p: int, q: int)
    requires Classes(b, e, H) && 0 <= p < |b| && 0 <= q < |b| && Cmp(b, p, q, H) == 0
    ensures e[p] <= e[q] <==> Cmp(b, p, q, 2 * H) <= 0
    ensures e[p] == e[q] <==> Cmp(b, p, q, 2 * H) == 0
  {
    CmpSplit(b, p, q, H, H);
    CmpFlip(b, p, q, H);
    CmpSplit(b, q, p, H, H);
    CmpFlip(b, p, q, 2 * H);
  }

  // ---------- One bucket ----------

  /** Slots l..r are one whole class at depth H. */
  ghost predicate Bucket(b: seq<byte>, f: seq<int>, H: nat, l: int, r: int)
    requires IndexPerm(f, |b|)
  {
    && 0 <= l <= r < |b|
    && Starts(b, f, H, l)
    && (forall x :: l < x <= r ==> !Starts(b, f, H, x))
    && (r + 1 < |b| ==> Starts(b, f, H, r + 1))
  }

  lemma {:induction false} BucketEqual(b: seq<byte>, f: seq<int>, H: nat, l: int, r: int, x: int, y: int)
    requires IndexPerm(f, |b|) && Bucket(b, f, H, l, r) && l <= x <= r && l <= y <= r
    ensures CmpAt(b, f, H, x, y) == 0
    decreases if x <= y then y - x else x - y, y
  {
    if x == y {
      CmpFlip(b, f[x], f[x], H);
    } else if x < y {
      BucketEqual(b, f, H, l, r, x, y - 1);
      assert !Starts(b, f, H, y);
      CmpAtTransitive(b, f, H, x, y - 1, y);
    } else {
      BucketEqual(b, f, H, l, r, x - 1, y);
      assert !Starts(b, f, H, x);
      CmpFlip(b, f[x], f[x - 1], H);
      CmpAtTransitive(b, f, H, x, x - 1, y);
    }
  }

  /** Where the entry now in slot x of a sorted bucket came from. */
  lemma Origin(f: seq<int>, g: seq<int>, l: int, r: int, x: int) returns (x': int)
    requires Rearranged(f, g, l, r + 1) && 0 <= x < |f|
    ensures 0 <= x' < |f| && f[x'] == g[x]
    ensures if l <= x <= r then l <= x' <= r else x' == x
  {
    if l <= x <= r {
      x' := RearrangedMember(f, g, l, r + 1, x);
    } else {
      RearrangedOutside(f, g, l, r + 1, x);
      x' := x;
    }
  }

  /** Rearranging one class leaves every comparison between slots at depth H as it was. */
  lemma BucketCompares(b: seq<byte>, f: seq<int>, g: seq<int>, H: nat, l: int, r: int, x: int, y: int)
    requires IndexPerm(f, |b|) && IndexPerm(g, |b|) && Bucket(b, f, H, l, r)
    requires Rearranged(f, g, l, r + 1) && Ordered(b, f, H, |b| - 1)
    requires 0 <= x < y < |b|
    ensures CmpAt(b, g, H, x, y) <= 0
    ensures CmpAt(b, g, H, x, y) == 0 <==> CmpAt(b, f, H, x, y) == 0
  {
    hide Rearranged, CmpAt, Bucket, Ordered;
    BucketFacts(b, f, H, l, r);
    var x' := Origin(f, g, l, r, x);
    var y' := Origin(f, g, l, r, y);
    SameAt(b, f, g, H, x', y', x, y);
    if l <= x && y <= r {
      BucketEqual(b, f, H, l, r, x', y');
      BucketEqual(b, f, H, l, r, x, y);
    } else {
      BucketApart(b, f, H, l, r, x, y, x', y');
    }
  }

  lemma SameAt(b: seq<byte>, f: seq<int>, g: seq<int>, H: nat, x': int, y': int, x: int, y: int)
    requires IndexPerm(f, |b|) && IndexPerm(g, |b|)
    requires 0 <= x < |b| && 0 <= y < |b| && 0 <= x' < |b| && 0 <= y' < |b|
    requires f[x'] == g[x] && f[y'] == g[y]
    ensures CmpAt(b, g, H, x, y) == CmpAt(b, f, H, x', y')
  {
  }

  lemma BucketFacts(b: seq<byte>, f: seq<int>, H: nat, l: int, r: int)
    requires IndexPerm(f, |b|) && Bucket(b, f, H, l, r)
    ensures 0 <= l <= r < |b|
  {
  }

  lemma BucketApart(b: seq<byte>, f: seq<int>, H: nat, l: int, r: int, x: int, y: int, x': int, y': int)
    requires IndexPerm(f, |b|) && Bucket(b, f, H, l, r) && Ordered(b, f, H, |b| - 1)
    requires 0 <= x < y < |b| && 0 <= x' < |b| && 0 <= y' < |b| && !(l <= x && y <= r)
    requires if l <= x <= r then l <= x' <= r else x' == x
    requires if l <= y <= r then l <= y' <= r else y' == y
    ensures CmpAt(b, f, H, x', y') <= 0
    ensures CmpAt(b, f, H, x', y') == 0 <==> CmpAt(b, f, H, x, y) == 0
  {
    if x < l && l <= y <= r {
      StartSeparates(b, f, H, H, x, l, y);
      StartSeparates(b, f, H, H, x, l, y');
    } else if l <= x <= r && r < y {
      StartSeparates(b, f, H, H, x, r + 1, y);
      StartSeparates(b, f, H, H, x', r + 1, y);
    }
  }

  // ---------- One pass of the refinement ----------

  /** Everything at one depth: order, and header bits exactly at the class starts. */
  ghost predicate Level(b: seq<byte>, f: seq<int>, t: seq<bv32>, H: nat) {
    && IndexPerm(f, |b|)
    && |b| + 1 < 32 * |t|
    && Ordered(b, f, H, |b| - 1)
    && (forall x :: 0 <= x < |b| ==> (IsSet(t, x) <==> Starts(b, f, H, x)))
    && IsSet(t, |b|) && !IsSet(t, |b| + 1)
  }

  /** A pass in progress: slots up to r are at depth 2H, the rest still at H; `still` says that
      no class of more than one rotation has been met. */
  ghost predicate Refining(b: seq<byte>, f: seq<int>, t: seq<bv32>, H: nat, r: int, still: bool) {
    && IndexPerm(f, |b|)
    && -1 <= r < |b| && |b| + 1 < 32 * |t|
    && Ordered(b, f, H, |b| - 1)
    && Ordered(b, f, 2 * H, r)
    && (forall x :: 0 <= x <= r ==> (IsSet(t, x) <==> Starts(b, f, 2 * H, x)))
    && (forall x :: r < x < |b| ==> (IsSet(t, x) <==> Starts(b, f, H, x)))
    && IsSet(t, |b|) && !IsSet(t, |b| + 1)
    && (r + 1 < |b| ==> Starts(b, f, H, r + 1))
    && (still ==> forall x :: 0 <= x <= r ==> Starts(b, f, H, x))
  }

  lemma RefiningStart(b: seq<byte>, f: seq<int>, t: seq<bv32>, H: nat)
    requires Level(b, f, t, H)
    ensures Refining(b, f, t, H, -1, true)
  {
  }

  lemma RefiningEnd(b: seq<byte>, f: seq<int>, t: seq<bv32>, H: nat, still: bool)
    requires Refining(b, f, t, H, |b| - 1, still)
    ensures Level(b, f, t, 2 * H)
  {
  }

  lemma StartsDeeper(b: seq<byte>, f: seq<int>, H: nat, x: int)
    requires IndexPerm(f, |b|) && 0 <= x < |b| && Starts(b, f, H, x)
    ensures Starts(b, f, 2 * H, x)
  {
    if x > 0 {
      CmpSplit(b, f[x - 1], f[x], H, H);
    }
  }

  /** Skipping the singleton classes r+1..s. */
  lemma RefiningSkip(b: seq<byte>, f: seq<int>, t: seq<bv32>, H: nat, r: int, still: bool, s: int)
    requires Refining(b, f, t, H, r, still) && r <= s < |b|
    requires forall x :: r < x <= s + 1 && x < |b| ==> IsSet(t, x)
    ensures Refining(b, f, t, H, s, still)
  {
    forall x, y | 0 <= x < y <= s ensures CmpAt(b, f, 2 * H, x, y) <= 0 {
      if r < y {
        StartSeparates(b, f, H, 2 * H, x, y, y);
      }
    }
    forall x | r < x <= s ensures Starts(b, f, 2 * H, x) {
      StartsDeeper(b, f, H, x);
    }
  }

  lemma RefiningOutside(b: seq<byte>, f: seq<int>, g: seq<int>, H: nat, l: int, r: int, x: int, y: int)
    requires IndexPerm(f, |b|) && IndexPerm(g, |b|) && Rearranged(f, g, l, r + 1)
    requires 0 <= x < |b| && 0 <= y < |b| && !(l <= x <= r) && !(l <= y <= r)
    ensures CmpAt(b, g, H, x, y) == CmpAt(b, f, H, x, y)
  {
    RearrangedOutside(f, g, l, r + 1, x);
    RearrangedOutside(f, g, l, r + 1, y);
  }

  /** The keys of slots x and y are the same. */
  ghost predicate SameKey(f: seq<int>, e: seq<int>, x: int, y: int)
    requires 0 <= x < |f| && 0 <= y < |f| && 0 <= f[x] < |e| && 0 <= f[y] < |e|
  {
    e[f[x]] == e[f[y]]
  }

  /** Class starts at depth 2H within a bucket sorted by key are where the key changes. */
  lemma BucketStarts(b: seq<byte>, f: seq<int>, g: seq<int>, e: seq<int>, H: nat, l: int, r: int, x: int)
    requires IndexPerm(f, |b|) && IndexPerm(g, |b|) && Bucket(b, f, H, l, r)
    requires Rearranged(f, g, l, r + 1) && Ordered(b, f, H, |b| - 1)
    requires Classes(b, e, H) && l <= x <= r
    ensures Starts(b, g, 2 * H, x) <==> x == l || !SameKey(g, e, x - 1, x)
  {
    hide Rearranged, Classes, Cmp;
    if x == l {
      if l > 0 {
        BucketCompares(b, f, g, H, l, r, l - 1, l);
        assert Starts(b, g, H, l);
        StartsDeeper(b, g, H, l);
      }
    } else {
      BucketCompares(b, f, g, H, l, r, x - 1, x);
      BucketEqual(b, f, H, l, r, x - 1, x);
      ClassCompares(b, e, H, g[x - 1], g[x]);
    }
  }

  lemma BucketInOrder(b: seq<byte>, f: seq<int>, g: seq<int>, e: seq<int>, H: nat, l: int, r: int,
                      x: int, y: int)
    requires IndexPerm(f, |b|) && IndexPerm(g, |b|) && Bucket(b, f, H, l, r)
    requires Rearranged(f, g, l, r + 1) && Ordered(b, f, H, |b| - 1)
    requires Classes(b, e, H) && l <= x < y <= r && InOrder(g, e, x, y)
    ensures CmpAt(b, g, 2 * H, x, y) <= 0
  {
    hide Rearranged;
    BucketCompares(b, f, g, H, l, r, x, y);
    BucketEqual(b, f, H, l, r, x, y);
    ClassCompares(b, e, H, g[x], g[y]);
  }

  /** After a bucket l..r has been sorted by key, slots up to r are ordered at depth 2H. */
  lemma BucketOrdered(b: seq<byte>, f: seq<int>, g: seq<int>, e: seq<int>, H: nat, l: int, r: int)
    requires IndexPerm(f, |b|) && IndexPerm(g, |b|) && Bucket(b, f, H, l, r)
    requires Rearranged(f, g, l, r + 1)
    requires Ordered(b, f, H, |b| - 1) && Ordered(b, f, 2 * H, l - 1)
    requires Classes(b, e, H)
    requires forall x, y :: l <= x < y <= r ==> InOrder(g, e, x, y)
    ensures Ordered(b, g, H, |b| - 1) && Ordered(b, g, 2 * H, r)
  {
    hide Rearranged, Classes, Cmp, CmpAt;
    forall x, y | 0 <= x < y < |b| ensures CmpAt(b, g, H, x, y) <= 0 {
      BucketCompares(b, f, g, H, l, r, x, y);
    }
    forall x, y | 0 <= x < y <= r ensures CmpAt(b, g, 2 * H, x, y) <= 0 {
      if l <= x {
        BucketInOrder(b, f, g, e, H, l, r, x, y);
      } else if y < l {
        RefiningOutside(b, f, g, 2 * H, l, r, x, y);
      } else {
        BucketCompares(b, f, g, H, l, r, l - 1, l);
        assert Starts(b, g, H, l);
        StartSeparates(b, g, H, 2 * H, x, l, y);
      }
    }
  }

  /** Sorting the class l..r by key and setting its new header bits moves the pass on to r. */
  lemma RefiningBucket(b: seq<byte>, f: seq<int>, g: seq<int>, e: seq<int>, t: seq<bv32>, t': seq<bv32>,
                       H: nat, l: int, r: int, still: bool)
    requires Refining(b, f, t, H, l - 1, still) && IndexPerm(g, |b|) && Bucket(b, f, H, l, r)
    requires Rearranged(f, g, l, r + 1) && Classes(b, e, H) && |t'| == |t|
    requires forall x, y :: l <= x < y <= r ==> InOrder(g, e, x, y)
    requires forall x :: 0 <= x < 32 * |t| && !(l <= x <= r) ==> (IsSet(t', x) <==> IsSet(t, x))
    requires forall x :: l <= x <= r ==> (IsSet(t', x) <==> x == l || !SameKey(g, e, x - 1, x))
    ensures Refining(b, g, t', H, r, false)
  {
    hide Rearranged, Classes, Cmp, CmpAt, IsSet;
    BucketOrdered(b, f, g, e, H, l, r);
    forall x | 0 <= x <= r ensures IsSet(t', x) <==> Starts(b, g, 2 * H, x) {
      if l <= x {
        BucketStarts(b, f, g, e, H, l, r, x);
      } else if x > 0 {
        RefiningOutside(b, f, g, 2 * H, l, r, x - 1, x);
      }
    }
    forall x | r < x < |b| ensures IsSet(t', x) <==> Starts(b, g, H, x) {
      BucketCompares(b, f, g, H, l, r, x - 1, x);
    }
    if r + 1 < |b| {
      BucketCompares(b, f, g, H, l, r, r, r + 1);
    }
  }

  // ---------- Finishing ----------

  /** Depth at least the block length: the rotations are in order. */
  lemma FinishedByDepth(b: seq<byte>, f: seq<int>, H: nat)
    requires IndexPerm(f, |b|) && Ordered(b, f, H, |b| - 1) && |b| <= H
    ensures InRotationOrder(b, f[..|b|])
  {
    IndexPermIsPerm(f, |b|);
    forall x, y | 0 <= x < y < |b| ensures Cmp(b, f[x], f[y], |b|) <= 0 {
      assert CmpAt(b, f, H, x, y) <= 0;
      CmpBeyond(b, f[x], f[y], H);
    }
  }

  /** Every class is a single rotation: the rotations are in order. */
  lemma FinishedBySingles(b: seq<byte>, f: seq<int>, H: nat)
    requires IndexPerm(f, |b|) && Ordered(b, f, H, |b| - 1) && H <= |b|
    requires forall x :: 0 <= x < |b| ==> Starts(b, f, H, x)
    ensures InRotationOrder(b, f[..|b|])
  {
    IndexPermIsPerm(f, |b|);
    forall x, y | 0 <= x < y < |b| ensures Cmp(b, f[x], f[y], |b|) <= 0 {
      StartSeparates(b, f, H, |b|, x, y, y);
    }
  }
}
