/** What the cached quadrant values mean, exactly.  The comment at dep/bzip2/blocksort.c:946-967
    promises that of two rotations with the same first byte the one with the smaller value
    precedes the other.  For equal rotations that is not so in general: they get values by their
    slots, and the slots of equal rotations are as many as the block repeats. */
module QuadrantMeaning {
  import opened Powers
  import opened Rotations
  import opened RotationRank
  import opened EqualRotations
  import opened MainCompare
  import opened RadixSort
  import opened PointerScan
  import opened BucketScan
  import opened BigBucket
  import opened MainSort
  import Counting

  /** The promise for rotations that start with byte c. */
  ghost predicate DocumentedFor(b: seq<byte>, quad: seq<int>, c: int)
    requires |b| <= |quad|
  {
    forall i, j :: 0 <= i < |b| && 0 <= j < |b| && b[i] == c && b[j] == c && quad[i] < quad[j] ==> Cmp(b, i, j, |b|) < 0
  }

  /** The promise as the comment makes it. */
  ghost predicate Documented(b: seq<byte>, quad: seq<int>)
    requires |b| <= |quad|
  {
    forall i, j :: 0 <= i < |b| && 0 <= j < |b| && b[i] == b[j] && quad[i] < quad[j] ==> Cmp(b, i, j, |b|) < 0
  }

  // ---------- Slots and groups of equal rotations ----------

  /** A slot of a sorted big bucket is in its place in the whole block. */
  lemma RowInPlace(b: seq<byte>, p: seq<int>, c: int, x: int)
    requires Bucketed(b, p) && OfBlock(b, p) && 0 <= c < 256 && SortedIn(b, p, First(b, c), Last(b, c))
    requires First(b, c) <= x < Last(b, c)
    ensures Last(b, c) <= |b| && InPlace(b, p, x)
    ensures forall y :: 0 <= y < First(b, c) ==> Rank(b, p[y]) < Rank(b, p[x])
  {
    hide Rank, TwoBytes, Start;
    FirstLast(b, c);
    StartOrder(b, 0, 0);
    StartOrder(b, 65536, 65536);
    SlotRange(b, p, Bucket(c, 0), Bucket(c, 0) + 256, x);
    forall y | 0 <= y < First(b, c) ensures Rank(b, p[y]) < Rank(b, p[x]) {
      SlotRange(b, p, 0, Bucket(c, 0), y);
      FirstDecides(b, p[y], p[x]);
    }
    forall y | Last(b, c) <= y < |b| ensures Rank(b, p[x]) < Rank(b, p[y]) {
      SlotRange(b, p, Bucket(c, 0) + 256, 65536, y);
      FirstDecides(b, p[x], p[y]);
    }
  }

  /** The slots before a sorted big bucket are whole groups. */
  lemma BucketStartsGroup(b: seq<byte>, p: seq<int>, c: int)
    requires Bucketed(b, p) && OfBlock(b, p) && 0 <= c < 256 && SortedIn(b, p, First(b, c), Last(b, c))
    requires First(b, c) < Last(b, c)
    ensures First(b, c) % Repeats(b) == 0
  {
    hide Cmp, Repeats, Start, Bucketed;
    var lo := First(b, c);
    FirstLast(b, c);
    BucketedRange(b, p);
    RowInPlace(b, p, c, lo);
    SlotOfRank(b, p, lo);
    forall j | j in Elements(p[..lo]) ensures j in Smaller(b, p[lo]) {
      var y :| 0 <= y < lo && p[..lo][y] == j;
      SameRank(b, j, p[lo]);
    }
    DistinctCardinality(p[..lo]);
    SubsetCardinality(Elements(p[..lo]), Smaller(b, p[lo]));
    var q := RankGroups(b, p[lo]);
    ModUnique(lo, Repeats(b), q, 0);
  }

  /** The rank of the rotation in slot u of a sorted big bucket. */
  lemma SlotRank(b: seq<byte>, p: seq<int>, c: int, u: nat)
    requires Bucketed(b, p) && OfBlock(b, p) && 0 <= c < 256 && SortedIn(b, p, First(b, c), Last(b, c))
    requires First(b, c) + u < Last(b, c)
    ensures Last(b, c) <= |b| && Rank(b, p[First(b, c) + u]) == First(b, c) + u / Repeats(b) * Repeats(b)
  {
    hide Rank, Repeats, Start, Bucketed, SortedIn, InPlace;
    var lo, m := First(b, c), Repeats(b);
    FirstLast(b, c);
    RowInPlace(b, p, c, lo + u);
    BucketStartsGroup(b, p, c);
    BucketedPerm(b, p);
    GroupOfSlot(b, p, lo + u);
    SumOfMultiple(lo, u, m);
  }

  lemma BucketedPerm(b: seq<byte>, p: seq<int>)
    requires Bucketed(b, p)
    ensures IsPerm(p, |b|)
  {
  }

  lemma SumOfMultiple(lo: nat, u: nat, m: nat)
    requires 0 < m && lo % m == 0
    ensures (lo + u) / m * m == lo + u / m * m
  {
    var l, q := lo / m, u / m;
    Powers.Distribute(l, q, m);
    ModUnique(lo + u, m, l + q, u % m);
  }

  /** A bucket that is not empty holds a whole group. */
  lemma GroupFits(b: seq<byte>, p: seq<int>, c: int)
    requires Bucketed(b, p) && 0 <= c < 256 && First(b, c) < Last(b, c)
    ensures Repeats(b) <= Last(b, c) - First(b, c)
  {
    hide Rank, Start, Bucketed, Adv;
    var lo, hi := First(b, c), Last(b, c);
    FirstLast(b, c);
    BucketedRange(b, p);
    InBigBucket(b, p, c, lo);
    var i := p[lo];
    forall j | j in Twins(b, i) ensures j in Elements(p[lo..hi]) {
      TwinByte(b, i, j);
      var x := SlotHolding(b, p, j);
      InBigBucket(b, p, c, x);
      assert p[lo..hi][x - lo] == j;
    }
    TwinsSize(b, i);
    DistinctCardinality(p[lo..hi]);
    SubsetCardinality(Twins(b, i), Elements(p[lo..hi]));
  }

  // ---------- Shifted slot numbers ----------

  lemma QuotientBelow(u: nat, k: nat, m: nat)
    requires 0 < m
    ensures u < k * m <==> u / m < k
  {
    var q := u / m;
    assert q * m <= u < q * m + m;
    if q < k {
      MulMonotone(q + 1, k, m);
      Powers.Distribute(q, 1, m);
    } else {
      MulMonotone(k, q, m);
    }
  }

  /** With groups that fit the shift, different values belong to different groups. */
  lemma ValuesSplitGroups(u: nat, w: nat, sh: nat, m: nat)
    requires 0 < m && 0 < sh && sh % m == 0 && u / sh < w / sh
    ensures u / m < w / m
  {
    hide *;
    var k, d := w / sh, sh / m;
    QuotientBelow(u, k, sh);
    QuotientBelow(w, k, sh);
    assert k * sh == k * d * m by {
      assert sh == d * m;
      Product(k, d, m);
    }
    QuotientBelow(u, k * d, m);
    QuotientBelow(w, k * d, m);
  }

  lemma GroupsApart(u: nat, w: nat, sh: nat, m: nat)
    requires 0 < m && 0 < sh && sh % m == 0 && u / sh < w / sh
    ensures u / m * m < w / m * m
  {
    ValuesSplitGroups(u, w, sh, m);
    MulMonotone(u / m + 1, w / m, m);
    Powers.Distribute(u / m, 1, m);
  }

  lemma Product(k: nat, d: nat, m: nat)
    ensures k * (d * m) == k * d * m
  {
  }

  /** Otherwise slots sh - 1 and sh are of one group and get different values. */
  lemma ValuesWithinGroup(sh: nat, m: nat)
    requires 0 < m && 0 < sh && sh % m != 0
    ensures (sh - 1) / m == sh / m && (sh - 1) / sh == 0 && sh / sh == 1
  {
    ModUnique(sh - 1, m, sh / m, sh % m - 1);
    ModUnique(sh - 1, sh, 0, sh - 1);
    ModUnique(sh, sh, 1, 0);
  }

  lemma ShiftBelow(size: nat, m: nat)
    requires 0 < m <= size && Pow2(ShiftsFor(size)) % m != 0
    ensures Pow2(ShiftsFor(size)) < size
  {
    hide Pow2, ShiftsFor;
    var r := ShiftsFor(size);
    Pow2Next(0);
    if r > 0 {
      Pow2Next(r - 1);
      QuotientBelow(size, 65535, Pow2(r - 1));
    } else {
      OneDivides(m);
    }
  }

  lemma OneDivides(m: nat)
    requires 0 < m
    ensures 1 % m == 0 <==> m == 1
  {
    if m > 1 {
      ModUnique(1, m, 0, 1);
    }
  }

  // ---------- One finished big bucket ----------

  /** A finished big bucket, sorted and cached. */
  ghost predicate Finished(b: seq<byte>, p: seq<int>, quad: seq<int>, c: int) {
    && Bucketed(b, p) && |p| == |b| <= |quad| && OfBlock(b, p) && 0 <= c < 256
    && SortedIn(b, p, First(b, c), Last(b, c)) && CacheOf(b, p, quad, c)
  }

  ghost function ShiftOf(b: seq<byte>, c: int): (sh: nat)
    ensures 0 < sh
  {
    FirstLast(b, c);
    Pow2(ShiftsFor(Last(b, c) - First(b, c)))
  }

  lemma CachedSlot(b: seq<byte>, p: seq<int>, quad: seq<int>, c: int, i: int) returns (u: nat)
    requires Finished(b, p, quad, c) && 0 <= i < |b| && b[i] == c
    ensures First(b, c) + u < Last(b, c) <= |b| && p[First(b, c) + u] == i && quad[i] == u / ShiftOf(b, c)
  {
    hide Bucketed, SortedIn, Start, ShiftsFor;
    FirstLast(b, c);
    var x := SlotHolding(b, p, i);
    InBigBucket(b, p, c, x);
    u := x - First(b, c);
  }

  lemma ShiftFitsGroups(b: seq<byte>, p: seq<int>, quad: seq<int>, c: int)
    requires Finished(b, p, quad, c) && First(b, c) < Last(b, c) && ShiftOf(b, c) % Repeats(b) == 0
    ensures DocumentedFor(b, quad, c)
  {
    hide Bucketed, SortedIn, Start, ShiftOf, Repeats, Rank, Cmp, CacheOf;
    var m := Repeats(b);
    forall i, j | 0 <= i < |b| && 0 <= j < |b| && b[i] == c && b[j] == c && quad[i] < quad[j]
      ensures Cmp(b, i, j, |b|) < 0
    {
      var u := CachedSlot(b, p, quad, c, i);
      var w := CachedSlot(b, p, quad, c, j);
      GroupsApart(u, w, ShiftOf(b, c), m);
      SlotRank(b, p, c, u);
      SlotRank(b, p, c, w);
      SameRank(b, i, j);
    }
  }

  /** If the groups do not fit the shift, the promise fails for two equal rotations. */
  lemma ShiftSplitsGroup(b: seq<byte>, p: seq<int>, quad: seq<int>, c: int) returns (i: int, j: int)
    requires Finished(b, p, quad, c) && First(b, c) < Last(b, c) && ShiftOf(b, c) % Repeats(b) != 0
    ensures 0 <= i < |b| && 0 <= j < |b| && b[i] == c && b[j] == c && quad[i] < quad[j] && Cmp(b, i, j, |b|) == 0
  {
    hide Bucketed, SortedIn, Start, Repeats, Rank, Cmp, ShiftsFor, Pow2;
    var m, sh, lo := Repeats(b), ShiftOf(b, c), First(b, c);
    FirstLast(b, c);
    GroupFits(b, p, c);
    ShiftBelow(Last(b, c) - lo, m);
    ValuesWithinGroup(sh, m);
    i, j := p[lo + (sh - 1)], p[lo + sh];
    InBigBucket(b, p, c, lo + (sh - 1));
    InBigBucket(b, p, c, lo + sh);
    SlotRank(b, p, c, sh - 1);
    SlotRank(b, p, c, sh);
    SameRank(b, i, j);
    var v, w := lo + (sh - 1), lo + sh;
    assert quad[p[v]] == (v - lo) / sh && quad[p[w]] == (w - lo) / sh;
  }

  /** In a finished big bucket the promise holds exactly when each value belongs to whole groups
      of equal rotations: when the shifted-out size is a multiple of how often the block repeats. */
  lemma BucketMeaning(b: seq<byte>, p: seq<int>, quad: seq<int>, c: int)
    requires Finished(b, p, quad, c) && First(b, c) < Last(b, c)
    ensures DocumentedFor(b, quad, c) <==> Pow2(ShiftsFor(Last(b, c) - First(b, c))) % Repeats(b) == 0
  {
    hide Finished, Start, Repeats, Cmp, ShiftsFor, Pow2;
    FinishedSize(b, p, quad, c);
    if ShiftOf(b, c) % Repeats(b) == 0 {
      ShiftFitsGroups(b, p, quad, c);
    } else {
      var i, j := ShiftSplitsGroup(b, p, quad, c);
    }
  }

  lemma FinishedSize(b: seq<byte>, p: seq<int>, quad: seq<int>, c: int)
    requires Finished(b, p, quad, c)
    ensures |b| <= |quad|
  {
  }

  /** No two rotations that start with byte c are equal. */
  ghost predicate AllDiffer(b: seq<byte>, c: int) {
    forall i, j :: 0 <= i < j < |b| && b[i] == c && b[j] == c ==> Cmp(b, i, j, |b|) != 0
  }

  /** With up to 65534 rotations, the most that fit without a shift: exactly when they all differ. */
  lemma SmallBucketMeaning(b: seq<byte>, p: seq<int>, quad: seq<int>, c: int)
    requires Finished(b, p, quad, c) && Last(b, c) - First(b, c) <= 65534
    ensures |b| <= |quad| && (DocumentedFor(b, quad, c) <==> AllDiffer(b, c))
  {
    hide Start, Repeats, Cmp, Bucketed, SortedIn, CacheOf, Pow2, Rank, ShiftsFor;
    FirstLast(b, c);
    if First(b, c) == Last(b, c) {
      forall i | 0 <= i < |b| ensures b[i] != c {
        if b[i] == c {
          var u := CachedSlot(b, p, quad, c, i);
          assert false;
        }
      }
    } else {
      BucketMeaning(b, p, quad, c);
      Pow2Next(0);
      OneDivides(Repeats(b));
      NoShift(Last(b, c) - First(b, c));
      InBigBucket(b, p, c, First(b, c));
      DifferOnce(b, c, p[First(b, c)]);
    }
  }

  lemma NoShift(size: nat)
    requires size <= 65534
    ensures ShiftsFor(size) == 0
  {
  }

  /** If two rotations are equal, some rotation that starts with c equals another one. */
  lemma DifferOnce(b: seq<byte>, c: int, i: int)
    requires 0 <= i < |b| && b[i] == c
    ensures AllDiffer(b, c) <==> Repeats(b) == 1
  {
    hide Cmp, Rank, Repeats;
    RepeatsOnce(b);
    TwinsSize(b, i);
    if Repeats(b) != 1 {
      var j := AnotherTwin(b, i);
      TwinByte(b, i, j);
      SameRank(b, i, j);
      CmpFlip(b, i, j, |b|);
    }
  }

  lemma AnotherTwin(b: seq<byte>, i: int) returns (j: int)
    requires 0 <= i < |b| && |Twins(b, i)| != 1
    ensures 0 <= j < |b| && j != i && Rank(b, j) == Rank(b, i)
  {
    hide Rank;
    assert i in Twins(b, i);
    SingleOr(Twins(b, i), i);
    j :| j in Twins(b, i) && j != i;
  }

  lemma SingleOr(s: set<int>, i: int)
    requires i in s
    ensures |s| == 1 || exists j :: j in s && j != i
  {
    if j :| j in s && j != i {
    } else {
      assert forall j :: j in s ==> j == i;
      assert s == {i};
    }
  }

  // ---------- All big buckets ----------

  lemma KeptFinished(block: seq<byte>, p: seq<int>, quad: seq<int>, f: seq<int>, done: seq<bool>, kept: seq<bool>, n: nat,
                     c: int)
    requires Between(block, p, quad, f, done, kept, n) && 0 <= c < 256 && kept[c]
    ensures Finished(block[..n], p, quad, c)
  {
    hide Start, Comparable, Halves, Tables, Marked, CacheOf, Bucketed, Marks, SortedIn;
    WholeRowSorted(block[..n], p, f, c);
  }

  /** Between big buckets, the promise holds exactly when it holds in every one that is cached:
      when the size that each shift leaves out is a multiple of how often the block repeats. */
  lemma MeaningBetween(block: seq<byte>, p: seq<int>, quad: seq<int>, f: seq<int>, done: seq<bool>, kept: seq<bool>, n: nat)
    requires 0 < n && Between(block, p, quad, f, done, kept, n)
    ensures n <= |block| && n <= |quad| && |kept| == 256
    ensures var b := block[..n];
      Documented(b, quad) <==> forall c :: 0 <= c < 256 && kept[c] && First(b, c) < Last(b, c) ==>
        Pow2(ShiftsFor(Last(b, c) - First(b, c))) % Repeats(b) == 0
  {
    hide Start, First, Last, Finished, Between, Caches, Documented, DocumentedFor, Repeats, Pow2, ShiftsFor;
    BetweenSizes(block, p, quad, f, done, kept, n);
    var b := block[..n];
    forall c | 0 <= c < 256 && kept[c] && First(b, c) < Last(b, c)
      ensures DocumentedFor(b, quad, c) <==> Pow2(ShiftsFor(Last(b, c) - First(b, c))) % Repeats(b) == 0
    {
      KeptFinished(block, p, quad, f, done, kept, n, c);
      BucketMeaning(b, p, quad, c);
    }
    forall c | 0 <= c < 256 && !(kept[c] && First(b, c) < Last(b, c)) ensures DocumentedFor(b, quad, c) {
      NothingCached(b, p, quad, kept, c);
    }
    ByBucket(b, quad);
  }

  lemma BetweenSizes(block: seq<byte>, p: seq<int>, quad: seq<int>, f: seq<int>, done: seq<bool>, kept: seq<bool>, n: nat)
    requires Between(block, p, quad, f, done, kept, n)
    ensures n <= |block| && n <= |quad| && |kept| == 256 && Bucketed(block[..n], p) && Caches(block[..n], p, quad, kept)
  {
  }

  /** An empty big bucket, or one without cached values. */
  lemma NothingCached(b: seq<byte>, p: seq<int>, quad: seq<int>, kept: seq<bool>, c: int)
    requires Bucketed(b, p) && Caches(b, p, quad, kept) && 0 <= c < 256 && !(kept[c] && First(b, c) < Last(b, c))
    ensures DocumentedFor(b, quad, c)
  {
    hide Start, Bucketed, CacheOf, Cmp;
    BucketedRange(b, p);
    forall i, j | 0 <= i < |b| && 0 <= j < |b| && b[i] == c && b[j] == c && quad[i] < quad[j] ensures false {
      var x := SlotHolding(b, p, i);
      InBigBucket(b, p, c, x);
    }
  }

  lemma ByBucket(b: seq<byte>, quad: seq<int>)
    requires |b| <= |quad|
    ensures Documented(b, quad) <==> forall c :: 0 <= c < 256 ==> DocumentedFor(b, quad, c)
  {
    hide Cmp;
    if forall c :: 0 <= c < 256 ==> DocumentedFor(b, quad, c) {
      forall i, j | 0 <= i < |b| && 0 <= j < |b| && b[i] == b[j] && quad[i] < quad[j] ensures Cmp(b, i, j, |b|) < 0 {
        var c: int := b[i];
        assert DocumentedFor(b, quad, c);
      }
    }
  }

  // ---------- A block for which the promise fails ----------

  const LENGTH := 10002
  const THIRD := 3334

  /** abcabc... */
  function Threes(): (b: seq<byte>)
    ensures |b| == LENGTH
  {
    seq(LENGTH, i requires 0 <= i < LENGTH => 97 + i % 3)
  }

  /** The block with its overshoot. */
  function WrappedThrees(): (block: seq<byte>)
    ensures |block| == LENGTH + OVERSHOOT && block[..LENGTH] == Threes()
  {
    seq(LENGTH + OVERSHOOT, i requires 0 <= i < LENGTH + OVERSHOOT => 97 + i % 3)
  }

  /** A sorted order of its rotations. */
  function SlotsOfThrees(): (p: seq<int>)
    ensures |p| == LENGTH
  {
    seq(LENGTH, x requires 0 <= x < LENGTH =>
      if x < THIRD then 3 * x else if x < 2 * THIRD then 3 * (x - THIRD) + 1 else 3 * (x - 2 * THIRD) + 2)
  }

  /** The quadrant array when the big bucket of a is cached and the others are not. */
  function QuadsOfThrees(): (quad: seq<int>)
    ensures |quad| == LENGTH + OVERSHOOT
  {
    seq(LENGTH + OVERSHOOT, r requires 0 <= r < LENGTH + OVERSHOOT =>
      if r % 3 != 0 then 0 else if r < LENGTH then r / 3 else (r - LENGTH) / 3)
  }

  /** The two-byte key of a rotation that starts with a, b or c. */
  function KeyOf(g: int): int {
    if g == 0 then 97 * 256 + 98 else if g == 1 then 98 * 256 + 99 else 99 * 256 + 97
  }

  lemma ThreesAt(i: int, t: nat)
    requires 0 <= i < LENGTH
    ensures Threes()[Adv(LENGTH, i, t)] == 97 + (i + t) % 3
  {
  }

  lemma ThreesKeys(i: int)
    requires 0 <= i < LENGTH
    ensures TwoBytes(Threes(), i) == KeyOf(i % 3) == Keys(Threes())[i]
  {
    hide Adv;
    ThreesAt(i, 1);
    assert Threes()[i] == 97 + i % 3;
  }

  /** How many of the first k rotations have a key below v. */
  ghost function KeysBelow(k: nat, v: int): int {
    (if KeyOf(0) < v then (k + 2) / 3 else 0) + (if KeyOf(1) < v then (k + 1) / 3 else 0) + (if KeyOf(2) < v then k / 3 else 0)
  }

  lemma KeysBelowNext(k: nat, v: int)
    ensures KeysBelow(k + 1, v) == KeysBelow(k, v) + if KeyOf(k % 3) < v then 1 else 0
  {
    hide KeyOf;
  }

  lemma {:induction false} ThreesCount(k: nat, v: int)
    requires k <= LENGTH
    ensures Counting.CountLess(Keys(Threes())[..k], v) == KeysBelow(k, v)
  {
    hide TwoBytes, Threes, KeysBelow, KeyOf;
    var c := Keys(Threes());
    if k > 0 {
      ThreesCount(k - 1, v);
      ThreesKeys(k - 1);
      KeysBelowNext(k - 1, v);
      assert c[..k][..k - 1] == c[..k - 1] && c[..k][k - 1] == c[k - 1];
    } else {
      NoKeysBelow(v);
    }
  }

  lemma NoKeysBelow(v: int)
    ensures KeysBelow(0, v) == 0
  {
  }

  lemma ThreesStart(v: int)
    ensures Start(Threes(), v)
         == (if KeyOf(0) < v then THIRD else 0) + (if KeyOf(1) < v then THIRD else 0) + (if KeyOf(2) < v then THIRD else 0)
  {
    hide TwoBytes, Threes, Counting.CountLess, KeyOf;
    ThreesCount(LENGTH, v);
    var c := Keys(Threes());
    assert c[..LENGTH] == c;
  }

  lemma ThreesBucketed()
    ensures Bucketed(Threes(), SlotsOfThrees()) && OfBlock(Threes(), SlotsOfThrees())
  {
    hide Start, TwoBytes, Threes;
    var b, p := Threes(), SlotsOfThrees();
    forall x | 0 <= x < LENGTH ensures Start(b, TwoBytes(b, p[x])) <= x < Start(b, TwoBytes(b, p[x]) + 1) {
      ThreesKeys(p[x]);
      ThreesStart(KeyOf(p[x] % 3));
      ThreesStart(KeyOf(p[x] % 3) + 1);
    }
  }

  /** Rotations three apart are equal. */
  lemma ThreesEqual(i: int, j: int)
    requires 0 <= i < LENGTH && 0 <= j < LENGTH && i % 3 == j % 3
    ensures Cmp(Threes(), i, j, LENGTH) == 0 && Rank(Threes(), i) == Rank(Threes(), j)
  {
    hide Rank, Adv, Threes, Lex, Text;
    var b := Threes();
    forall t | 0 <= t < LENGTH ensures Text(b, i, LENGTH)[t] == Text(b, j, LENGTH)[t] {
      TextAt(b, i, LENGTH, t);
      TextAt(b, j, LENGTH, t);
      ThreesAt(i, t);
      ThreesAt(j, t);
    }
    assert Text(b, i, LENGTH) == Text(b, j, LENGTH);
    LexFlip(Text(b, i, LENGTH), Text(b, j, LENGTH));
    SameRank(b, i, j);
  }

  lemma ThreesRow()
    ensures First(Threes(), 97) == 0 && Last(Threes(), 97) == THIRD && ShiftsFor(THIRD) == 0 && Pow2(0) == 1
  {
    hide Start, ShiftsFor, Threes, Pow2;
    ThreesStart(Bucket(97, 0));
    ThreesStart(Bucket(97, 0) + 256);
    NoShift(THIRD);
    Pow2Next(0);
  }

  lemma ThreesFinished()
    ensures Finished(Threes(), SlotsOfThrees(), QuadsOfThrees(), 97)
  {
    hide Start, ShiftsFor, Threes, Pow2, Bucketed, Rank;
    var b, p, q := Threes(), SlotsOfThrees(), QuadsOfThrees();
    ThreesBucketed();
    ThreesRow();
    forall x, y | 0 <= x < y < THIRD ensures Rank(b, p[x]) <= Rank(b, p[y]) {
      ThreesEqual(p[x], p[y]);
    }
    forall x | 0 <= x < THIRD ensures q[p[x]] == (x - 0) / 1 {
    }
  }

  lemma ThreesComparable()
    ensures Comparable(WrappedThrees(), QuadsOfThrees(), LENGTH)
  {
    hide Rank;
    var b, q := Threes(), QuadsOfThrees();
    forall i, j | 0 <= i < LENGTH && 0 <= j < LENGTH && b[i] == b[j] && q[i] < q[j] ensures Rank(b, i) <= Rank(b, j) {
      ThreesEqual(i, j);
    }
  }

  /** The big buckets of b and c are still to be sorted: those that are empty come first. */
  function DoneOfThrees(): (done: seq<bool>)
    ensures |done| == 256
  {
    seq(256, c => c != 98 && c != 99)
  }

  /** ftab, with all small buckets marked but those of b and c alone. */
  ghost function MarksOfThrees(): (f: seq<int>)
    ensures |f| == 65537
  {
    seq(65537, sb requires 0 <= sb <= 65536 =>
      Start(Threes(), sb) + if 98 <= sb / 256 <= 99 && 98 <= sb % 256 <= 99 then 0 else SETMASK)
  }

  lemma ThreesTables()
    ensures Tables(Threes(), MarksOfThrees()) && DoneMarked(MarksOfThrees(), DoneOfThrees())
  {
    hide Start, Threes;
  }

  /** The small buckets hold equal rotations. */
  lemma ThreesMarks()
    ensures Marks(Threes(), SlotsOfThrees(), MarksOfThrees())
  {
    hide Start, Rank, TwoBytes, Threes, Bucketed, SlotsOfThrees, MarksOfThrees, Marked;
    var b, p, f := Threes(), SlotsOfThrees(), MarksOfThrees();
    ThreesBucketed();
    forall sb | 0 <= sb < 65536 ensures SortedIn(b, p, Start(b, sb), Start(b, sb + 1)) {
      forall x, y | Start(b, sb) <= x < y < Start(b, sb + 1) ensures Rank(b, p[x]) <= Rank(b, p[y]) {
        BucketOf(b, p, sb, x);
        BucketOf(b, p, sb, y);
        ThreesKeys(p[x]);
        ThreesKeys(p[y]);
        ThreesEqual(p[x], p[y]);
      }
    }
  }

  lemma ThreesBetween()
    ensures Between(WrappedThrees(), SlotsOfThrees(), QuadsOfThrees(), MarksOfThrees(), DoneOfThrees(), DoneOfThrees(), LENGTH)
  {
    hide Start, Rank, Bucketed, Comparable, Tables, Marks, DoneMarked, CacheOf;
    ThreesBucketed();
    ThreesFinished();
    ThreesComparable();
    ThreesTables();
    ThreesMarks();
    forall c | 0 <= c < 256 && DoneOfThrees()[c] ensures CacheOf(Threes(), SlotsOfThrees(), QuadsOfThrees(), c) {
      if c != 97 {
        EmptyCached(c);
      }
    }
  }

  lemma EmptyCached(c: int)
    requires 0 <= c < 256 && !(97 <= c <= 99)
    ensures OfBlock(Threes(), SlotsOfThrees()) && CacheOf(Threes(), SlotsOfThrees(), QuadsOfThrees(), c)
  {
    hide Start, Bucketed, Threes;
    ThreesBucketed();
    ThreesStart(Bucket(c, 0));
    ThreesStart(Bucket(c, 0) + 256);
  }

  /** The third pair of compared values is the first that differs. */
  lemma ThreesCompared()
    ensures FirstGreater(QuadsOfThrees(), LENGTH, 4, 1)
  {
    var q := QuadsOfThrees();
    assert Compared(q, LENGTH, 4, 0) == 0 == Compared(q, LENGTH, 1, 0);
    assert Compared(q, LENGTH, 4, 1) == 0 == Compared(q, LENGTH, 1, 1);
    assert Compared(q, LENGTH, 4, 2) == 6 && Compared(q, LENGTH, 1, 2) == 5;
    assert SameQuads(q, LENGTH, 4, 1, 2);
  }

  lemma ThreesUnmarked()
    ensures TwoBytes(Threes(), 4) == TwoBytes(Threes(), 1) && !Marked(MarksOfThrees()[TwoBytes(Threes(), 1)])
  {
    hide Start, Threes, TwoBytes;
    ThreesKeys(4);
    ThreesKeys(1);
  }

  /** Before the big bucket of b is sorted, with that of a finished and cached: rotations 0 and 3 are
      equal and yet have the values 0 and 1.  Rotations 4 and 1 are equal too, in a small bucket that is still
      to be sorted; asked about them, mainGtU finds the value 6 of position 18 before the value 5 of
      position 15, and says that rotation 4 is greater. */
  lemma EqualRotationsOrdered()
    ensures Between(WrappedThrees(), SlotsOfThrees(), QuadsOfThrees(), MarksOfThrees(), DoneOfThrees(), DoneOfThrees(), LENGTH)
    ensures WrappedThrees()[..LENGTH] == Threes() && !Documented(Threes(), QuadsOfThrees())
    ensures Cmp(Threes(), 0, 3, LENGTH) == 0 && QuadsOfThrees()[0] == 0 && QuadsOfThrees()[3] == 1
    ensures TwoBytes(Threes(), 4) == TwoBytes(Threes(), 1) && !Marked(MarksOfThrees()[TwoBytes(Threes(), 1)])
    ensures Rank(Threes(), 4) == Rank(Threes(), 1) && FirstGreater(QuadsOfThrees(), LENGTH, 4, 1)
  {
    hide Between, Rank, Cmp, TwoBytes, FirstGreater, Marked, MarksOfThrees, DoneOfThrees;
    ThreesBetween();
    ThreesEqual(0, 3);
    ThreesEqual(4, 1);
    ThreesUnmarked();
    ThreesCompared();
    assert Threes()[0] == Threes()[3];
  }
}
