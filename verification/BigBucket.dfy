/** One big bucket of mainSort: quicksort of its small buckets, then the pointer scan
    (dep/bzip2/blocksort.c:836-930). */
module BigBucket {
  import opened Rotations
  import opened RotationRank
  import opened MainCompare
  import opened MainSimpleSort
  import opened RadixSort
  import opened PointerScan
  import opened BucketScan
  import opened Segments
  import MainQSort

  // ---------- Flags in ftab ----------

  const SETMASK := 0x20_0000

  /** x & CLEARMASK, x & SETMASK, x | SETMASK for values below 2^22. */
  function Clear(x: int): int { x % SETMASK }
  predicate Marked(x: int) { x / SETMASK % 2 == 1 }
  function Mark(x: int): int { if Marked(x) then x else x + SETMASK }

  lemma MarkFacts(x: int)
    requires 0 <= x < 2 * SETMASK
    ensures 0 <= Mark(x) < 2 * SETMASK && Marked(Mark(x)) && Clear(Mark(x)) == Clear(x)
    ensures Marked(x) ==> Mark(x) == x
  {
  }

  ghost predicate Tables(b: seq<byte>, f: seq<int>) {
    && |f| == 65537
    && forall sb :: 0 <= sb <= 65536 ==> 0 <= f[sb] < 2 * SETMASK && Clear(f[sb]) == Start(b, sb)
  }

  /** Marked small buckets are sorted. */
  ghost predicate Marks(b: seq<byte>, p: seq<int>, f: seq<int>) {
    && |p| == |b| && OfBlock(b, p) && |f| == 65537
    && forall sb :: 0 <= sb < 65536 && Marked(f[sb]) ==> SortedIn(b, p, Start(b, sb), Start(b, sb + 1))
  }

  /** With a finished big bucket c, all buckets [c, _] and [_, c] are marked. */
  ghost predicate DoneMarked(f: seq<int>, done: seq<bool>) {
    && |f| == 65537 && |done| == 256
    && forall c0, c1 :: 0 <= c0 < 256 && 0 <= c1 < 256 && (done[c0] || done[c1]) ==> Marked(f[Bucket(c0, c1)])
  }

  /** The slots of big bucket c hold the same rotations in p and q. */
  ghost predicate RowKept(b: seq<byte>, p: seq<int>, q: seq<int>, c: int) {
    && |p| == |q| == |b|
    && forall x :: Start(b, Bucket(c, 0)) <= x < Start(b, Bucket(c, 0) + 256) && x < |b| ==> q[x] == p[x]
  }

  /** All big buckets but ss. */
  ghost predicate OthersKept(b: seq<byte>, p: seq<int>, q: seq<int>, ss: int) {
    |p| == |q| == |b| && forall c :: 0 <= c < 256 && c != ss ==> RowKept(b, p, q, c)
  }

  // ---------- Step 1: the small buckets of ss ----------

  lemma BucketOthers(b: seq<byte>, p: seq<int>, q: seq<int>, r: seq<int>, ss: int, j: int)
    requires OthersKept(b, p, q, ss) && |r| == |b| && 0 <= ss < 256 && 0 <= j < 256
    requires forall x :: 0 <= x < |b| && !(Start(b, Bucket(ss, j)) <= x < Start(b, Bucket(ss, j) + 1)) ==> r[x] == q[x]
    ensures OthersKept(b, p, r, ss)
  {
    hide Start;
    forall c | 0 <= c < 256 && c != ss ensures RowKept(b, p, r, c) {
      if c < ss {
        StartOrder(b, Bucket(c, 0) + 256, Bucket(ss, j));
      } else {
        StartOrder(b, Bucket(ss, j) + 1, Bucket(c, 0));
      }
      assert RowKept(b, p, q, c);
    }
  }

  /** The rotations of a small bucket agree on two characters. */
  lemma BucketAlike(b: seq<byte>, f: seq<int>, sb: int, lo: int, hi: int)
    requires |b| <= |f| && Bucketed(b, f[..|b|]) && 0 <= sb < 65536
    requires lo == Start(b, sb) && hi == Start(b, sb + 1) - 1
    ensures Alike(b, f, lo, hi, 2)
  {
    hide Start, TwoBytes, Bucketed, Cmp;
    var p := f[..|b|];
    BucketedRange(b, p);
    forall x | lo <= x <= hi ensures 0 <= f[x] < |b| && TwoBytes(b, f[x]) == sb {
      assert p[x] == f[x];
      BucketOf(b, p, sb, x);
    }
    forall x, y | lo <= x <= hi && lo <= y <= hi ensures Same(b, f[x], f[y], 2) {
      TwoSame(b, f[x], f[y]);
    }
  }

  lemma TwoSame(b: seq<byte>, i: int, j: int)
    requires 0 <= i < |b| && 0 <= j < |b| && TwoBytes(b, i) == TwoBytes(b, j)
    ensures Same(b, i, j, 2)
  {
    hide Cmp;
    CmpOne(b, i, j);
    CmpMore(b, i, j, 1);
  }

  /** Rearranging a small bucket leaves everything in its bucket. */
  lemma RearrangedBucketed(b: seq<byte>, f: seq<int>, g: seq<int>, sb: int, lo: int, hi: int)
    requires |b| <= |f| && Bucketed(b, f[..|b|]) && 0 <= sb < 65536
    requires lo == Start(b, sb) && hi == Start(b, sb + 1) - 1 && Rearranged(f, g, lo, hi + 1)
    ensures |g| == |f| && Bucketed(b, g[..|b|])
    ensures forall x :: 0 <= x < |b| && !(lo <= x <= hi) ==> g[..|b|][x] == f[..|b|][x]
  {
    hide Start, TwoBytes, Bucketed, Rearranged;
    RearrangedSize(f, g, lo, hi + 1);
    var p, q := f[..|b|], g[..|b|];
    BucketedRange(b, p);
    forall x | 0 <= x < |b| && !(lo <= x <= hi) ensures q[x] == p[x] {
      RearrangedOutside(f, g, lo, hi + 1, x);
    }
    forall x | 0 <= x < |b| ensures 0 <= q[x] < |b| && TwoBytes(b, q[x]) == TwoBytes(b, p[x]) {
      if lo <= x <= hi {
        var x' := RearrangedMember(f, g, lo, hi + 1, x);
        assert p[x'] == q[x];
        BucketOf(b, p, sb, x');
        BucketOf(b, p, sb, x);
      }
    }
    RearrangedDistinctPart(b, f, g, lo, hi);
    StillBucketed(b, p, q);
  }

  lemma RearrangedDistinctPart(b: seq<byte>, f: seq<int>, g: seq<int>, lo: int, hi: int)
    requires |b| <= |f| == |g| && Rearranged(f, g, lo, hi + 1) && hi < |b| && lo <= hi + 1
    requires forall x, y :: 0 <= x < y < |b| ==> f[..|b|][x] != f[..|b|][y]
    ensures forall x, y :: 0 <= x < y < |b| ==> g[..|b|][x] != g[..|b|][y]
  {
    var p, q := f[..|b|], g[..|b|];
    assert Rearranged(p, q, lo, hi + 1) by {
      assert p[..lo] == f[..lo] && q[..lo] == g[..lo];
      assert p[hi + 1..] == f[hi + 1..][..|b| - hi - 1] && q[hi + 1..] == g[hi + 1..][..|b| - hi - 1];
      assert p[lo..hi + 1] == f[lo..hi + 1] && q[lo..hi + 1] == g[lo..hi + 1];
    }
    RearrangedDistinct(p, q, lo, hi + 1);
  }

  /** Other buckets' slots are untouched, so their marks stand. */
  lemma MarksKept(b: seq<byte>, p: seq<int>, q: seq<int>, f: seq<int>, sb: int)
    requires Marks(b, p, f) && Bucketed(b, q) && 0 <= sb < 65536 && OfBlock(b, q) && |q| == |b|
    requires forall x :: 0 <= x < |b| && !(Start(b, sb) <= x < Start(b, sb + 1)) ==> q[x] == p[x]
    requires SortedIn(b, q, Start(b, sb), Start(b, sb + 1))
    ensures Marks(b, q, f)
  {
    hide Start, Rank, Bucketed;
    forall s | 0 <= s < 65536 && Marked(f[s]) ensures SortedIn(b, q, Start(b, s), Start(b, s + 1)) {
      if s < sb {
        StartOrder(b, s + 1, sb);
      } else if s > sb {
        StartOrder(b, sb + 1, s);
      }
      StartOrder(b, s, s + 1);
      assert SortedIn(b, p, Start(b, s), Start(b, s + 1));
    }
  }

  lemma RanksSorted(b: seq<byte>, f: seq<int>, lo: int, hi: int)
    requires 0 <= lo && hi < |b| <= |f| && Entries(f, Ranks(b), lo, hi) && OfBlock(b, f[..|b|])
    requires forall x, y :: lo <= x < y <= hi ==> InOrder(f, Ranks(b), x, y)
    ensures SortedIn(b, f[..|b|], lo, hi + 1)
  {
    hide Rank;
    var p := f[..|b|];
    forall x, y | lo <= x < y < hi + 1 ensures Rank(b, p[x]) <= Rank(b, p[y]) {
      assert InOrder(f, Ranks(b), x, y);
    }
  }

  lemma BucketedWithin(b: seq<byte>, p: seq<int>)
    requires Bucketed(b, p)
    ensures |p| == |b| && OfBlock(b, p)
  {
  }

  /** One small bucket is sorted, unless the budget runs out. */
  method SortBucket(ptr: array<int>, block: array<byte>, quadrant: array<int>, nblock: nat, lo: int, hi: int, budget: int,
                    ghost sb: int, ghost f: seq<int>)
    returns (budget': int)
    requires ptr != quadrant && ptr as object != block as object && nblock <= block.Length && nblock <= ptr.Length
    requires Comparable(block[..], quadrant[..], nblock) && nblock <= 900000
    requires Bucketed(block[..nblock], ptr[..nblock]) && Marks(block[..nblock], ptr[..nblock], f) && 0 <= sb < 65536
    requires lo == Start(block[..nblock], sb) && hi == Start(block[..nblock], sb + 1) - 1 && lo < hi
    modifies ptr
    ensures Bucketed(block[..nblock], ptr[..nblock])
    ensures 0 <= budget - budget' <= MostCost(nblock, hi - lo + 1)
    ensures forall x :: 0 <= x < nblock && !(lo <= x <= hi) ==> ptr[..nblock][x] == old(ptr[..nblock])[x]
    ensures budget' >= 0 ==> Marks(block[..nblock], ptr[..nblock], f)
    ensures budget' >= 0 ==> OfBlock(block[..nblock], ptr[..nblock]) && SortedIn(block[..nblock], ptr[..nblock], lo, hi + 1)
  {
    hide Comparable, Start, Bucketed, Marks, Alike, Rearranged, InOrder, Ranks, SortedIn, OfBlock;
    ghost var b, f0 := block[..nblock], ptr[..];
    assert f0[..nblock] == ptr[..nblock];
    BucketAlike(b, f0, sb, lo, hi);
    budget' := MainQSort.QSort3(ptr, block, quadrant, nblock, lo, hi, 2, budget);
    ghost var g := ptr[..];
    assert g[..nblock] == ptr[..nblock];
    RearrangedBucketed(b, f0, g, sb, lo, hi);
    BucketedWithin(b, g[..nblock]);
    if budget' >= 0 {
      RanksSorted(b, g, lo, hi);
      MarksKept(b, f0[..nblock], g[..nblock], f, sb);
    }
  }

  lemma MarkOne(b: seq<byte>, p: seq<int>, f: seq<int>, sb: int)
    requires Tables(b, f) && Marks(b, p, f) && 0 <= sb < 65536
    requires |p| == |b| && OfBlock(b, p) && SortedIn(b, p, Start(b, sb), Start(b, sb + 1))
    ensures |f| == 65537
    ensures var f' := f[sb := Mark(f[sb])];
      Tables(b, f') && Marks(b, p, f') && Marked(f'[sb]) && forall s :: 0 <= s <= 65536 && Marked(f[s]) ==> Marked(f'[s])
  {
    hide Start, SortedIn, OfBlock, Marked, Mark, Clear;
    MarkFacts(f[sb]);
    var f' := f[sb := Mark(f[sb])];
    forall s | 0 <= s < 65536 && Marked(f'[s]) ensures SortedIn(b, p, Start(b, s), Start(b, s + 1)) {
    }
  }

  lemma TooSmall(b: seq<byte>, p: seq<int>, lo: int, hi: int)
    requires |p| == |b| && OfBlock(b, p) && hi <= lo + 1
    ensures SortedIn(b, p, lo, hi)
  {
  }

  lemma MarkedSorted(b: seq<byte>, p: seq<int>, f: seq<int>, sb: int)
    requires Marks(b, p, f) && 0 <= sb < 65536
    ensures |p| == |b| && OfBlock(b, p) && |f| == 65537
    ensures Marked(f[sb]) ==> SortedIn(b, p, Start(b, sb), Start(b, sb + 1))
  {
  }

  lemma TablesAt(b: seq<byte>, f: seq<int>, sb: int)
    requires Tables(b, f) && 0 <= sb <= 65536
    ensures |f| == 65537 && Clear(f[sb]) == Start(b, sb)
  {
  }

  /** The buckets [ss, j] for j below `upto`, j other than ss, are marked. */
  ghost predicate RowMarked(f: seq<int>, ss: int, upto: int) {
    |f| == 65537 && 0 <= ss < 256 && forall j :: 0 <= j < upto && j < 256 && j != ss ==> Marked(f[Bucket(ss, j)])
  }

  ghost predicate MarksGrow(f: seq<int>, g: seq<int>) {
    |f| == |g| == 65537 && forall s :: 0 <= s <= 65536 && Marked(f[s]) ==> Marked(g[s])
  }

  /** Step 1: every small bucket [ss, j], j other than ss, is sorted and marked. */
  method SortRow(ptr: array<int>, block: array<byte>, quadrant: array<int>, ftab: array<int>, nblock: nat, ss: int, budget: int)
    returns (budget': int)
    requires ptr != quadrant && ptr != ftab && quadrant != ftab
    requires ptr as object != block as object && ftab as object != block as object
    requires nblock <= block.Length && nblock <= ptr.Length && nblock <= 900000 && 0 <= ss < 256 && 0 <= budget
    requires Comparable(block[..], quadrant[..], nblock) && Bucketed(block[..nblock], ptr[..nblock])
    requires Tables(block[..nblock], ftab[..]) && Marks(block[..nblock], ptr[..nblock], ftab[..])
    modifies ptr, ftab
    ensures budget' <= budget && Bucketed(block[..nblock], ptr[..nblock])
    ensures budget' >= 0 ==> Tables(block[..nblock], ftab[..]) && Marks(block[..nblock], ptr[..nblock], ftab[..])
    ensures budget' >= 0 ==> RowMarked(ftab[..], ss, 256) && MarksGrow(old(ftab[..]), ftab[..])
    ensures budget' >= 0 ==> OthersKept(block[..nblock], old(ptr[..nblock]), ptr[..nblock], ss)
    ensures forall c :: Uniform(block[..nblock], c) ==> ptr[..nblock] == old(ptr[..nblock]) && budget' == budget
  {
    hide Comparable, Start, Bucketed, Marks, Tables, SortedIn, OfBlock, Marked, Mark, Clear, OthersKept, Uniform;
    ComparableSize(block[..], quadrant[..], nblock);
    ghost var b, p0, f0 := block[..nblock], ptr[..nblock], ftab[..];
    budget' := budget;
    NothingMoved(b, p0, ss);
    TablesAt(b, f0, 0);
    var j := 0;
    while j <= 255
      invariant 0 <= j <= 256 && 0 <= budget' <= budget
      invariant Bucketed(b, ptr[..nblock]) && Tables(b, ftab[..]) && Marks(b, ptr[..nblock], ftab[..])
      invariant RowMarked(ftab[..], ss, j) && MarksGrow(f0, ftab[..]) && OthersKept(b, p0, ptr[..nblock], ss)
      invariant forall c :: Uniform(b, c) ==> ptr[..nblock] == p0 && budget' == budget
    {
      if j != ss {
        ghost var q := ptr[..nblock];
        var sb := ss * 256 + j;
        ghost var f := ftab[..];
        TablesAt(b, f, sb);
        TablesAt(b, f, sb + 1);
        MarkedSorted(b, ptr[..nblock], f, sb);
        if !Marked(ftab[sb]) {
          var lo := Clear(ftab[sb]);
          var hi := Clear(ftab[sb + 1]) - 1;
          forall c | Uniform(b, c) ensures hi <= lo {
            UniformEmpty(b, c, ss, j);
          }
          if hi > lo {
            budget' := SortBucket(ptr, block, quadrant, nblock, lo, hi, budget', sb, f);
            if budget' < 0 {
              return;
            }
            BucketOthers(b, p0, q, ptr[..nblock], ss, j);
          } else {
            TooSmall(b, ptr[..nblock], lo, hi + 1);
          }
        }
        BucketedWithin(b, ptr[..nblock]);
        MarkOne(b, ptr[..nblock], f, sb);
        ftab[sb] := Mark(ftab[sb]);
        assert ftab[..] == f[sb := Mark(f[sb])];
      }
      j := j + 1;
    }
  }

  lemma NothingMoved(b: seq<byte>, p: seq<int>, ss: int)
    requires |p| == |b|
    ensures OthersKept(b, p, p, ss)
  {
  }

  /** In a block of one repeated byte c only the small bucket [c, c] has slots. */
  lemma UniformEmpty(b: seq<byte>, c: int, t: int, ss: int)
    requires Uniform(b, c) && 0 < |b| && 0 <= t < 256 && 0 <= ss < 256 && !(t == ss == c)
    ensures Start(b, Bucket(t, ss) + 1) <= Start(b, Bucket(t, ss))
  {
    hide Start;
    assert b[0] == c;
    UniformStart(b, c);
    if Bucket(t, ss) < Bucket(c, c) {
      StartOrder(b, Bucket(t, ss) + 1, Bucket(c, c));
    } else {
      StartOrder(b, Bucket(c, c) + 1, Bucket(t, ss));
    }
  }

  // ---------- Step 2: the scan ----------

  lemma SlotRange(b: seq<byte>, p: seq<int>, u: int, v: int, x: int)
    requires Bucketed(b, p) && 0 <= x < |b| && u <= v && 0 <= p[x] < |b|
    ensures Start(b, u) <= x < Start(b, v) <==> u <= TwoBytes(b, p[x]) < v
  {
    hide TwoBytes;
    var k := TwoBytes(b, p[x]);
    if k < u {
      StartOrder(b, k + 1, u);
    } else if v <= k {
      StartOrder(b, v, k);
    } else {
      StartOrder(b, u, k);
      StartOrder(b, k + 1, v);
    }
  }

  lemma FirstByte(b: seq<byte>, r: int, ss: int, u: int, v: int)
    requires 0 <= r < |b| && 0 <= ss < 256 && 0 <= u <= v <= 256
    ensures Bucket(ss, u) <= TwoBytes(b, r) < Bucket(ss, 0) + v <==> b[r] == ss && u <= b[Adv(|b|, r, 1)] < v
  {
  }

  /** Two neighbouring stretches of a big bucket, sorted bucket by bucket, are sorted. */
  lemma RowSorted(b: seq<byte>, p: seq<int>, f: seq<int>, ss: int, u: int, v: int, x: int, y: int)
    requires Bucketed(b, p) && Marks(b, p, f) && 0 <= ss < 256 && 0 <= u <= v <= 256
    requires |f| == 65537 && forall j :: u <= j < v ==> Marked(f[Bucket(ss, j)])
    requires Start(b, Bucket(ss, u)) <= x < y < Start(b, Bucket(ss, 0) + v) <= |b|
    ensures |p| == |b| && OfBlock(b, p) && Rank(b, p[x]) <= Rank(b, p[y])
  {
    hide Start, Rank, Marked, Adv, TwoBytes;
    BucketedWithin(b, p);
    SlotRange(b, p, Bucket(ss, u), Bucket(ss, 0) + v, x);
    SlotRange(b, p, Bucket(ss, u), Bucket(ss, 0) + v, y);
    FirstByte(b, p[x], ss, u, v);
    FirstByte(b, p[y], ss, u, v);
    var kx, ky := TwoBytes(b, p[x]), TwoBytes(b, p[y]);
    BucketOf(b, p, kx, x);
    BucketOf(b, p, ky, y);
    if kx == ky {
      assert Bucket(ss, kx - 256 * ss) == kx;
      assert SortedIn(b, p, Start(b, kx), Start(b, kx + 1));
    } else {
      if ky < kx {
        StartOrder(b, ky + 1, kx);
      }
      SecondBytes(b, p[x], p[y], ss);
      SecondDecides(b, p[x], p[y]);
    }
  }

  lemma SecondBytes(b: seq<byte>, i: int, j: int, ss: int)
    requires 0 <= i < |b| && 0 <= j < |b| && b[i] == ss && b[j] == ss && TwoBytes(b, i) < TwoBytes(b, j)
    ensures b[Adv(|b|, i, 1)] < b[Adv(|b|, j, 1)]
  {
  }

  /** The slots u.. up to v-1 of a permutation, first to last or last to first. */
  ghost function Slots(p: seq<int>, u: int, v: int, forward: bool): (s: seq<int>)
    requires 0 <= u <= v <= |p|
    ensures |s| == v - u
    ensures forall i :: 0 <= i < v - u ==> s[i] == if forward then p[u + i] else p[v - 1 - i]
  {
    seq(v - u, i requires 0 <= i < v - u => if forward then p[u + i] else p[v - 1 - i])
  }

  /** The stretch u..v-1 of the big bucket that holds second bytes c0..c1-1, one side of ss. */
  ghost predicate Stretch(b: seq<byte>, ss: int, low: bool, c0: int, c1: int, u: int, v: int) {
    && 0 <= ss < 256 && c0 == (if low then 0 else ss + 1) && c1 == (if low then ss else 256)
    && u == Start(b, Bucket(ss, c0)) && v == Start(b, Bucket(ss, 0) + c1) && 0 <= u <= v <= |b|
  }

  lemma StretchSlot(b: seq<byte>, p: seq<int>, ss: int, low: bool, c0: int, c1: int, u: int, v: int, x: int)
    requires Bucketed(b, p) && Stretch(b, ss, low, c0, c1, u, v) && 0 <= x < |b| && 0 <= p[x] < |b|
    ensures u <= x < v <==> Outer(b, ss, low, p[x])
  {
    hide Start, Adv, TwoBytes, Bucketed;
    BucketedRange(b, p);
    SlotRange(b, p, Bucket(ss, c0), Bucket(ss, 0) + c1, x);
    FirstByte(b, p[x], ss, c0, c1);
  }

  lemma StretchOrder(b: seq<byte>, p: seq<int>, f: seq<int>, ss: int, low: bool, c0: int, c1: int, u: int, v: int)
    requires Bucketed(b, p) && Marks(b, p, f) && RowMarked(f, ss, 256) && Stretch(b, ss, low, c0, c1, u, v)
    ensures |p| == |b| && OfBlock(b, p)
    ensures forall x, y :: u <= x < y < v ==> Rank(b, p[x]) <= Rank(b, p[y])
  {
    hide Start, Rank, Marked, Marks, Bucketed;
    BucketedWithin(b, p);
    forall x, y | u <= x < y < v ensures Rank(b, p[x]) <= Rank(b, p[y]) {
      RowSorted(b, p, f, ss, c0, c1, x, y);
    }
  }

  lemma StretchBase(b: seq<byte>, p: seq<int>, f: seq<int>, ss: int, low: bool, c0: int, c1: int, u: int, v: int)
    requires Bucketed(b, p) && Marks(b, p, f) && RowMarked(f, ss, 256) && Stretch(b, ss, low, c0, c1, u, v)
    ensures |p| == |b| && Base(b, ss, low, Slots(p, u, v, low))
  {
    hide Start, Rank, Marks, Bucketed, Outer, RowMarked;
    BucketedRange(b, p);
    var s := Slots(p, u, v, low);
    forall i | 0 <= i < |s| ensures 0 <= s[i] < |b| && Outer(b, ss, low, s[i]) {
      StretchSlot(b, p, ss, low, c0, c1, u, v, if low then u + i else v - 1 - i);
    }
    StretchOrder(b, p, f, ss, low, c0, c1, u, v);
    forall r | Outer(b, ss, low, r) ensures r in s {
      OuterRange(b, ss, low, r);
      var x := SlotHolding(b, p, r);
      StretchSlot(b, p, ss, low, c0, c1, u, v, x);
      assert s[if low then x - u else v - 1 - x] == r;
    }
  }

  lemma OuterRange(b: seq<byte>, ss: int, low: bool, r: int)
    requires Outer(b, ss, low, r)
    ensures 0 <= r < |b|
  {
  }

  /** One end of the big bucket is where a scan starts. */
  lemma BaseOf(b: seq<byte>, p: seq<int>, f: seq<int>, ss: int, low: bool)
    requires Bucketed(b, p) && Marks(b, p, f) && RowMarked(f, ss, 256)
    ensures |p| == |b|
    ensures var u, v := if low then Start(b, Bucket(ss, 0)) else Start(b, Bucket(ss, ss) + 1),
                        if low then Start(b, Bucket(ss, ss)) else Start(b, Bucket(ss, 0) + 256);
      0 <= u <= v <= |b| && Base(b, ss, low, Slots(p, u, v, low))
  {
    hide Start, Marks, Bucketed, Base;
    var c0, c1 := if low then 0 else ss + 1, if low then ss else 256;
    StartOrder(b, Bucket(ss, c0), Bucket(ss, 0) + c1);
    StretchBase(b, p, f, ss, low, c0, c1, Start(b, Bucket(ss, c0)), Start(b, Bucket(ss, 0) + c1));
  }

  lemma SlotHolding(b: seq<byte>, p: seq<int>, r: int) returns (x: int)
    requires Bucketed(b, p) && 0 <= r < |b|
    ensures 0 <= x < |b| && p[x] == r
  {
    x := PermOnto(p, |b|, r);
  }

  /** The scans before they start. */
  lemma ScanStart(b: seq<byte>, p: seq<int>, f: seq<int>, cs: seq<int>, ce: seq<int>, done: seq<bool>, ss: int)
    returns (z: Scan)
    requires Bucketed(b, p) && Marks(b, p, f) && RowMarked(f, ss, 256)
    requires |cs| == |ce| == |done| == 256 && !done[ss]
    requires forall t :: 0 <= t < 256 ==> cs[t] == Start(b, Bucket(t, ss)) && ce[t] == Start(b, Bucket(t, ss) + 1) - 1
    ensures z.ss == ss && z.done == done && z.jl == z.jr == 0
    ensures Scanning(b, p, p, cs, ce, z) && Laid(b, p, z)
  {
    hide Start, Rank, Marked, Adv, TwoBytes, Marks, Bucketed, Base, RowMarked, Queue;
    BaseOf(b, p, f, ss, true);
    BaseOf(b, p, f, ss, false);
    RowRange(f, ss);
    var l := Slots(p, Start(b, Bucket(ss, 0)), Start(b, Bucket(ss, ss)), true);
    var r := Slots(p, Start(b, Bucket(ss, ss) + 1), Start(b, Bucket(ss, 0) + 256), false);
    QueueStart(b, ss, true, l);
    QueueStart(b, ss, false, r);
    z := Scan(ss, done, l, l, 0, r, r, 0);
    ScansWithin(b, ss, l, l, 0, r, r, 0);
    forall t | Open(b, z, t) ensures BucketState(b, p, p, cs, ce, z, t) {
      StartOrder(b, Bucket(t, ss), Bucket(t, ss) + 1);
      assert l[..0] == [] && r[..0] == [];
    }
  }

  lemma RowRange(f: seq<int>, ss: int)
    requires RowMarked(f, ss, 256)
    ensures 0 <= ss < 256
  {
  }

  /** The arrays of the scan and where it stands. */
  ghost predicate ScanState(ptr: array<int>, copyStart: array<int>, copyEnd: array<int>, b: seq<byte>, p0: seq<int>, z: Scan)
    reads ptr, copyStart, copyEnd
  {
    && |b| <= ptr.Length && Scanning(b, p0, ptr[..|b|], copyStart[..], copyEnd[..], z) && Laid(b, p0, z) && Sound(b, z)
  }

  lemma ScanFacts(p: seq<int>, cs: seq<int>, ce: seq<int>, b: seq<byte>, p0: seq<int>, z: Scan)
    requires Scanning(b, p0, p, cs, ce, z) && Laid(b, p0, z) && Sound(b, z)
    ensures |p| == |b| && |cs| == |ce| == |z.done| == 256 && 0 <= z.ss < 256 && OfBlock(b, z.ql) && OfBlock(b, z.qr)
    ensures z.jl <= |z.ql| && z.jr <= |z.qr|
  {
    hide Start, Queue, Laid;
    NextSound(b, z);
  }

  /** What reading the left queue's next entry finds in the arrays. */
  lemma LeftEntry(p: seq<int>, cs: seq<int>, ce: seq<int>, b: seq<byte>, p0: seq<int>, z: Scan, j: int, first: int)
    requires Scanning(b, p0, p, cs, ce, z) && Laid(b, p0, z) && Sound(b, z)
    requires first == Start(b, Bucket(z.ss, 0)) && j == first + z.jl && |cs| == 256 && 0 <= z.ss < 256
    ensures |p| == |b| && cs[z.ss] <= |b| && (j < cs[z.ss] <==> z.jl < |z.ql|) && z.jl <= |z.ql| && OfBlock(b, z.ql)
    ensures j < cs[z.ss] ==> 0 <= j < |b| && p[j] == z.ql[z.jl]
  {
    hide Start, Queue, Laid, Scanning;
    LeftQueueAt(b, p0, p, cs, ce, z);
    NextSound(b, z);
  }

  lemma RightEntry(p: seq<int>, cs: seq<int>, ce: seq<int>, b: seq<byte>, p0: seq<int>, z: Scan, j: int, last: int)
    requires Scanning(b, p0, p, cs, ce, z) && Laid(b, p0, z) && Sound(b, z)
    requires last == Start(b, Bucket(z.ss, 0) + 256) && j == last - 1 - z.jr && |ce| == 256 && 0 <= z.ss < 256
    ensures |p| == |b| && -1 <= ce[z.ss] && (j > ce[z.ss] <==> z.jr < |z.qr|) && z.jr <= |z.qr| && OfBlock(b, z.qr)
    ensures j > ce[z.ss] ==> 0 <= j < |b| && p[j] == z.qr[z.jr]
  {
    hide Start, Queue, Laid, Scanning;
    RightQueueAt(b, p0, p, cs, ce, z);
    NextSound(b, z);
  }

  lemma LaidNext(b: seq<byte>, p0: seq<int>, z: Scan, z': Scan)
    requires Laid(b, p0, z) && z'.ss == z.ss && z'.baseL == z.baseL && z'.baseR == z.baseR
    ensures Laid(b, p0, z')
  {
  }

  lemma PredIs(b: seq<byte>, r: int)
    requires 0 <= r < |b|
    ensures Pred(b, r) == if r - 1 < 0 then r - 1 + |b| else r - 1
  {
  }

  /** One predecessor, found at slot j of the left end, goes to the front of its bucket. */
  method StepLeft(ptr: array<int>, block: array<byte>, bigDone: array<bool>, copyStart: array<int>, copyEnd: array<int>,
                  nblock: nat, j: int, ghost first: int, ghost b: seq<byte>, ghost p0: seq<int>, ghost z: Scan)
    returns (ghost z': Scan)
    requires ptr != copyStart && ptr != copyEnd && copyStart != copyEnd && ptr as object != block as object
      && copyStart as object != block as object
    requires ptr as object != bigDone as object && copyStart as object != bigDone as object
    requires |b| == nblock <= block.Length && block[..nblock] == b && bigDone[..] == z.done
    requires ScanState(ptr, copyStart, copyEnd, b, p0, z)
    requires first == Start(b, Bucket(z.ss, 0)) && j == first + z.jl && 0 <= z.ss < 256 && z.jl < |z.ql|
    modifies ptr, copyStart
    ensures ScanState(ptr, copyStart, copyEnd, b, p0, z') && z' == NextLeft(b, z)
    ensures ptr[nblock..] == old(ptr[nblock..])
  {
    hide Scanning, Start, Queue, Laid, Sound, Pred, NextLeft;
    ghost var p, cs, ce := ptr[..nblock], copyStart[..], copyEnd[..];
    ScanFacts(p, cs, ce, b, p0, z);
    LeftEntry(p, cs, ce, b, p0, z, j, first);
    PredIs(b, z.ql[z.jl]);
    assert ptr[j] == p[j];
    var k := ptr[j] - 1;
    if k < 0 {
      k := k + nblock;
    }
    var c1 := block[k];
    assert c1 == b[k];
    if !bigDone[c1] {
      LeftWrite(b, p0, p, cs, ce, z, k, c1);
      ptr[copyStart[c1]] := k;
      copyStart[c1] := copyStart[c1] + 1;
      assert ptr[..nblock] == p[cs[c1] := k];
      assert copyStart[..] == cs[c1 := cs[c1] + 1];
    } else {
      LeftSkip(b, p0, p, cs, ce, z, k);
    }
    z' := NextLeft(b, z);
    NextLeftShape(b, z);
    NextSound(b, z);
    LaidNext(b, p0, z, z');
  }

  /** One predecessor, found at slot j of the right end, goes to the back of its bucket. */
  method StepRight(ptr: array<int>, block: array<byte>, bigDone: array<bool>, copyStart: array<int>, copyEnd: array<int>,
                   nblock: nat, j: int, ghost last: int, ghost b: seq<byte>, ghost p0: seq<int>, ghost z: Scan)
    returns (ghost z': Scan)
    requires ptr != copyStart && ptr != copyEnd && copyStart != copyEnd && ptr as object != block as object
      && copyEnd as object != block as object
    requires ptr as object != bigDone as object && copyEnd as object != bigDone as object
    requires |b| == nblock <= block.Length && block[..nblock] == b && bigDone[..] == z.done
    requires ScanState(ptr, copyStart, copyEnd, b, p0, z)
    requires last == Start(b, Bucket(z.ss, 0) + 256) && j == last - 1 - z.jr && 0 <= z.ss < 256 && z.jr < |z.qr|
    modifies ptr, copyEnd
    ensures ScanState(ptr, copyStart, copyEnd, b, p0, z') && z' == NextRight(b, z)
    ensures ptr[nblock..] == old(ptr[nblock..])
  {
    hide Scanning, Start, Queue, Laid, Sound, Pred, NextRight;
    ghost var p, cs, ce := ptr[..nblock], copyStart[..], copyEnd[..];
    ScanFacts(p, cs, ce, b, p0, z);
    RightEntry(p, cs, ce, b, p0, z, j, last);
    PredIs(b, z.qr[z.jr]);
    assert ptr[j] == p[j];
    var k := ptr[j] - 1;
    if k < 0 {
      k := k + nblock;
    }
    var c1 := block[k];
    assert c1 == b[k];
    if !bigDone[c1] {
      RightWrite(b, p0, p, cs, ce, z, k, c1);
      ptr[copyEnd[c1]] := k;
      copyEnd[c1] := copyEnd[c1] - 1;
      assert ptr[..nblock] == p[ce[c1] := k];
      assert copyEnd[..] == ce[c1 := ce[c1] - 1];
    } else {
      RightSkip(b, p0, p, cs, ce, z, k);
    }
    z' := NextRight(b, z);
    NextRightShape(b, z);
    NextSound(b, z);
    LaidNext(b, p0, z, z');
  }

  /** Slots of a bucket that is no open [t, ss] are not touched. */
  lemma BucketUntouched(b: seq<byte>, z: Scan, sb: int, x: int)
    requires 0 <= sb < 65536 && 0 <= z.ss < 256 && Start(b, sb) <= x < Start(b, sb + 1)
    requires forall t :: Open(b, z, t) ==> sb != Bucket(t, z.ss)
    ensures Untouched(b, z, x)
  {
    hide Start;
    forall t | Open(b, z, t) ensures !(Start(b, Bucket(t, z.ss)) <= x < Start(b, Bucket(t, z.ss) + 1)) {
      if sb < Bucket(t, z.ss) {
        StartOrder(b, sb + 1, Bucket(t, z.ss));
      } else {
        StartOrder(b, Bucket(t, z.ss) + 1, sb);
      }
    }
  }

  /** The scans do not reach into a finished big bucket. */
  lemma DoneKept(b: seq<byte>, p0: seq<int>, p: seq<int>, cs: seq<int>, ce: seq<int>, z: Scan, c: int)
    requires Scanning(b, p0, p, cs, ce, z) && 0 <= z.ss < 256 && 0 <= c < 256 && |z.done| == 256 && z.done[c]
    ensures RowKept(b, p0, p, c)
  {
    hide Start, Sound, BucketState;
    forall x | Start(b, Bucket(c, 0)) <= x < Start(b, Bucket(c, 0) + 256) && x < |b| ensures Untouched(b, z, x) {
      forall t | Open(b, z, t) ensures !(Start(b, Bucket(t, z.ss)) <= x < Start(b, Bucket(t, z.ss) + 1)) {
        if t < c {
          StartOrder(b, Bucket(t, z.ss) + 1, Bucket(c, 0));
        } else {
          StartOrder(b, Bucket(c, 0) + 256, Bucket(t, z.ss));
        }
      }
    }
  }

  /** In a block of one repeated byte no scan moves anything. */
  lemma UniformKept(b: seq<byte>, p0: seq<int>, p: seq<int>, cs: seq<int>, ce: seq<int>, z: Scan, c: int)
    requires Scanning(b, p0, p, cs, ce, z) && Uniform(b, c) && 0 < |b|
    ensures p == p0
  {
    hide Start, Uniform, Sound, BucketState;
    ScanningSize(b, p0, p, cs, ce, z);
    SoundOpen(b, z);
    if z.ss == c {
      UniformScan(b, p0, p, cs, ce, z);
    } else {
      forall t | Open(b, z, t) ensures Start(b, Bucket(t, z.ss) + 1) <= Start(b, Bucket(t, z.ss)) {
        UniformEmpty(b, c, t, z.ss);
      }
      assert forall x :: Untouched(b, z, x);
    }
  }

  /** A bucket outside the scan's reach is as sorted as it was. */
  lemma SortedStill(b: seq<byte>, p0: seq<int>, p: seq<int>, cs: seq<int>, ce: seq<int>, z: Scan, sb: int)
    requires Scanning(b, p0, p, cs, ce, z) && OfBlock(b, p0) && OfBlock(b, p) && |p0| == |p| == |b|
    requires 0 <= sb < 65536 && 0 <= z.ss < 256 && SortedIn(b, p0, Start(b, sb), Start(b, sb + 1))
    requires forall t :: Open(b, z, t) ==> sb != Bucket(t, z.ss)
    ensures SortedIn(b, p, Start(b, sb), Start(b, sb + 1))
  {
    hide Start, Rank, Untouched, Sound, BucketState;
    StartOrder(b, sb, sb + 1);
    forall x | Start(b, sb) <= x < Start(b, sb + 1) ensures 0 <= x < |b| && p[x] == p0[x] {
      BucketUntouched(b, z, sb, x);
    }
  }

  lemma UniformMarks(b: seq<byte>, p0: seq<int>, p: seq<int>, cs: seq<int>, ce: seq<int>, z: Scan, f: seq<int>)
    requires Scanning(b, p0, p, cs, ce, z) && Bucketed(b, p0) && 0 < |b| && Marks(b, p0, f) && Uniform(b, z.ss)
    ensures Bucketed(b, p) && |p| == |b| && OfBlock(b, p) && Marks(b, p, f)
    ensures forall t :: 0 <= t < 256 ==> SortedIn(b, p, Start(b, Bucket(t, z.ss)), Start(b, Bucket(t, z.ss) + 1))
    ensures |cs| == 256 && |ce| == 256 && 0 <= z.ss < 256 && cs[z.ss] == 0 && ce[z.ss] == |b| - 1
  {
    hide Start, Rank, Untouched, Sound, BucketState, Bucketed, Marked, SortedIn, Uniform;
    BucketedWithin(b, p0);
    UniformScan(b, p0, p, cs, ce, z);
    forall lo, hi ensures SortedIn(b, p, lo, hi) {
      UniformSorted(b, p, z.ss, lo, hi);
    }
  }

  /** A bucket [t, ss] after the scans. */
  lemma ColumnSorted(b: seq<byte>, p0: seq<int>, p: seq<int>, cs: seq<int>, ce: seq<int>, z: Scan, f: seq<int>, t: int)
    requires Scanning(b, p0, p, cs, ce, z) && Sound(b, z) && Finished(b, z) && Bucketed(b, p0) && Bucketed(b, p)
    requires !Uniform(b, z.ss) && Marks(b, p0, f) && DoneMarked(f, z.done) && 0 <= t < 256
    ensures |p| == |b| && OfBlock(b, p) && 0 <= z.ss < 256
    ensures SortedIn(b, p, Start(b, Bucket(t, z.ss)), Start(b, Bucket(t, z.ss) + 1))
  {
    hide Start, Rank, Scanning, Sound, Bucketed, Marked, SortedIn, Finished, Uniform;
    BucketedWithin(b, p0);
    BucketedWithin(b, p);
    ScannedSizes(b, p0, p, cs, ce, z);
    if Open(b, z, t) {
      ScansMeet(b, p0, p, cs, ce, z, t);
      BucketSorted(b, p0, p, cs, ce, z, t);
    } else {
      SortedStill(b, p0, p, cs, ce, z, Bucket(t, z.ss));
    }
  }

  lemma ScannedSorted(b: seq<byte>, p0: seq<int>, p: seq<int>, cs: seq<int>, ce: seq<int>, z: Scan, f: seq<int>)
    requires Scanning(b, p0, p, cs, ce, z) && Sound(b, z) && Finished(b, z) && Bucketed(b, p0) && Bucketed(b, p)
    requires !Uniform(b, z.ss) && Marks(b, p0, f) && DoneMarked(f, z.done)
    ensures |p| == |b| && OfBlock(b, p) && Marks(b, p, f) && 0 <= z.ss < 256
    ensures forall t :: 0 <= t < 256 ==> SortedIn(b, p, Start(b, Bucket(t, z.ss)), Start(b, Bucket(t, z.ss) + 1))
  {
    hide Start, Rank, Scanning, Sound, Bucketed, Marked, SortedIn, Finished, Uniform, Open, DoneMarked;
    BucketedWithin(b, p0);
    BucketedWithin(b, p);
    SoundOpen(b, z);
    forall t | 0 <= t < 256 ensures SortedIn(b, p, Start(b, Bucket(t, z.ss)), Start(b, Bucket(t, z.ss) + 1)) {
      ColumnSorted(b, p0, p, cs, ce, z, f, t);
    }
    forall sb | 0 <= sb < 65536 && Marked(f[sb]) ensures SortedIn(b, p, Start(b, sb), Start(b, sb + 1)) {
      if sb % 256 == z.ss {
        assert sb == Bucket(sb / 256, z.ss);
      } else {
        SortedStill(b, p0, p, cs, ce, z, sb);
      }
    }
  }

  /** Both scans done: every bucket [t, ss] is sorted, and all marked buckets still are. */
  lemma ScannedMarks(b: seq<byte>, p0: seq<int>, p: seq<int>, cs: seq<int>, ce: seq<int>, z: Scan, f: seq<int>)
    requires Scanning(b, p0, p, cs, ce, z) && Sound(b, z) && Finished(b, z) && Bucketed(b, p0) && 0 < |b|
    requires Marks(b, p0, f) && DoneMarked(f, z.done)
    ensures Bucketed(b, p) && |p| == |b| && OfBlock(b, p) && Marks(b, p, f) && 0 <= z.ss < 256
    ensures forall t :: 0 <= t < 256 ==> SortedIn(b, p, Start(b, Bucket(t, z.ss)), Start(b, Bucket(t, z.ss) + 1))
    ensures |cs| == |ce| == 256
    ensures cs[z.ss] - 1 == ce[z.ss] || (cs[z.ss] == 0 && ce[z.ss] == |b| - 1)
  {
    hide Start, Rank, Scanning, Sound, Bucketed, Marked, Marks, SortedIn, Finished, Uniform, DoneMarked;
    if Uniform(b, z.ss) {
      UniformMarks(b, p0, p, cs, ce, z, f);
    } else {
      ScannedSizes(b, p0, p, cs, ce, z);
      forall t | Open(b, z, t) ensures cs[t] == ce[t] + 1 {
        ScansMeet(b, p0, p, cs, ce, z, t);
      }
      ScannedBucketed(b, p0, p, cs, ce, z);
      ScannedSorted(b, p0, p, cs, ce, z, f);
    }
  }

  lemma ScannedSizes(b: seq<byte>, p0: seq<int>, p: seq<int>, cs: seq<int>, ce: seq<int>, z: Scan)
    requires Scanning(b, p0, p, cs, ce, z)
    ensures |p| == |p0| == |b| && |cs| == |ce| == 256 && Sound(b, z) && Open(b, z, z.ss)
  {
    hide Start, BucketState, Untouched;
    SoundOpen(b, z);
  }

  lemma SoundOpen(b: seq<byte>, z: Scan)
    requires Sound(b, z)
    ensures 0 <= z.ss < 256 && |z.done| == 256 && Open(b, z, z.ss)
  {
  }

  lemma UniformSorted(b: seq<byte>, p: seq<int>, ss: int, lo: int, hi: int)
    requires Uniform(b, ss) && |p| == |b| && OfBlock(b, p)
    ensures SortedIn(b, p, lo, hi)
  {
    hide Rank;
    forall x, y | lo <= x < y < hi && 0 <= x && y < |p| ensures Rank(b, p[x]) <= Rank(b, p[y]) {
      UniformRanks(b, ss, p[x], p[y]);
    }
  }

  /** Step 2: the sorted big bucket ss is scanned from both ends, which sorts all buckets [t, ss].
      The assertion with code 1007 is an assertion here. */
  method ScanBig(ptr: array<int>, block: array<byte>, ftab: array<int>, bigDone: array<bool>, nblock: nat, ss: int)
    requires ptr != ftab && ptr as object != block as object && ptr as object != bigDone as object
    requires 0 < nblock <= block.Length && nblock <= ptr.Length && 0 <= ss < 256 && bigDone.Length == 256
      && !bigDone[ss]
    requires Bucketed(block[..nblock], ptr[..nblock]) && Tables(block[..nblock], ftab[..])
    requires Marks(block[..nblock], ptr[..nblock], ftab[..]) && RowMarked(ftab[..], ss, 256)
    requires DoneMarked(ftab[..], bigDone[..])
    modifies ptr
    ensures Bucketed(block[..nblock], ptr[..nblock]) && Marks(block[..nblock], ptr[..nblock], ftab[..])
    ensures OfBlock(block[..nblock], ptr[..nblock])
    ensures forall t :: 0 <= t < 256 ==>
      SortedIn(block[..nblock], ptr[..nblock], Start(block[..nblock], Bucket(t, ss)), Start(block[..nblock], Bucket(t, ss) + 1))
    ensures ptr[nblock..] == old(ptr[nblock..])
    ensures forall c :: 0 <= c < 256 && bigDone[c] ==> RowKept(block[..nblock], old(ptr[..nblock]), ptr[..nblock], c)
    ensures forall c :: Uniform(block[..nblock], c) ==> ptr[..nblock] == old(ptr[..nblock])
  {
    hide Scanning, Start, Queue, Laid, Sound, Pred, NextLeft, NextRight, Bucketed, Marks, Tables, RowMarked,
      DoneMarked, SortedIn, Clear, RowKept, Uniform;
    ghost var b, p0, f := block[..nblock], ptr[..nblock], ftab[..];
    var copyStart, copyEnd := new int[256], new int[256];
    CopyLimits(ftab, copyStart, copyEnd, ss, b);
    TablesAt(b, f, ss * 256);
    TablesAt(b, f, (ss + 1) * 256);
    ghost var z := ScanStart(b, p0, f, copyStart[..], copyEnd[..], bigDone[..], ss);
    ghost var first, last := Start(b, Bucket(ss, 0)), Start(b, Bucket(ss, 0) + 256);
    ScanSound(b, p0, p0, copyStart[..], copyEnd[..], z);
    var j := Clear(ftab[ss * 256]);
    LeftEntry(ptr[..nblock], copyStart[..], copyEnd[..], b, p0, z, j, first);
    while j < copyStart[ss]
      invariant ScanState(ptr, copyStart, copyEnd, b, p0, z) && z.ss == ss && z.done == bigDone[..] && z.jr == 0
      invariant j == first + z.jl && ptr[nblock..] == old(ptr[nblock..])
      invariant copyStart[ss] <= nblock && (j < copyStart[ss] <==> z.jl < |z.ql|) && z.jl <= |z.ql|
      decreases nblock - j
    {
      ghost var z0 := z;
      z := StepLeft(ptr, block, bigDone, copyStart, copyEnd, nblock, j, first, b, p0, z);
      NextLeftShape(b, z0);
      j := j + 1;
      LeftEntry(ptr[..nblock], copyStart[..], copyEnd[..], b, p0, z, j, first);
    }
    j := Clear(ftab[(ss + 1) * 256]) - 1;
    RightEntry(ptr[..nblock], copyStart[..], copyEnd[..], b, p0, z, j, last);
    while j > copyEnd[ss]
      invariant ScanState(ptr, copyStart, copyEnd, b, p0, z) && z.ss == ss && z.done == bigDone[..] && z.jl == |z.ql|
      invariant j == last - 1 - z.jr && ptr[nblock..] == old(ptr[nblock..])
      invariant -1 <= copyEnd[ss] && (j > copyEnd[ss] <==> z.jr < |z.qr|) && z.jr <= |z.qr|
      decreases j
    {
      ghost var z0 := z;
      z := StepRight(ptr, block, bigDone, copyStart, copyEnd, nblock, j, last, b, p0, z);
      NextRightShape(b, z0);
      j := j - 1;
      RightEntry(ptr[..nblock], copyStart[..], copyEnd[..], b, p0, z, j, last);
    }
    ScannedMarks(b, p0, ptr[..nblock], copyStart[..], copyEnd[..], z, f);
    forall c | 0 <= c < 256 && bigDone[c] ensures RowKept(b, p0, ptr[..nblock], c) {
      DoneKept(b, p0, ptr[..nblock], copyStart[..], copyEnd[..], z, c);
    }
    forall c | Uniform(b, c) ensures ptr[..nblock] == p0 {
      UniformKept(b, p0, ptr[..nblock], copyStart[..], copyEnd[..], z, c);
    }
    assert copyStart[ss] - 1 == copyEnd[ss] || (copyStart[ss] == 0 && copyEnd[ss] == nblock - 1);  // 1007
  }

  lemma ScanSound(b: seq<byte>, p0: seq<int>, p: seq<int>, cs: seq<int>, ce: seq<int>, z: Scan)
    requires Scanning(b, p0, p, cs, ce, z)
    ensures Sound(b, z)
  {
  }

  /** copyStart and copyEnd: the limits of the buckets [j, ss]. */
  method CopyLimits(ftab: array<int>, copyStart: array<int>, copyEnd: array<int>, ss: int, ghost b: seq<byte>)
    requires ftab != copyStart && ftab != copyEnd && copyStart != copyEnd && copyStart.Length == copyEnd.Length == 256
    requires 0 <= ss < 256 && Tables(b, ftab[..])
    modifies copyStart, copyEnd
    ensures forall t :: 0 <= t < 256 ==> copyStart[t] == Start(b, Bucket(t, ss)) && copyEnd[t] == Start(b, Bucket(t, ss) + 1) - 1
  {
    hide Tables, Start, Clear;
    var j := 0;
    while j <= 255
      invariant 0 <= j <= 256
      invariant forall t :: 0 <= t < j ==> copyStart[t] == Start(b, Bucket(t, ss)) && copyEnd[t] == Start(b, Bucket(t, ss) + 1) - 1
    {
      TablesAt(b, ftab[..], j * 256 + ss);
      TablesAt(b, ftab[..], j * 256 + ss + 1);
      copyStart[j] := Clear(ftab[j * 256 + ss]);
      copyEnd[j] := Clear(ftab[j * 256 + ss + 1]) - 1;
      j := j + 1;
    }
  }
}
