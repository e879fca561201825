/** mainSort: the big buckets one after another, each followed by an update of the quadrant
    values (dep/bzip2/blocksort.c:726-992). */
module MainSort {
  import opened Powers
  import opened Rotations
  import opened RotationRank
  import opened MainCompare
  import opened RadixSort
  import opened PointerScan
  import opened BucketScan
  import opened BigBucket
  import Counting
  import RunningOrder

  // ---------- Marking the column of ss ----------

  /** The buckets [t, ss] for t below `upto` are marked. */
  ghost predicate ColumnMarked(f: seq<int>, ss: int, upto: int) {
    |f| == 65537 && 0 <= ss < 256 && forall t :: 0 <= t < upto && t < 256 ==> Marked(f[Bucket(t, ss)])
  }

  lemma MarksGrown(f: seq<int>, g: seq<int>, h: seq<int>, ss: int)
    requires MarksGrow(f, g) && MarksGrow(g, h)
    ensures MarksGrow(f, h) && (RowMarked(g, ss, 256) ==> RowMarked(h, ss, 256))
  {
    hide Marked;
  }

  method MarkColumn(ftab: array<int>, ss: int, ghost b: seq<byte>, ghost p: seq<int>)
    requires Tables(b, ftab[..]) && Marks(b, p, ftab[..]) && 0 <= ss < 256 && |p| == |b| && OfBlock(b, p)
    requires forall t :: 0 <= t < 256 ==> SortedIn(b, p, Start(b, Bucket(t, ss)), Start(b, Bucket(t, ss) + 1))
    modifies ftab
    ensures Tables(b, ftab[..]) && Marks(b, p, ftab[..])
    ensures ColumnMarked(ftab[..], ss, 256) && MarksGrow(old(ftab[..]), ftab[..])
  {
    hide Start, Marks, Tables, SortedIn, OfBlock, Marked, Mark;
    TablesAt(b, ftab[..], 0);
    var j := 0;
    while j <= 255
      invariant 0 <= j <= 256 && Tables(b, ftab[..]) && Marks(b, p, ftab[..])
      invariant ColumnMarked(ftab[..], ss, j) && MarksGrow(old(ftab[..]), ftab[..])
    {
      var sb := j * 256 + ss;
      ghost var f := ftab[..];
      assert sb == Bucket(j, ss);
      MarkOne(b, p, f, sb);
      ftab[sb] := Mark(ftab[sb]);
      assert ftab[..] == f[sb := Mark(f[sb])];
      j := j + 1;
    }
  }

  lemma NowDone(f0: seq<int>, f: seq<int>, done: seq<bool>, ss: int)
    requires DoneMarked(f0, done) && MarksGrow(f0, f) && RowMarked(f, ss, 256) && ColumnMarked(f, ss, 256)
    ensures 0 <= ss < |done| && DoneMarked(f, done[ss := true])
  {
    hide Marked;
    var d := done[ss := true];
    forall c0, c1 | 0 <= c0 < 256 && 0 <= c1 < 256 && (d[c0] || d[c1]) ensures Marked(f[Bucket(c0, c1)]) {
      if c1 != ss && c0 != ss {
        assert Marked(f0[Bucket(c0, c1)]);
      }
    }
  }

  // ---------- Step 3: the quadrant values ----------

  lemma ShiftStep(n: nat, s: nat)
    requires 0 < n / Pow2(s)
    ensures n / Pow2(s + 1) < n / Pow2(s)
  {
    hide Pow2;
    Pow2Next(s);
    var p := Pow2(s);
    var q, q' := n / p, n / (2 * p);
    assert q * p <= n < q * p + p && q' * (2 * p) <= n;
    HalfBelow(n, p, q, q');
  }

  lemma HalfBelow(n: nat, p: nat, q: nat, q': nat)
    requires 1 <= q && n < q * p + p && q' * (2 * p) <= n
    ensures q' < q
  {
    if q' >= q {
      MulMonotone(q, q', 2 * p);
      Double(q, p);
      MulMonotone(1, q, p);
    }
  }

  /** The least number of shifts, from s on, that makes size fit. */
  ghost function ShiftsFrom(size: nat, s: nat): (r: nat)
    ensures s <= r && size / Pow2(r) <= 65534 && forall t :: s <= t < r ==> size / Pow2(t) > 65534
    decreases size / Pow2(s)
  {
    if size / Pow2(s) <= 65534 then s
    else
      ShiftStep(size, s);
      ShiftsFrom(size, s + 1)
  }

  /** By how much the slot numbers of a big bucket of that size are shifted to fit 16 bits. */
  ghost function ShiftsFor(size: nat): (r: nat)
    ensures size / Pow2(r) <= 65534 && forall t :: 0 <= t < r ==> size / Pow2(t) > 65534
  {
    ShiftsFrom(size, 0)
  }

  ghost function First(b: seq<byte>, c: int): nat { Start(b, Bucket(c, 0)) }
  ghost function Last(b: seq<byte>, c: int): nat { Start(b, Bucket(c, 0) + 256) }

  lemma FirstLast(b: seq<byte>, c: int)
    ensures First(b, c) <= Last(b, c) <= |b|
  {
    StartOrder(b, Bucket(c, 0), Bucket(c, 0) + 256);
  }

  /** The slot numbers of big bucket c, counted from its first and shifted, are cached: slot x's
      rotation has (x - first) >> shifts. */
  ghost predicate CacheOf(b: seq<byte>, p: seq<int>, quad: seq<int>, c: int)
    requires |p| == |b| <= |quad| && OfBlock(b, p)
  {
    FirstLast(b, c);
    forall x :: First(b, c) <= x < Last(b, c) ==>
      quad[p[x]] == (x - First(b, c)) / Pow2(ShiftsFor(Last(b, c) - First(b, c)))
  }

  /** The values of rotations that start with another byte stand. */
  ghost predicate OtherQuads(b: seq<byte>, q0: seq<int>, q: seq<int>, c: int) {
    |b| <= |q| == |q0| && forall r :: 0 <= r < |b| && b[r] != c ==> q[r] == q0[r]
  }

  /** The value cached for slot x of the big bucket that starts at lo. */
  function Cached(x: int, lo: int, sh: nat): (v: int)
    requires lo <= x && 0 < sh
    ensures 0 <= v
  {
    (x - lo) / sh
  }

  lemma CachedOrder(x: int, y: int, lo: int, sh: nat)
    requires lo <= x <= y && 0 < sh
    ensures Cached(x, lo, sh) <= Cached(y, lo, sh)
  {
    var u, v := x - lo, y - lo;
    if u / sh > v / sh {
      MulMonotone(v / sh + 1, u / sh, sh);
      Powers.Distribute(v / sh, 1, sh);
    }
  }

  /** The slots x.. of the big bucket have their new values; other rotations their old ones; all
      values have 16 bits. */
  ghost predicate Quads(b: seq<byte>, p: seq<int>, q0: seq<int>, q: seq<int>, ss: int, lo: int, hi: int, sh: nat, x: int) {
    && 0 < sh && 0 <= lo <= x <= hi <= |b| == |p| && Wrapped(q, |b|) && |q0| == |q|
    && (forall y :: 0 <= y < |b| ==> 0 <= p[y] < |b|)
    && (forall y :: x <= y < hi ==> q[p[y]] == Cached(y, lo, sh))
    && (forall r :: 0 <= r < |b| && b[r] != ss ==> q[r] == q0[r])
    && Halves(q, |b|)
  }

  /** UInt16 values. */
  ghost predicate Halves(q: seq<int>, n: nat) {
    n + OVERSHOOT <= |q| && forall r :: 0 <= r < n + OVERSHOOT ==> 0 <= q[r] < 65536
  }

  ghost function Stored(q: seq<int>, n: nat, r: int, v: int): seq<int>
    requires 0 <= r < n && n + OVERSHOOT <= |q|
  {
    if r < OVERSHOOT then q[r := v][r + n := v] else q[r := v]
  }

  lemma QuadStored(b: seq<byte>, p: seq<int>, q0: seq<int>, q: seq<int>, ss: int, lo: int, hi: int, sh: nat, x: int)
    requires Quads(b, p, q0, q, ss, lo, hi, sh, x) && lo < x && Bucketed(b, p)
    requires lo == Start(b, Bucket(ss, 0)) && hi == Start(b, Bucket(ss, 0) + 256) && 0 <= ss < 256
    requires Cached(x - 1, lo, sh) < 65536
    ensures Quads(b, p, q0, Stored(q, |b|, p[x - 1], Cached(x - 1, lo, sh)), ss, lo, hi, sh, x - 1)
  {
    hide Cached, Start, Bucketed;
    BucketedRange(b, p);
    InBigBucket(b, p, ss, x - 1);
    var r := p[x - 1];
    var q' := Stored(q, |b|, r, Cached(x - 1, lo, sh));
    forall y | x <= y < hi ensures q'[p[y]] == Cached(y, lo, sh) {
      assert p[y] != r;
    }
  }

  /** Big bucket ss holds exactly the rotations that start with ss. */
  lemma InBigBucket(b: seq<byte>, p: seq<int>, ss: int, x: int)
    requires Bucketed(b, p) && 0 <= ss < 256 && 0 <= x < |b| && 0 <= p[x] < |b|
    ensures Start(b, Bucket(ss, 0)) <= x < Start(b, Bucket(ss, 0) + 256) <==> b[p[x]] == ss
  {
    hide Start, Adv, TwoBytes, Bucketed;
    BucketedRange(b, p);
    SlotRange(b, p, Bucket(ss, 0), Bucket(ss, 0) + 256, x);
    FirstByte(b, p[x], ss, 0, 256);
  }

  lemma WholeRowSorted(b: seq<byte>, p: seq<int>, f: seq<int>, ss: int)
    requires Bucketed(b, p) && Marks(b, p, f) && RowMarked(f, ss, 256) && ColumnMarked(f, ss, 256)
    ensures |p| == |b| && OfBlock(b, p) && SortedIn(b, p, Start(b, Bucket(ss, 0)), Start(b, Bucket(ss, 0) + 256))
  {
    hide Start, Rank, Marked, Marks, Bucketed;
    BucketedWithin(b, p);
    StartOrder(b, Bucket(ss, 0) + 256, 65536);
    forall j | 0 <= j < 256 ensures Marked(f[Bucket(ss, j)]) {
      if j == ss { assert Marked(f[Bucket(j, ss)]); }
    }
    forall x, y | Start(b, Bucket(ss, 0)) <= x < y < Start(b, Bucket(ss, 0) + 256) ensures Rank(b, p[x]) <= Rank(b, p[y]) {
      RowSorted(b, p, f, ss, 0, 256, x, y);
    }
  }

  /** Two rotations of the finished big bucket: the smaller value belongs to no larger string. */
  lemma QuadDecides(b: seq<byte>, p: seq<int>, q0: seq<int>, q: seq<int>, ss: int, lo: int, hi: int, sh: nat, i: int, j: int)
    requires Quads(b, p, q0, q, ss, lo, hi, sh, lo) && Bucketed(b, p) && OfBlock(b, p) && SortedIn(b, p, lo, hi)
    requires lo == Start(b, Bucket(ss, 0)) && hi == Start(b, Bucket(ss, 0) + 256) && 0 <= ss < 256
    requires 0 <= i < |b| && 0 <= j < |b| && b[i] == ss && b[j] == ss && q[i] < q[j]
    ensures Rank(b, i) <= Rank(b, j)
  {
    hide Cached, Start, Bucketed, Rank, Wrapped, Halves;
    var x := SlotHolding(b, p, i);
    var y := SlotHolding(b, p, j);
    InBigBucket(b, p, ss, x);
    InBigBucket(b, p, ss, y);
    if y <= x {
      CachedOrder(y, x, lo, sh);
    }
  }

  lemma QuadsComparable(b: seq<byte>, p: seq<int>, block: seq<byte>, q0: seq<int>, q: seq<int>, f: seq<int>, ss: int, lo: int,
                        hi: int, sh: nat)
    requires Quads(b, p, q0, q, ss, lo, hi, sh, lo) && Bucketed(b, p) && Marks(b, p, f)
    requires RowMarked(f, ss, 256) && ColumnMarked(f, ss, 256)
    requires lo == Start(b, Bucket(ss, 0)) && hi == Start(b, Bucket(ss, 0) + 256)
    requires Comparable(block, q0, |b|) && block[..|b|] == b
    ensures Comparable(block, q, |b|)
  {
    hide Cached, Start, Bucketed, Rank, Wrapped, Halves, Marks, RowMarked, SortedIn;
    WholeRowSorted(b, p, f, ss);
    forall i, j | 0 <= i < |b| && 0 <= j < |b| && b[i] == b[j] && q[i] < q[j] ensures Rank(b, i) <= Rank(b, j) {
      if b[i] == ss {
        QuadDecides(b, p, q0, q, ss, lo, hi, sh, i, j);
      } else {
        assert q[i] == q0[i] && q[j] == q0[j];
      }
    }
  }

  lemma QuadsBegin(b: seq<byte>, p: seq<int>, block: seq<byte>, q: seq<int>, ss: int, lo: int, hi: int, sh: nat)
    requires Bucketed(b, p) && Comparable(block, q, |b|) && Halves(q, |b|) && 0 < sh && 0 <= lo <= hi <= |b|
    ensures Quads(b, p, q, q, ss, lo, hi, sh, hi)
  {
    hide Start;
  }

  lemma QuadsAt(b: seq<byte>, p: seq<int>, q0: seq<int>, q: seq<int>, ss: int, lo: int, hi: int, sh: nat, x: int)
    requires Quads(b, p, q0, q, ss, lo, hi, sh, x) && 0 <= lo <= x - 1 && x <= |b|
    ensures |p| == |b| && 0 <= p[x - 1] < |b| && |b| + OVERSHOOT <= |q| && Halves(q, |b|)
  {
  }

  /** By how much slot numbers are shifted to fit 16 bits (code 1002). */
  method Shifts(bbSize: nat) returns (shifts: nat)
    ensures shifts == ShiftsFor(bbSize) && (bbSize > 0 ==> (bbSize - 1) / Pow2(shifts) <= 65535)
  {
    shifts := 0;
    while bbSize / Pow2(shifts) > 65534
      invariant ShiftsFrom(bbSize, shifts) == ShiftsFor(bbSize)
      decreases bbSize / Pow2(shifts)
    {
      ShiftStep(bbSize, shifts);
      shifts := shifts + 1;
    }
    CachedFits(bbSize - 1, 0, bbSize, shifts);
  }

  /** (UInt16)(j >> shifts). */
  function QVal(j: nat, shifts: nat): int {
    j / Pow2(shifts) % 65536
  }

  /** Step 3: the sorted order of big bucket ss goes into the quadrant array. */
  method UpdateQuadrant(ptr: array<int>, block: array<byte>, quadrant: array<int>, ftab: array<int>, nblock: nat, ss: int)
    requires quadrant != ptr && quadrant != ftab && quadrant as object != block as object
    requires nblock <= block.Length && nblock <= ptr.Length && 0 <= ss < 256
    requires Comparable(block[..], quadrant[..], nblock) && Halves(quadrant[..], nblock)
    requires Bucketed(block[..nblock], ptr[..nblock]) && Tables(block[..nblock], ftab[..])
    requires Marks(block[..nblock], ptr[..nblock], ftab[..]) && RowMarked(ftab[..], ss, 256)
      && ColumnMarked(ftab[..], ss, 256)
    modifies quadrant
    ensures Comparable(block[..], quadrant[..], nblock) && Halves(quadrant[..], nblock)
    ensures OfBlock(block[..nblock], ptr[..nblock]) && nblock <= quadrant.Length
    ensures CacheOf(block[..nblock], ptr[..nblock], quadrant[..], ss)
    ensures OtherQuads(block[..nblock], old(quadrant[..]), quadrant[..], ss)
  {
    hide Cached, Comparable, Bucketed, Tables, Marks, RowMarked, ColumnMarked, Start, Quads, Stored, Halves, Clear,
      QVal, CacheOf, OtherQuads, ShiftsFor;
    ghost var b, p, q0 := block[..nblock], ptr[..nblock], quadrant[..];
    assert b == block[..][..nblock];
    TablesAt(b, ftab[..], ss * 256);
    TablesAt(b, ftab[..], (ss + 1) * 256);
    StartOrder(b, Bucket(ss, 0), Bucket(ss, 0) + 256);
    var bbStart := Clear(ftab[ss * 256]);
    var bbSize := Clear(ftab[(ss + 1) * 256]) - bbStart;
    var shifts := Shifts(bbSize);
    ghost var sh, hi := Pow2(shifts), bbStart + bbSize;
    QuadsBegin(b, p, block[..], q0, ss, bbStart, hi, sh);
    var j := bbSize - 1;
    while j >= 0
      invariant -1 <= j < bbSize && Quads(b, p, q0, quadrant[..], ss, bbStart, hi, sh, bbStart + j + 1)
    {
      QuadsAt(b, p, q0, quadrant[..], ss, bbStart, hi, sh, bbStart + j + 1);
      CachedFits(j, bbStart, bbSize, shifts);
      QuadStored(b, p, q0, quadrant[..], ss, bbStart, hi, sh, bbStart + j + 1);
      ghost var q := quadrant[..];
      var a2update := ptr[bbStart + j];
      assert a2update == p[bbStart + j];
      Store(quadrant, nblock, a2update, QVal(j, shifts));
      j := j - 1;
    }
    QuadsComparable(b, p, block[..], q0, quadrant[..], ftab[..], ss, bbStart, hi, sh);
    QuadsHalves(b, p, q0, quadrant[..], ss, bbStart, hi, sh);
    BucketedWithin(b, p);
    QuadsCached(b, p, q0, quadrant[..], ss, bbStart, hi, sh);
  }

  lemma QuadsCached(b: seq<byte>, p: seq<int>, q0: seq<int>, q: seq<int>, ss: int, lo: int, hi: int, sh: nat)
    requires Quads(b, p, q0, q, ss, lo, hi, sh, lo) && OfBlock(b, p)
    requires lo == First(b, ss) && hi == Last(b, ss) && sh == Pow2(ShiftsFor(hi - lo))
    ensures |b| <= |q| && CacheOf(b, p, q, ss) && OtherQuads(b, q0, q, ss)
  {
    hide Start, ShiftsFor;
  }

  lemma QuadsHalves(b: seq<byte>, p: seq<int>, q0: seq<int>, q: seq<int>, ss: int, lo: int, hi: int, sh: nat)
    requires Quads(b, p, q0, q, ss, lo, hi, sh, lo)
    ensures Halves(q, |b|)
  {
  }

  lemma CachedFits(j: int, lo: int, size: int, shifts: nat)
    requires j < size && size / Pow2(shifts) <= 65534
    ensures j >= 0 ==> j / Pow2(shifts) == QVal(j, shifts) == Cached(lo + j, lo, Pow2(shifts)) <= 65534
  {
    if j >= 0 {
      CachedOrder(j, size, 0, Pow2(shifts));
    }
  }

  method Store(quadrant: array<int>, nblock: nat, r: int, v: int)
    requires 0 <= r < nblock && nblock + OVERSHOOT <= quadrant.Length
    modifies quadrant
    ensures quadrant[..] == Stored(old(quadrant[..]), nblock, r, v)
  {
    quadrant[r] := v;
    if r < OVERSHOOT {
      quadrant[r + nblock] := v;
    }
  }

  // ---------- One big bucket, and all of them ----------

  /** The quadrant array holds the order of the big buckets in `kept` and zeros elsewhere. */
  ghost predicate Caches(b: seq<byte>, p: seq<int>, quad: seq<int>, kept: seq<bool>) {
    && |kept| == 256 && |p| == |b| <= |quad| && OfBlock(b, p)
    && (forall c :: 0 <= c < 256 && kept[c] ==> CacheOf(b, p, quad, c))
    && forall r :: 0 <= r < |b| && !kept[b[r]] ==> quad[r] == 0
  }

  /** Only finished big buckets are cached. */
  ghost predicate KeptDone(kept: seq<bool>, done: seq<bool>) {
    |kept| == |done| == 256 && forall c :: 0 <= c < 256 && kept[c] ==> done[c]
  }

  /** What holds between big buckets: p is sorted by two characters, marked small buckets are
      sorted, those of finished big buckets are marked, and the quadrant array holds the order of
      those in `kept`. */
  ghost predicate Between(block: seq<byte>, p: seq<int>, quad: seq<int>, f: seq<int>, done: seq<bool>, kept: seq<bool>,
                          n: nat) {
    && n <= |block| && Comparable(block, quad, n) && Halves(quad, n)
    && Bucketed(block[..n], p) && Tables(block[..n], f) && Marks(block[..n], p, f) && DoneMarked(f, done)
    && KeptDone(kept, done) && Caches(block[..n], p, quad, kept)
  }

  /** The finished big buckets' slots have not moved, so their cached order stands. */
  lemma CachesStand(b: seq<byte>, p: seq<int>, q: seq<int>, quad: seq<int>, kept: seq<bool>)
    requires Caches(b, p, quad, kept) && |q| == |b| && OfBlock(b, q)
    requires forall c :: 0 <= c < 256 && kept[c] ==> RowKept(b, p, q, c)
    ensures Caches(b, q, quad, kept)
  {
    hide Start, ShiftsFor;
    forall c | 0 <= c < 256 && kept[c] ensures CacheOf(b, q, quad, c) {
      FirstLast(b, c);
      assert RowKept(b, p, q, c) && CacheOf(b, p, quad, c);
      assert forall x :: First(b, c) <= x < Last(b, c) ==> q[x] == p[x];
    }
  }

  /** One more big bucket is cached. */
  lemma CachesMore(b: seq<byte>, p: seq<int>, q0: seq<int>, q: seq<int>, kept: seq<bool>, ss: int)
    requires Caches(b, p, q0, kept) && 0 <= ss < 256 && OtherQuads(b, q0, q, ss) && Bucketed(b, p)
    requires CacheOf(b, p, q, ss)
    ensures Caches(b, p, q, kept[ss := true])
  {
    hide Start, ShiftsFor, Bucketed;
    forall c | 0 <= c < 256 && kept[ss := true][c] ensures CacheOf(b, p, q, c) {
      if c != ss {
        FirstLast(b, c);
        assert CacheOf(b, p, q0, c);
        forall x | First(b, c) <= x < Last(b, c) ensures q[p[x]] == q0[p[x]] {
          InBigBucket(b, p, c, x);
        }
      }
    }
  }

  lemma DoneGrows(f: seq<int>, g: seq<int>, done: seq<bool>)
    requires DoneMarked(f, done) && MarksGrow(f, g)
    ensures DoneMarked(g, done)
  {
    hide Marked;
  }

  /** Steps 1 to 3 for big bucket ss. */
  method BigPass(ptr: array<int>, block: array<byte>, quadrant: array<int>, ftab: array<int>, bigDone: array<bool>,
                 nblock: nat, i: int, ss: int, budget: int, ghost kept: seq<bool>)
    returns (budget': int, ghost kept': seq<bool>)
    requires ptr != quadrant && ptr != ftab && quadrant != ftab
    requires block as object !in {ptr as object, ftab as object, quadrant as object}
    requires bigDone as object !in {ptr as object, ftab as object, quadrant as object, block as object}
    requires 0 < nblock <= block.Length && nblock <= ptr.Length && nblock <= 900000 && 0 <= ss < 256 && 0 <= budget
    requires bigDone.Length == 256 && !bigDone[ss]
    requires Between(block[..], ptr[..nblock], quadrant[..], ftab[..], bigDone[..], kept, nblock)
    modifies ptr, quadrant, ftab, bigDone
    ensures budget' <= budget
    ensures |kept| == 256 && kept' == if i < 255 then kept[ss := true] else kept
    ensures budget' >= 0 ==> Between(block[..], ptr[..nblock], quadrant[..], ftab[..], bigDone[..], kept', nblock)
    ensures budget' >= 0 ==> bigDone[..] == old(bigDone[..])[ss := true]
    ensures forall c :: Uniform(block[..nblock], c) ==> ptr[..nblock] == old(ptr[..nblock]) && budget' == budget
  {
    hide Comparable, Bucketed, Tables, Marks, RowMarked, ColumnMarked, DoneMarked, Start, Halves, SortedIn, OfBlock,
      MarksGrow, Caches, CacheOf, RowKept, OtherQuads, Uniform;
    assert block[..][..nblock] == block[..nblock];
    ghost var b, f0, p0 := block[..nblock], ftab[..], ptr[..nblock];
    kept' := if i < 255 then kept[ss := true] else kept;
    budget' := SortRow(ptr, block, quadrant, ftab, nblock, ss, budget);
    if budget' < 0 {
      return;
    }
    assert !bigDone[ss];  // 1006
    ghost var f1, p1 := ftab[..], ptr[..nblock];
    DoneGrows(f0, f1, bigDone[..]);
    ScanBig(ptr, block, ftab, bigDone, nblock, ss);
    PassKept(b, p0, p1, ptr[..nblock], quadrant[..], kept, bigDone[..], ss);
    BucketedWithin(b, ptr[..nblock]);
    MarkColumn(ftab, ss, b, ptr[..nblock]);
    MarksGrown(f0, f1, ftab[..], ss);
    NowDone(f0, ftab[..], bigDone[..], ss);
    ghost var d := bigDone[..];
    bigDone[ss] := true;
    assert bigDone[..] == d[ss := true];
    if i < 255 {
      ghost var q0 := quadrant[..];
      UpdateQuadrant(ptr, block, quadrant, ftab, nblock, ss);
      CachesMore(b, ptr[..nblock], q0, quadrant[..], kept, ss);
    }
  }

  /** Steps 1 and 2 leave the cached order of finished big buckets as it was. */
  lemma PassKept(b: seq<byte>, p0: seq<int>, p1: seq<int>, p2: seq<int>, quad: seq<int>, kept: seq<bool>, done: seq<bool>, ss: int)
    requires Caches(b, p0, quad, kept) && KeptDone(kept, done) && 0 <= ss < 256 && !done[ss]
    requires OthersKept(b, p0, p1, ss) && |p2| == |b| && OfBlock(b, p2)
    requires forall c :: 0 <= c < 256 && done[c] ==> RowKept(b, p1, p2, c)
    ensures Caches(b, p2, quad, kept)
  {
    hide Start, CacheOf, Caches;
    CachesSize(b, p0, quad, kept);
    forall c | 0 <= c < 256 && kept[c] ensures RowKept(b, p0, p2, c) {
      assert RowKept(b, p0, p1, c) && RowKept(b, p1, p2, c);
    }
    CachesStand(b, p0, p2, quad, kept);
  }

  lemma CachesSize(b: seq<byte>, p: seq<int>, quad: seq<int>, kept: seq<bool>)
    requires Caches(b, p, quad, kept)
    ensures |kept| == 256 && |p| == |b| <= |quad| && OfBlock(b, p)
  {
  }

  lemma FirstDecides(b: seq<byte>, i: int, j: int)
    requires 0 <= i < |b| && 0 <= j < |b| && TwoBytes(b, i) < TwoBytes(b, j)
    ensures Rank(b, i) < Rank(b, j)
  {
    hide Cmp, Rank;
    if b[i] < b[j] {
      CmpOne(b, i, j);
      RankByPrefix(b, i, j, 1);
    } else {
      SecondBytes(b, i, j, b[i] as int);
      SecondDecides(b, i, j);
    }
  }

  /** All big buckets done: the block is sorted. */
  lemma AllSorted(b: seq<byte>, p: seq<int>, f: seq<int>, done: seq<bool>)
    requires Bucketed(b, p) && Marks(b, p, f) && DoneMarked(f, done)
    requires forall c :: 0 <= c < 256 ==> done[c]
    ensures InRotationOrder(b, p)
  {
    hide Start, Rank, Marked, TwoBytes, Cmp;
    BucketedWithin(b, p);
    forall x, y | 0 <= x < y < |b| ensures Rank(b, p[x]) <= Rank(b, p[y]) {
      var kx, ky := TwoBytes(b, p[x]), TwoBytes(b, p[y]);
      BucketOf(b, p, kx, x);
      BucketOf(b, p, ky, y);
      if kx == ky {
        assert Bucket(kx / 256, kx % 256) == kx;
        assert SortedIn(b, p, Start(b, kx), Start(b, kx + 1));
      } else {
        if ky < kx {
          StartOrder(b, ky + 1, kx);
        }
        FirstDecides(b, p[x], p[y]);
      }
    }
    SortedByRank(b, p);
  }

  lemma BetweenStart(block: seq<byte>, p: seq<int>, quad: seq<int>, f: seq<int>, done: seq<bool>, n: nat)
    requires n <= |block| && Comparable(block, quad, n) && Bucketed(block[..n], p) && |f| == 65537 && |done| == 256
    requires forall v :: 0 <= v <= 65536 ==> f[v] == Start(block[..n], v)
    requires n <= 900000 && (forall c :: 0 <= c < 256 ==> !done[c]) && forall i :: 0 <= i < n ==> quad[i] == 0
    ensures Between(block, p, quad, f, done, done, n)
  {
    hide Start, TwoBytes, Meaningful, CacheOf;
    assert Halves(quad, n) by {
      forall r | 0 <= r < n + OVERSHOOT ensures quad[r] == 0 {
        if r >= n { assert quad[n + (r - n)] == quad[r - n]; }
      }
    }
  }

  /** Rotations that are all equal are listed from the first to the last. */
  ghost predicate Forwards(p: seq<int>) {
    forall x :: 0 <= x < |p| ==> p[x] == x
  }

  lemma UniformForwards(b: seq<byte>, p: seq<int>, c: int)
    requires Uniform(b, c) && |p| == |b| && forall k :: 0 <= k < |b| ==> p[Counting.Place(Keys(b), k)] == k
    ensures Forwards(p)
  {
    hide TwoBytes;
    forall i | 0 <= i < |b| ensures TwoBytes(b, i) == Bucket(c, c) {
      UniformKey(b, c, i);
    }
    forall x | 0 <= x < |b| ensures p[x] == x {
      Counting.PlacesOfSame(Keys(b), Bucket(c, c), x);
      assert p[Counting.Place(Keys(b), x)] == x;
    }
  }

  lemma UniformKey(b: seq<byte>, c: int, i: int)
    requires Uniform(b, c) && 0 <= i < |b|
    ensures TwoBytes(b, i) == Bucket(c, c)
  {
  }

  /** mainSort: the sorted rotations, unless the work budget runs out. */
  method Sort(ptr: array<int>, block: array<byte>, quadrant: array<int>, ftab: array<int>, nblock: nat, budget: int)
    returns (budget': int)
    requires ptr != quadrant && ptr != ftab && quadrant != ftab
    requires block as object !in {ptr as object, ftab as object, quadrant as object}
    requires OVERSHOOT < nblock <= 900000 && nblock + OVERSHOOT <= block.Length && nblock + OVERSHOOT <= quadrant.Length
    requires nblock <= ptr.Length && ftab.Length == 65537 && 0 <= budget
    modifies ptr, block, quadrant, ftab
    ensures block[..nblock] == old(block[..nblock]) && budget' <= budget
    ensures budget' >= 0 ==> InRotationOrder(block[..nblock], ptr[..nblock])
    ensures forall c :: Uniform(block[..nblock], c) ==> budget' == budget && Forwards(ptr[..nblock])
  {
    hide Between, Start, Comparable, Bucketed, InRotationOrder, RunningOrder.BigFreqs, KeptDone, Uniform, Forwards,
      Counting.Place;
    Radix(ptr, block, quadrant, ftab, nblock);
    ghost var b := block[..nblock];
    forall c | Uniform(b, c) ensures Forwards(ptr[..nblock]) {
      UniformForwards(b, ptr[..nblock], c);
    }
    var runningOrder, bigDone := new int[256], new bool[256];
    ClearDone(bigDone);
    RunningOrder.Order(runningOrder, ftab);
    assert block[..][..nblock] == block[..nblock];
    BetweenStart(block[..], ptr[..nblock], quadrant[..], ftab[..], bigDone[..], nblock);
    budget' := budget;
    ghost var ro, kept := runningOrder[..], bigDone[..];
    var i := 0;
    while i <= 255
      invariant 0 <= i <= 256 && 0 <= budget' <= budget && runningOrder[..] == ro
      invariant Between(block[..], ptr[..nblock], quadrant[..], ftab[..], bigDone[..], kept, nblock)
      invariant forall k :: 0 <= k < 256 ==> bigDone[ro[k]] == (k < i)
      invariant block[..nblock] == b == old(block[..nblock])
      invariant forall c :: Uniform(b, c) ==> budget' == budget && Forwards(ptr[..nblock])
    {
      var ss := runningOrder[i];
      assert ss == ro[i];
      budget', kept := BigPass(ptr, block, quadrant, ftab, bigDone, nblock, i, ss, budget', kept);
      if budget' < 0 {
        return;
      }
      i := i + 1;
    }
    forall c | 0 <= c < 256 ensures bigDone[..][c] {
      var k := PermOnto(ro, 256, c);
      assert bigDone[ro[k]];
    }
    BetweenEnd(block[..], ptr[..nblock], quadrant[..], ftab[..], bigDone[..], kept, nblock);
  }

  lemma BetweenEnd(block: seq<byte>, p: seq<int>, quad: seq<int>, f: seq<int>, done: seq<bool>, kept: seq<bool>, n: nat)
    requires Between(block, p, quad, f, done, kept, n) && |done| == 256 && forall c :: 0 <= c < 256 ==> done[c]
    ensures n <= |block| && InRotationOrder(block[..n], p)
  {
    hide Comparable, Bucketed, InRotationOrder, Tables, Marks, DoneMarked, Halves, Caches, KeptDone;
    AllSorted(block[..n], p, f, done);
  }

  method ClearDone(bigDone: array<bool>)
    requires bigDone.Length == 256
    modifies bigDone
    ensures forall c :: 0 <= c < 256 ==> !bigDone[c]
  {
    var i := 0;
    while i <= 255
      invariant 0 <= i <= 256 && forall c :: 0 <= c < i ==> !bigDone[c]
    {
      bigDone[i] := false;
      i := i + 1;
    }
  }
}
