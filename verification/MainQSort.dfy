/** mainQSort3: three-way radix quicksort on an explicit stack
    (dep/bzip2/blocksort.c:547-724). */
module MainQSort {
  import opened Rotations
  import opened RotationRank
  import opened MainCompare
  import opened MainSimpleSort
  import opened Segments
  import opened Powers
  import Q = FallbackQSort

  const SMALL_THRESH := 20
  const DEPTH_THRESH := 14
  const STACK_SIZE := 100

  // ---------- Characters at depth d ----------

  ghost function CharKeys(b: seq<byte>, d: nat): (key: seq<int>)
    ensures |key| == |b| && forall i :: 0 <= i < |b| ==> key[i] == b[Adv(|b|, i, d)]
  {
    seq(|b|, i requires 0 <= i < |b| => b[Adv(|b|, i, d)])
  }

  /** The wrapped block gives the character at depth d without a wrap-around. */
  lemma CharAt(b: seq<byte>, block: seq<byte>, x: int, d: nat)
    requires Wrapped(block, |b|) && block[..|b|] == b && 0 <= x < |b| && d < OVERSHOOT
    ensures x + d < |block| && block[x + d] == CharKeys(b, d)[x]
  {
    WrappedAt(block, |b|, x + d);
    assert block[..|b|][At(|b|, x + d)] == block[At(|b|, x + d)];
  }

  ghost predicate Ready(ptr: array<int>, block: array<byte>, b: seq<byte>, d: nat, lo: int, hi: int)
    reads ptr, block
  {
    && ptr as object != block as object && Wrapped(block[..], |b|) && block[..][..|b|] == b && d < OVERSHOOT
    && lo <= hi + 1 && Entries(ptr[..], CharKeys(b, d), lo, hi)
  }

  method CharOf(ptr: array<int>, block: array<byte>, k: int, d: nat, ghost b: seq<byte>, ghost lo: int, ghost hi: int)
    returns (c: int)
    requires Ready(ptr, block, b, d, lo, hi) && lo <= k <= hi
    ensures c == CharKeys(b, d)[ptr[k]]
  {
    CharAt(b, block[..], ptr[k], d);
    c := block[ptr[k] + d];
  }

  // ---------- Partitioning ----------

  method ScanUp(ptr: array<int>, block: array<byte>, d: nat, lo: int, hi: int, med: int,
                ltLo0: int, unLo0: int, unHi: int, gtHi: int, ghost b: seq<byte>, ghost f0: seq<int>)
    returns (ltLo: int, unLo: int)
    requires Ready(ptr, block, b, d, lo, hi) && Rearranged(f0, ptr[..], lo, hi + 1)
    requires Q.Zones(ptr[..], CharKeys(b, d), med, lo, hi, ltLo0, unLo0, unHi, gtHi)
    modifies ptr
    ensures Ready(ptr, block, b, d, lo, hi) && Rearranged(f0, ptr[..], lo, hi + 1)
    ensures Q.Zones(ptr[..], CharKeys(b, d), med, lo, hi, ltLo, unLo, unHi, gtHi)
    ensures unLo0 <= unLo && (unLo <= unHi ==> CharKeys(b, d)[ptr[unLo]] > med)
  {
    hide Rearranged, Swapped, Wrapped, CharKeys;
    ltLo, unLo := ltLo0, unLo0;
    while true
      invariant unLo0 <= unLo
      invariant Ready(ptr, block, b, d, lo, hi) && Rearranged(f0, ptr[..], lo, hi + 1)
      invariant Q.Zones(ptr[..], CharKeys(b, d), med, lo, hi, ltLo, unLo, unHi, gtHi)
      decreases unHi - unLo
    {
      if unLo > unHi {
        break;
      }
      var c := CharOf(ptr, block, unLo, d, b, lo, hi);
      var n := c - med;
      if n == 0 {
        Q.ZoneStepUp(ptr[..], CharKeys(b, d), med, lo, hi, ltLo, unLo, unHi, gtHi);
        Q.SwapWithin(ptr, CharKeys(b, d), unLo, ltLo, lo, hi, f0);
        ltLo, unLo := ltLo + 1, unLo + 1;
        continue;
      }
      if n > 0 {
        break;
      }
      unLo := unLo + 1;
    }
  }

  method ScanDown(ptr: array<int>, block: array<byte>, d: nat, lo: int, hi: int, med: int,
                  ltLo: int, unLo: int, unHi0: int, gtHi0: int, ghost b: seq<byte>, ghost f0: seq<int>)
    returns (unHi: int, gtHi: int)
    requires Ready(ptr, block, b, d, lo, hi) && Rearranged(f0, ptr[..], lo, hi + 1)
    requires Q.Zones(ptr[..], CharKeys(b, d), med, lo, hi, ltLo, unLo, unHi0, gtHi0)
    requires unLo <= unHi0 ==> CharKeys(b, d)[ptr[unLo]] > med
    modifies ptr
    ensures Ready(ptr, block, b, d, lo, hi) && Rearranged(f0, ptr[..], lo, hi + 1)
    ensures Q.Zones(ptr[..], CharKeys(b, d), med, lo, hi, ltLo, unLo, unHi, gtHi)
    ensures unHi <= unHi0
    ensures unLo <= unHi ==> unLo < unHi && CharKeys(b, d)[ptr[unLo]] > med && CharKeys(b, d)[ptr[unHi]] < med
  {
    hide Rearranged, Swapped, Wrapped, CharKeys;
    unHi, gtHi := unHi0, gtHi0;
    while true
      invariant unHi <= unHi0
      invariant Ready(ptr, block, b, d, lo, hi) && Rearranged(f0, ptr[..], lo, hi + 1)
      invariant Q.Zones(ptr[..], CharKeys(b, d), med, lo, hi, ltLo, unLo, unHi, gtHi)
      invariant unLo <= unHi ==> CharKeys(b, d)[ptr[unLo]] > med
      decreases unHi - unLo
    {
      if unLo > unHi {
        break;
      }
      var c := CharOf(ptr, block, unHi, d, b, lo, hi);
      var n := c - med;
      if n == 0 {
        Q.ZoneStepDown(ptr[..], CharKeys(b, d), med, lo, hi, ltLo, unLo, unHi, gtHi);
        Q.SwapWithin(ptr, CharKeys(b, d), unHi, gtHi, lo, hi, f0);
        gtHi, unHi := gtHi - 1, unHi - 1;
        continue;
      }
      if n < 0 {
        break;
      }
      unHi := unHi - 1;
    }
  }

  method Partition(ptr: array<int>, block: array<byte>, d: nat, lo: int, hi: int, med: int, ghost b: seq<byte>)
    returns (ltLo: int, unLo: int, unHi: int, gtHi: int)
    requires Ready(ptr, block, b, d, lo, hi) && lo <= hi
    requires exists k :: lo <= k <= hi && CharKeys(b, d)[ptr[k]] == med
    modifies ptr
    ensures Ready(ptr, block, b, d, lo, hi) && Rearranged(old(ptr[..]), ptr[..], lo, hi + 1)
    ensures unHi == unLo - 1
    ensures Q.Zones(ptr[..], CharKeys(b, d), med, lo, hi, ltLo, unLo, unHi, gtHi)
    ensures lo <= ltLo && gtHi <= hi && (lo < ltLo || gtHi < hi)
  {
    hide Rearranged, Swapped, Wrapped, CharKeys;
    ghost var f0, key := ptr[..], CharKeys(b, d);
    RearrangedSelf(f0, lo, hi + 1);
    unLo, ltLo := lo, lo;
    unHi, gtHi := hi, hi;
    while true
      invariant Ready(ptr, block, b, d, lo, hi) && Rearranged(f0, ptr[..], lo, hi + 1)
      invariant Q.Zones(ptr[..], key, med, lo, hi, ltLo, unLo, unHi, gtHi)
      decreases unHi - unLo
    {
      ltLo, unLo := ScanUp(ptr, block, d, lo, hi, med, ltLo, unLo, unHi, gtHi, b, f0);
      unHi, gtHi := ScanDown(ptr, block, d, lo, hi, med, ltLo, unLo, unHi, gtHi, b, f0);
      if unLo > unHi {
        break;
      }
      Q.ZoneExchange(ptr[..], key, med, lo, hi, ltLo, unLo, unHi, gtHi);
      Q.SwapWithin(ptr, key, unLo, unHi, lo, hi, f0);
      unLo, unHi := unLo + 1, unHi - 1;
    }
    Q.PivotPlaced(f0, ptr[..], key, med, lo, hi, ltLo, unLo, unHi, gtHi);
  }

  /** The middle of three. */
  method Med3(a: int, b: int, c: int) returns (m: int)
    ensures m in {a, b, c}
    ensures (a <= m && b <= m) || (a <= m && c <= m) || (b <= m && c <= m)
    ensures (m <= a && m <= b) || (m <= a && m <= c) || (m <= b && m <= c)
  {
    var x, y := a, b;
    if x > y {
      x, y := y, x;
    }
    if y > c {
      y := c;
      if x > y {
        y := x;
      }
    }
    m := y;
  }

  // ---------- What a partition settles ----------

  /** Rotations that agree on d characters are ordered by the next one where it differs. */
  lemma CharDecides(b: seq<byte>, i: int, j: int, d: nat)
    requires Same(b, i, j, d)
    ensures CharKeys(b, d)[i] < CharKeys(b, d)[j] ==> Rank(b, i) <= Rank(b, j)
    ensures CharKeys(b, d)[i] == CharKeys(b, d)[j] ==> Same(b, i, j, d + 1)
  {
    hide Cmp, Rank;
    CmpMore(b, i, j, d);
    if CharKeys(b, d)[i] < CharKeys(b, d)[j] {
      RankByPrefix(b, i, j, d + 1);
    }
  }

  /** Positions with one and the same character are alike one character further. */
  lemma AlikeDeeper(b: seq<byte>, f: seq<int>, lo: int, hi: int, d: nat, med: int)
    requires Alike(b, f, lo, hi, d) && d <= DEPTH_THRESH && Entries(f, CharKeys(b, d), lo, hi)
    requires forall k :: lo <= k <= hi ==> CharKeys(b, d)[f[k]] == med
    ensures Alike(b, f, lo, hi, d + 1)
  {
    hide Same, CharKeys;
    forall x, y | lo <= x <= hi && lo <= y <= hi ensures Same(b, f[x], f[y], d + 1) {
      assert Same(b, f[x], f[y], d);
      CharDecides(b, f[x], f[y], d);
    }
  }

  /** The three parts of a partition, with their depths. */
  function Parts(top: Segment, n: int, m: int): (s: seq<Segment>)
    ensures |s| == 3
  {
    [Segment(top.lo, n, top.depth), Segment(m, top.hi, top.depth), Segment(n + 1, m - 1, top.depth + 1)]
  }

  /** After the partition only pairs within a part may be out of order. */
  lemma PartitionSettles(b: seq<byte>, f: seq<int>, top: Segment, d: nat, med: int, n: int, m: int, new_: seq<Segment>)
    requires top.depth == d && Alike(b, f, top.lo, top.hi, d) && Entries(f, CharKeys(b, d), top.lo, top.hi)
    requires Q.Partitioned(f, CharKeys(b, d), med, top.lo, top.hi, n, m) && top.lo <= n + 1 < m <= top.hi + 1
    requires forall s :: s in Parts(top, n, m) ==> s in new_
    ensures Entries(f, Ranks(b), top.lo, top.hi)
    ensures forall x, y :: top.lo <= x < y <= top.hi ==> InOrder(f, Ranks(b), x, y) || Covered(new_, x, y)
  {
    hide Same, CharKeys, Rank;
    AlikeEntries(b, f, top.lo, top.hi, d);
    var parts := Parts(top, n, m);
    assert parts[0] in new_ && parts[1] in new_ && parts[2] in new_;
    forall x, y | top.lo <= x < y <= top.hi ensures InOrder(f, Ranks(b), x, y) || Covered(new_, x, y) {
      if y <= n {
        InPart(new_, parts[0], x, y);
      } else if m <= x {
        InPart(new_, parts[1], x, y);
      } else if n < x && y < m {
        InPart(new_, parts[2], x, y);
      } else {
        assert Same(b, f[x], f[y], d);
        CharDecides(b, f[x], f[y], d);
      }
    }
  }

  lemma InPart(st: seq<Segment>, s: Segment, x: int, y: int)
    requires s in st && s.lo <= x && y <= s.hi
    ensures Covered(st, x, y)
  {
    var k :| 0 <= k < |st| && st[k] == s;
  }

  // ---------- The explicit stack ----------

  /** Each entry's rotations agree on as many characters as it says. */
  ghost predicate AllAlike(b: seq<byte>, f: seq<int>, st: seq<Segment>) {
    forall k :: 0 <= k < |st| ==> st[k].depth >= 0 && Alike(b, f, st[k].lo, st[k].hi, st[k].depth)
  }

  /** Two places up the stack, the size is at most halved. */
  ghost predicate Shrinking(st: seq<Segment>, total: int) {
    forall i :: 0 <= i < |st| ==> st[i].Size() * Pow2(i / 2) <= total
  }

  ghost function Weight(s: Segment): int {
    4 * s.Size() * (17 - s.depth) + 1
  }

  ghost function Work(st: seq<Segment>): (w: int) {
    if st == [] then 0 else Work(st[..|st| - 1]) + Weight(st[|st| - 1])
  }

  /** The places on the stack. */
  ghost function Sizes(st: seq<Segment>): (n: int) {
    if st == [] then 0 else Sizes(st[..|st| - 1]) + st[|st| - 1].Size()
  }

  lemma {:induction false} WorkNat(b: seq<byte>, f: seq<int>, st: seq<Segment>, lo: int, hi: int)
    requires AllAlike(b, f, st) && Within(st, lo, hi)
    ensures Work(st) >= 0 && Sizes(st) >= 0
  {
    hide Same;
    if st != [] {
      var n := |st| - 1;
      WorkNat(b, f, st[..n], lo, hi);
      var s := st[n];
      assert Alike(b, f, s.lo, s.hi, s.depth);
      WeightNat(s);
    }
  }

  lemma WeightNat(s: Segment)
    requires s.depth <= 15 && 0 <= s.Size()
    ensures Weight(s) >= 1
  {
    MulMonotone(0, 17 - s.depth, s.Size());
    assert 4 * s.Size() * (17 - s.depth) == 4 * ((17 - s.depth) * s.Size());
  }

  /** The three parts together weigh less than the whole. */
  lemma PartsWeigh(top: Segment, n: int, m: int)
    requires top.lo <= n + 1 < m <= top.hi + 1
    ensures Weight(Parts(top, n, m)[0]) + Weight(Parts(top, n, m)[1]) + Weight(Parts(top, n, m)[2]) < Weight(top)
  {
    var a, c, e, k := n - top.lo + 1, top.hi - m + 1, m - 1 - n, 17 - top.depth;
    assert top.Size() == a + c + e;
    Distribute(4 * a + 4 * c, 4 * e, k);
    Distribute(4 * a, 4 * c, k);
    Distribute(k, -1, 4 * e);
    assert Weight(Parts(top, n, m)[2]) == 4 * e * (k - 1) + 1;
    assert (4 * a + 4 * c + 4 * e) * k == 4 * (a + c + e) * k;
  }

  /** A segment worth partitioning sits low on the stack. */
  lemma DepthBound(size: int, i: nat, total: int)
    requires 21 <= size && size * Pow2(i / 2) <= total <= 2000000
    ensures i < 40
  {
    if i >= 40 {
      Pow2Monotone(20, i / 2);
      MulMonotone(21, size, Pow2(i / 2));
      Pow20();
    }
  }

  lemma Pow20()
    ensures Pow2(20) == 0x10_0000
  {
    assert Pow2(5) == 32 && Pow2(10) == 1024;
    Pow2Add(10, 10);
  }

  /** What holds every time round the main loop. */
  ghost predicate Sorting(b: seq<byte>, f0: seq<int>, f: seq<int>, st: seq<Segment>, lo: int, hi: int) {
    && lo <= hi + 1 && hi - lo < 2000000 && Entries(f, Ranks(b), lo, hi) && Rearranged(f0, f, lo, hi + 1)
    && Disjoint(st) && Within(st, lo, hi) && Shrinking(st, hi - lo + 1)
    && SortedExcept(f, Ranks(b), st, lo, hi) && AllAlike(b, f, st)
  }

  lemma SortingStart(b: seq<byte>, f: seq<int>, lo: int, hi: int, d: nat)
    requires lo <= hi + 1 && hi - lo < 2000000 && Alike(b, f, lo, hi, d)
    ensures Sorting(b, f, f, [Segment(lo, hi, d)], lo, hi)
  {
    hide Same, Rank;
    var st := [Segment(lo, hi, d)];
    AlikeEntries(b, f, lo, hi, d);
    forall x, y | lo <= x < y <= hi ensures Covered(st, x, y) {
      assert st[0].lo <= x && y <= st[0].hi;
    }
  }

  lemma SortingTop(b: seq<byte>, f0: seq<int>, f: seq<int>, rest: seq<Segment>, top: Segment, lo: int, hi: int)
    requires Sorting(b, f0, f, rest + [top], lo, hi)
    ensures 0 <= lo <= top.lo <= top.hi + 1 && top.hi <= hi < |f| && 0 <= top.depth && hi - lo < 2000000
    ensures Alike(b, f, top.lo, top.hi, top.depth)
    ensures top.hi - top.lo >= SMALL_THRESH ==> |rest| < 40
  {
    hide Same, Rank, Rearranged, SortedExcept, Alike;
    var st := rest + [top];
    assert st[|rest|] == top;
    AlikeSize(b, f, top.lo, top.hi, top.depth);
    if top.hi - top.lo >= SMALL_THRESH {
      DepthBound(top.Size(), |rest|, hi - lo + 1);
    }
  }

  /** The other segments stay alike when one segment is rearranged. */
  lemma OthersAlike(b: seq<byte>, f: seq<int>, g: seq<int>, rest: seq<Segment>, top: Segment)
    requires AllAlike(b, f, rest + [top]) && Disjoint(rest + [top]) && Rearranged(f, g, top.lo, top.hi + 1)
    ensures AllAlike(b, g, rest)
  {
    hide Same, Rearranged;
    var st := rest + [top];
    RearrangedSize(f, g, top.lo, top.hi + 1);
    forall k | 0 <= k < |rest| ensures rest[k].depth >= 0 && Alike(b, g, rest[k].lo, rest[k].hi, rest[k].depth) {
      assert st[k] == rest[k] && st[|rest|] == top && Apart(st[k], st[|rest|]);
      forall x | rest[k].lo <= x <= rest[k].hi ensures f[x] == g[x] {
        RearrangedOutside(f, g, top.lo, top.hi + 1, x);
      }
    }
  }

  /** The top segment was rearranged and replaced by `new_`, smallest last. */
  lemma SortingNext(b: seq<byte>, f0: seq<int>, f: seq<int>, g: seq<int>, rest: seq<Segment>, top: Segment,
                    new_: seq<Segment>, lo: int, hi: int)
    requires Sorting(b, f0, f, rest + [top], lo, hi)
    requires Rearranged(f, g, top.lo, top.hi + 1) && AllAlike(b, g, new_)
    requires Entries(g, Ranks(b), top.lo, top.hi)
    requires forall x, y :: top.lo <= x < y <= top.hi ==> InOrder(g, Ranks(b), x, y) || Covered(new_, x, y)
    requires Fits(new_, top)
    ensures Sorting(b, f0, g, rest + new_, lo, hi)
    ensures Work(new_) < Weight(top) ==> 0 <= Work(rest + new_) < Work(rest + [top])
    ensures Sizes(new_) == top.Size() ==> 0 <= Sizes(rest + new_) == Sizes(rest + [top])
  {
    hide Same, Rank, Rearranged, InOrder, Alike, Fits, AllAlike, Work, Shrinking, Sizes;
    SortingTop(b, f0, f, rest, top, lo, hi);
    Q.EntriesKept(f, g, Ranks(b), top.lo, top.hi, lo, hi);
    RearrangedWiden(f, g, top.lo, top.hi + 1, lo, hi + 1);
    RearrangedTransitive(f0, f, g, lo, hi + 1);
    Refine(f, g, Ranks(b), rest, top, new_, lo, hi);
    OthersAlike(b, f, g, rest, top);
    BothAlike(b, g, rest, new_);
    FitsDisjoint(rest, top, new_, lo, hi);
    FitsShrinking(rest, top, new_, hi - lo + 1);
    WorkNat(b, g, rest + new_, lo, hi);
    WorkConcat(rest, new_);
    WorkConcat(rest, [top]);
    WorkOne(top);
  }

  lemma WorkOne(s: Segment)
    ensures Work([s]) == Weight(s) && Sizes([s]) == s.Size()
  {
    assert [s][..0] == [];
  }

  lemma {:induction false} WorkConcat(a: seq<Segment>, c: seq<Segment>)
    ensures Work(a + c) == Work(a) + Work(c) && Sizes(a + c) == Sizes(a) + Sizes(c)
  {
    if c == [] {
      assert a + c == a;
    } else {
      WorkConcat(a, c[..|c| - 1]);
      assert (a + c)[..|a + c| - 1] == a + c[..|c| - 1];
    }
  }

  lemma BothAlike(b: seq<byte>, f: seq<int>, a: seq<Segment>, c: seq<Segment>)
    requires AllAlike(b, f, a) && AllAlike(b, f, c)
    ensures AllAlike(b, f, a + c)
  {
    hide Alike;
    forall k | 0 <= k < |a + c| ensures (a + c)[k].depth >= 0 && Alike(b, f, (a + c)[k].lo, (a + c)[k].hi, (a + c)[k].depth) {
      if k >= |a| {
        assert (a + c)[k] == c[k - |a|];
      }
    }
  }

  /** At most three parts of `top`, apart from each other, the second at most half and the third
      at most half of it. */
  ghost predicate Fits(new_: seq<Segment>, top: Segment) {
    && |new_| <= 3 && Disjoint(new_)
    && (forall k :: 0 <= k < |new_| ==> top.lo <= new_[k].lo <= new_[k].hi + 1 && new_[k].hi <= top.hi)
    && (forall k :: 1 <= k < |new_| ==> 2 * new_[k].Size() <= top.Size())
  }

  lemma FitsDisjoint(rest: seq<Segment>, top: Segment, new_: seq<Segment>, lo: int, hi: int)
    requires Disjoint(rest + [top]) && Within(rest + [top], lo, hi) && Fits(new_, top)
    ensures Disjoint(rest + new_) && Within(rest + new_, lo, hi)
  {
    var st, st' := rest + [top], rest + new_;
    assert st[|rest|] == top;
    assert forall k :: 0 <= k < |rest| ==> st[k] == rest[k] == st'[k];
    assert forall k :: |rest| <= k < |st'| ==> st'[k] == new_[k - |rest|];
    forall i, j | 0 <= i < j < |st'| ensures Apart(st'[i], st'[j]) {
      if i < |rest| {
        assert Apart(st[i], st[if j < |rest| then j else |rest|]);
      } else {
        assert Apart(new_[i - |rest|], new_[j - |rest|]);
      }
    }
  }

  lemma FitsShrinking(rest: seq<Segment>, top: Segment, new_: seq<Segment>, total: int)
    requires Shrinking(rest + [top], total) && Fits(new_, top)
    ensures Shrinking(rest + new_, total)
  {
    hide Disjoint;
    var st, st' := rest + [top], rest + new_;
    var r := |rest|;
    assert st[r] == top;
    forall i | 0 <= i < |st'| ensures st'[i].Size() * Pow2(i / 2) <= total {
      if i < r {
        assert st'[i] == st[i];
      } else {
        var s := new_[i - r];
        assert st'[i] == s && top.Size() * Pow2(r / 2) <= total;
        if i == r {
          MulMonotone(s.Size(), top.Size(), Pow2(r / 2));
        } else {
          Pow2Monotone(i / 2, r / 2 + 1);
          HalfSize(s.Size(), top.Size(), Pow2(i / 2), Pow2(r / 2));
        }
      }
    }
  }

  lemma HalfSize(x: int, z: int, p: nat, q: nat)
    requires 0 <= x && 2 * x <= z && p <= 2 * q
    ensures x * p <= z * q
  {
    MulMonotone(p, 2 * q, x);
    MulMonotone(2 * x, z, q);
    assert p * x == x * p && 2 * q * x == 2 * x * q;
  }

  lemma SortingEnd(b: seq<byte>, f0: seq<int>, f: seq<int>, lo: int, hi: int)
    requires Sorting(b, f0, f, [], lo, hi)
    ensures Entries(f, Ranks(b), lo, hi) && Rearranged(f0, f, lo, hi + 1)
    ensures forall x, y :: lo <= x < y <= hi ==> InOrder(f, Ranks(b), x, y)
  {
  }

  // ---------- The sort ----------

  /** Three parts that make up `top`. */
  ghost predicate MakeUp(top: Segment, a: Segment, b: Segment, c: Segment) {
    && Inside(top, a) && Inside(top, b) && Inside(top, c)
    && Apart(a, b) && Apart(a, c) && Apart(b, c)
    && a.Size() + b.Size() + c.Size() == top.Size()
    && Weight(a) + Weight(b) + Weight(c) < Weight(top)
  }

  ghost predicate Inside(top: Segment, s: Segment) {
    top.lo <= s.lo <= s.hi + 1 && s.hi <= top.hi
  }

  lemma MakeUpFits(top: Segment, a: Segment, b: Segment, c: Segment)
    requires MakeUp(top, a, b, c) && a.Size() >= b.Size() >= c.Size()
    ensures Fits([a, b, c], top) && Work([a, b, c]) < Weight(top) && Sizes([a, b, c]) == top.Size()
  {
    hide Weight, Work, Sizes;
    WorkThree(a, b, c);
  }

  lemma PartsMakeUp(top: Segment, n: int, m: int)
    requires top.lo <= n + 1 < m <= top.hi + 1
    ensures MakeUp(top, Parts(top, n, m)[0], Parts(top, n, m)[1], Parts(top, n, m)[2])
  {
    hide Weight;
    PartsWeigh(top, n, m);
  }

  /** nextLo/nextHi/nextD put in order of falling size. */
  method BySize(top: Segment, n: int, m: int) returns (next: seq<Segment>)
    requires top.lo <= n + 1 < m <= top.hi + 1
    ensures |next| == 3 && Fits(next, top) && (forall s :: s in Parts(top, n, m) <==> s in next)
    ensures Work(next) < Weight(top) && Sizes(next) == top.Size()
    ensures next[0].Size() >= next[1].Size() >= next[2].Size()
  {
    hide Weight, Work, Fits, Inside, Sizes;
    PartsMakeUp(top, n, m);
    var parts := Parts(top, n, m);
    var a, b, c := parts[0], parts[1], parts[2];
    assert parts == [a, b, c];
    if a.Size() < b.Size() {
      a, b := b, a;
    }
    if b.Size() < c.Size() {
      b, c := c, b;
    }
    if a.Size() < b.Size() {
      a, b := b, a;
    }
    MakeUpFits(top, a, b, c);
    next := [a, b, c];
  }

  lemma WorkThree(a: Segment, b: Segment, c: Segment)
    ensures Work([a, b, c]) == Weight(a) + Weight(b) + Weight(c)
    ensures Sizes([a, b, c]) == a.Size() + b.Size() + c.Size()
  {
    hide Weight, Work, Sizes;
    WorkOne(a);
    WorkOne(b);
    WorkOne(c);
    WorkConcat([a], [b]);
    WorkConcat([a, b], [c]);
    assert [a] + [b] == [a, b] && [a, b] + [c] == [a, b, c];
  }

  /** The parts are alike at their depths. */
  lemma PartsAlike(b: seq<byte>, f: seq<int>, top: Segment, d: nat, med: int, n: int, m: int, new_: seq<Segment>)
    requires top.depth == d <= DEPTH_THRESH && Alike(b, f, top.lo, top.hi, d)
      && Entries(f, CharKeys(b, d), top.lo, top.hi)
    requires Q.Partitioned(f, CharKeys(b, d), med, top.lo, top.hi, n, m) && top.lo <= n + 1 < m <= top.hi + 1
    requires forall s :: s in new_ ==> s in Parts(top, n, m)
    ensures AllAlike(b, f, new_)
  {
    hide Alike, CharKeys;
    AlikePart(b, f, top.lo, top.hi, top.lo, n, d);
    AlikePart(b, f, top.lo, top.hi, m, top.hi, d);
    AlikePart(b, f, top.lo, top.hi, n + 1, m - 1, d);
    AlikeDeeper(b, f, n + 1, m - 1, d, med);
    forall k | 0 <= k < |new_| ensures new_[k].depth >= 0 && Alike(b, f, new_[k].lo, new_[k].hi, new_[k].depth) {
      assert new_[k] in Parts(top, n, m);
    }
  }

  /** Only the pivot's character occurs: go one character deeper. */
  lemma AllEqual(b: seq<byte>, f: seq<int>, top: Segment, d: nat, med: int, ltLo: int, unLo: int, unHi: int, gtHi: int)
    requires top.depth == d <= DEPTH_THRESH && Alike(b, f, top.lo, top.hi, d)
      && Entries(f, CharKeys(b, d), top.lo, top.hi)
    requires Q.Zones(f, CharKeys(b, d), med, top.lo, top.hi, ltLo, unLo, unHi, gtHi)
    requires unHi == unLo - 1 && gtHi < ltLo && top.lo < top.hi
    ensures var new_ := [Segment(top.lo, top.hi, d + 1)];
      AllAlike(b, f, new_) && Fits(new_, top) && Work(new_) < Weight(top) && Sizes(new_) == top.Size()
      && forall x, y :: top.lo <= x < y <= top.hi ==> Covered(new_, x, y)
  {
    hide Alike, CharKeys;
    var s := Segment(top.lo, top.hi, d + 1);
    AlikeDeeper(b, f, top.lo, top.hi, d, med);
    forall x, y | top.lo <= x < y <= top.hi ensures Covered([s], x, y) {
      InPart([s], s, x, y);
    }
    WorkOne(s);
    assert 4 * top.Size() * (17 - d) == 4 * top.Size() * (17 - (d + 1)) + 4 * top.Size();
  }

  /** A small or deep segment was sorted outright. */
  lemma SortingSmall(b: seq<byte>, f0: seq<int>, f: seq<int>, g: seq<int>, rest: seq<Segment>, top: Segment, lo: int, hi: int)
    requires Sorting(b, f0, f, rest + [top], lo, hi)
    requires Rearranged(f, g, top.lo, top.hi + 1) && Entries(g, Ranks(b), top.lo, top.hi)
    requires forall x, y :: top.lo <= x < y <= top.hi ==> InOrder(g, Ranks(b), x, y)
    ensures Sorting(b, f0, g, rest, lo, hi) && 0 <= Work(rest) < Work(rest + [top])
    ensures 0 <= Sizes(rest) == Sizes(rest + [top]) - top.Size()
  {
    hide Alike, Rank, InOrder, Sorting;
    WorkConcat(rest, [top]);
    WorkOne(top);
    RestNat(b, f0, f, rest, top, lo, hi);
    assert rest + [] == rest;
    SortingTop(b, f0, f, rest, top, lo, hi);
    AlikeSize(b, f, top.lo, top.hi, top.depth);
    AlikeEntries(b, f, top.lo, top.hi, top.depth);
    WeightNat(top);
    SortingNext(b, f0, f, g, rest, top, [], lo, hi);
  }

  lemma RestNat(b: seq<byte>, f0: seq<int>, f: seq<int>, rest: seq<Segment>, top: Segment, lo: int, hi: int)
    requires Sorting(b, f0, f, rest + [top], lo, hi)
    ensures Sizes(rest) >= 0
  {
    hide Alike, Rank, InOrder, Rearranged, SortedExcept;
    var st := rest + [top];
    assert forall k :: 0 <= k < |rest| ==> rest[k] == st[k];
    WorkNat(b, f, rest, lo, hi);
  }

  /** mainQSort3: the rotations in ptr[loSt..hiSt], alike up to depth dSt, come into order unless
      the budget runs out.  The stack assertion (code 1001) is an assertion here. */
  method QSort3(ptr: array<int>, block: array<byte>, quadrant: array<int>, nblock: nat, loSt: int, hiSt: int, dSt: nat,
                budget: int)
    returns (budget': int)
    requires ptr != quadrant && ptr as object != block as object
    requires Comparable(block[..], quadrant[..], nblock) && nblock <= block.Length
    requires loSt <= hiSt + 1 && hiSt - loSt < 2000000 && Alike(block[..nblock], ptr[..], loSt, hiSt, dSt)
    modifies ptr
    ensures Rearranged(old(ptr[..]), ptr[..], loSt, hiSt + 1)
    ensures 0 <= budget - budget' <= MostCost(nblock, hiSt - loSt + 1)
    ensures Entries(ptr[..], Ranks(block[..nblock]), loSt, hiSt)
    ensures budget' >= 0 ==> forall x, y :: loSt <= x < y <= hiSt ==> InOrder(ptr[..], Ranks(block[..nblock]), x, y)
  {
    hide *;
    ghost var b, f0 := block[..nblock], ptr[..];
    QSortSetup(block[..], quadrant[..], nblock);
    AlikeEntries(b, f0, loSt, hiSt, dSt);
    AlikeSize(b, f0, loSt, hiSt, dSt);
    budget' := budget;
    var stack := [Segment(loSt, hiSt, dSt)];
    SortingStart(b, f0, loSt, hiSt, dSt);
    ghost var total := hiSt - loSt + 1;
    SizeIs(stack[0]);
    CostStart(stack, nblock, total);
    while |stack| > 0
      invariant |stack| <= 43 && 0 <= Sizes(stack) <= total
      invariant 0 <= budget - budget' <= 13 * Grid(nblock, total, total - Sizes(stack))
      invariant Sorting(b, f0, ptr[..], stack, loSt, hiSt)
      decreases Work(stack)
    {
      assert |stack| < STACK_SIZE - 2 by { StackConstant(); }  // AssertH 1001
      var top := stack[|stack| - 1];
      var rest := stack[..|stack| - 1];
      assert stack == rest + [top];
      ghost var f := ptr[..];
      SortingTop(b, f0, f, rest, top, loSt, hiSt);
      var lo, hi, d := top.lo, top.hi, top.depth;
      stack := rest;
      if hi - lo < SMALL_THRESH || d > DEPTH_THRESH {
        SizeIs(top);
        RestNat(b, f0, f, rest, top, loSt, hiSt);
        CostSmall(nblock, total, total - Sizes(rest + [top]), rest, top);
        budget' := SimpleSort(ptr, block, quadrant, nblock, lo, hi, d, budget');
        CostWhole(nblock, total, total - Sizes(rest));
        if budget' < 0 {
          Abandon(b, f0, f, ptr[..], rest, top, loSt, hiSt);
          return;
        }
        SortingSmall(b, f0, f, ptr[..], rest, top, loSt, hiSt);
        continue;
      }
      stack, budget' := Split(ptr, block, nblock, rest, top, budget', b, f0, loSt, hiSt);
    }
    assert stack == [];
    CostWhole(nblock, total, total - Sizes(stack));
    SortingEnd(b, f0, ptr[..], loSt, hiSt);
  }

  lemma SizeIs(s: Segment)
    ensures s.Size() == s.hi - s.lo + 1
  {
  }

  lemma CostStart(stack: seq<Segment>, n: nat, total: nat)
    requires |stack| == 1 && stack[0].Size() == total
    ensures Sizes(stack) == total && Grid(n, total, 0) == 0
  {
    WorkOne(stack[0]);
    assert stack == [stack[0]];
    GridNext(n, total, 0);
  }

  /** A segment sorted outright costs no more than its share. */
  lemma CostSmall(n: nat, total: nat, k: nat, rest: seq<Segment>, top: Segment)
    requires 0 <= top.Size() <= total && k + Sizes(rest + [top]) == total && Sizes(rest) >= 0
    ensures k <= total - Sizes(rest) <= total
    ensures 13 * Grid(n, total, k) + MostCost(n, top.Size()) <= 13 * Grid(n, total, total - Sizes(rest))
  {
    hide Grid;
    WorkConcat(rest, [top]);
    WorkOne(top);
    GridAdd(n, total, k, top.Size(), top.Size());
  }

  lemma CostWhole(n: nat, total: nat, k: nat)
    requires k <= total
    ensures 13 * Grid(n, total, k) <= MostCost(n, total)
  {
    hide Grid;
    GridGrows(n, total, k, total);
  }

  lemma StackConstant()
    ensures STACK_SIZE == 100
  {
  }

  lemma QSortSetup(block: seq<byte>, quad: seq<int>, n: nat)
    requires Comparable(block, quad, n)
    ensures 34 < n <= |block| && Wrapped(block, n)
  {
  }

  lemma Abandon(b: seq<byte>, f0: seq<int>, f: seq<int>, g: seq<int>, rest: seq<Segment>, top: Segment, lo: int, hi: int)
    requires Sorting(b, f0, f, rest + [top], lo, hi) && Rearranged(f, g, top.lo, top.hi + 1)
    requires lo <= top.lo && top.hi <= hi && 0 <= lo && hi < |f|
    ensures Rearranged(f0, g, lo, hi + 1) && Entries(g, Ranks(b), lo, hi)
  {
    hide Rearranged, Rank, Alike, Disjoint, Within, Shrinking, SortedExcept;
    RearrangedWiden(f, g, top.lo, top.hi + 1, lo, hi + 1);
    RearrangedTransitive(f0, f, g, lo, hi + 1);
    Q.EntriesKept(f, g, Ranks(b), lo, hi, lo, hi);
  }

  /** One partition: the parts go onto the stack, the largest first. */
  method Split(ptr: array<int>, block: array<byte>, nblock: nat, rest: seq<Segment>, top: Segment, budget: int,
               ghost b: seq<byte>, ghost f0: seq<int>, ghost loSt: int, ghost hiSt: int)
    returns (stack: seq<Segment>, budget': int)
    requires ptr as object != block as object && Wrapped(block[..], nblock) && nblock <= block.Length
      && b == block[..nblock]
    requires Sorting(b, f0, ptr[..], rest + [top], loSt, hiSt)
    requires 0 <= loSt <= top.lo && top.hi <= hiSt < ptr.Length && |rest| < 40
    requires top.hi - top.lo >= SMALL_THRESH && 0 <= top.depth <= DEPTH_THRESH
    requires Alike(b, ptr[..], top.lo, top.hi, top.depth)
    modifies ptr
    ensures Sorting(b, f0, ptr[..], stack, loSt, hiSt)
    ensures |stack| <= 43 && 0 <= Work(stack) < Work(rest + [top]) && budget' == budget
    ensures 0 <= Sizes(stack) == Sizes(rest + [top])
  {
    hide Sorting, Alike, CharKeys, Wrapped, Rearranged, Q.Zones, Q.Partitioned, Work, Weight, Sizes, Fits, AllAlike, InOrder,
      Covered, Ranks;
    budget' := budget;
    ghost var f := ptr[..];
    var lo, hi, d := top.lo, top.hi, top.depth;
    AlikeEntries(b, f, lo, hi, d);
    WrappedSize(block[..], nblock);
    assert block[..][..nblock] == b;
    var c0 := CharOf(ptr, block, lo, d, b, lo, hi);
    var c1 := CharOf(ptr, block, hi, d, b, lo, hi);
    var c2 := CharOf(ptr, block, (lo + hi) / 2, d, b, lo, hi);
    var med := Med3(c0, c1, c2);
    var ltLo, unLo, unHi, gtHi := Partition(ptr, block, d, lo, hi, med, b);
    ghost var f1 := ptr[..];
    AlikeKept(b, f, f1, lo, hi, d);
    AlikeEntries(b, f1, lo, hi, d);
    if gtHi < ltLo {
      AllEqual(b, f1, top, d, med, ltLo, unLo, unHi, gtHi);
      stack := rest + [Segment(lo, hi, d + 1)];
      SortingNext(b, f0, f, f1, rest, top, [Segment(lo, hi, d + 1)], loSt, hiSt);
      return;
    }
    ZonesOrder(f1, CharKeys(b, d), med, lo, hi, ltLo, unLo, unHi, gtHi);
    var n, m := Q.Gather(ptr, CharKeys(b, d), lo, hi, med, ltLo, unLo, unHi, gtHi);
    ghost var g := ptr[..];
    RearrangedTransitive(f, f1, g, lo, hi + 1);
    AlikeKept(b, f1, g, lo, hi, d);
    var next := BySize(top, n, m);
    PartitionSettles(b, g, top, d, med, n, m, next);
    PartsAlike(b, g, top, d, med, n, m, next);
    SortingNext(b, f0, f, g, rest, top, next, loSt, hiSt);
    stack := rest + [next[0]] + [next[1]] + [next[2]];
    assert stack == rest + next;
  }

  lemma ZonesOrder(f: seq<int>, key: seq<int>, med: int, lo: int, hi: int, ltLo: int, unLo: int, unHi: int, gtHi: int)
    requires Entries(f, key, lo, hi) && Q.Zones(f, key, med, lo, hi, ltLo, unLo, unHi, gtHi)
    ensures lo <= ltLo <= unLo <= unHi + 1 && unHi <= gtHi <= hi
  {
  }
}
