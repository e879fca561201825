/** The three-way quicksort of the fallback sorter (dep/bzip2/blocksort.c:30-180). */
module FallbackQSort {
  import opened Segments
  import opened Powers

  const SMALL_THRESH := 10
  const STACK_SIZE := 100

  /** The index array and the key array of one call: distinct arrays, entries in range. */
  ghost predicate Sortable(fmap: array<int>, eclass: array<int>, lo: int, hi: int)
    reads fmap, eclass
  {
    && fmap != eclass
    && lo <= hi + 1
    && Entries(fmap[..], eclass[..], lo, hi)
  }

  /** All slots have the same key. */
  ghost predicate Tied(f: seq<int>, key: seq<int>, lo: int, hi: int) {
    && Entries(f, key, lo, hi)
    && forall x, y :: lo <= x <= hi && lo <= y <= hi ==> key[f[x]] == key[f[y]]
  }

  /** All slots have the key `med`. */
  ghost predicate TiedTo(f: seq<int>, key: seq<int>, lo: int, hi: int, med: int) {
    Entries(f, key, lo, hi) && forall x :: lo <= x <= hi ==> key[f[x]] == med
  }

  lemma TiedPart(f: seq<int>, key: seq<int>, lo: int, hi: int, i: int)
    requires Tied(f, key, lo, hi) && lo <= i <= hi
    ensures Tied(f, key, i, hi)
  {
  }

  lemma EntriesKept(f: seq<int>, g: seq<int>, key: seq<int>, lo: int, hi: int, lo': int, hi': int)
    requires Entries(f, key, lo', hi') && lo' <= lo && hi <= hi'
    requires Rearranged(f, g, lo, hi + 1)
    ensures Entries(g, key, lo', hi')
  {
    forall k | lo' <= k <= hi' ensures 0 <= g[k] < |key| {
      if lo <= k <= hi {
        var k' := RearrangedMember(f, g, lo, hi + 1, k);
      } else {
        RearrangedOutside(f, g, lo, hi + 1, k);
      }
    }
  }

  /** The index array while an insertion is under way: `g` is the array with `tmp` put back
      at `hole`; what was passed over is smaller, and all but the hole is in order. */
  ghost predicate Inserting(g: seq<int>, key: seq<int>, i: int, hole: int, hi: int)
    requires Entries(g, key, i, hi)
  {
    && i <= hole <= hi
    && (forall x :: i <= x < hole ==> key[g[x]] < key[g[hole]])
    && (forall x, y :: i <= x < y <= hi && x != hole && y != hole ==> InOrder(g, key, x, y))
  }

  lemma InsertingStep(g: seq<int>, key: seq<int>, i: int, hole: int, hi: int)
    requires Entries(g, key, i, hi) && Inserting(g, key, i, hole, hi) && hole < hi
    requires key[g[hole]] > key[g[hole + 1]]
    ensures var g' := Swapped(g, hole, hole + 1);
            Entries(g', key, i, hi) && Inserting(g', key, i, hole + 1, hi)
  {
    var g' := Swapped(g, hole, hole + 1);
    forall x, y | i <= x < y <= hi && x != hole + 1 && y != hole + 1 ensures InOrder(g', key, x, y) {
      assert InOrder(g, key, if x == hole then hole + 1 else x, if y == hole then hole + 1 else y)
        || (x != hole && y == hole);
    }
  }

  lemma InsertingDone(g: seq<int>, key: seq<int>, i: int, hole: int, hi: int)
    requires Entries(g, key, i, hi) && Inserting(g, key, i, hole, hi)
    requires hole < hi ==> key[g[hole]] <= key[g[hole + 1]]
    ensures forall x, y :: i <= x < y <= hi ==> InOrder(g, key, x, y)
  {
    forall x, y | i <= x < y <= hi ensures InOrder(g, key, x, y) {
      if x == hole && hole + 1 < y {
        assert InOrder(g, key, hole + 1, y);
      }
    }
  }

  /** The loop invariant of an insertion: `f` is the array now, `f[hole := tmp]` a
      rearrangement of the array `f0` at the start. */
  ghost predicate InsertState(f0: seq<int>, f: seq<int>, key: seq<int>, tmp: int,
                              i: int, hole: int, hi: int, stride: int)
  {
    && 0 <= i <= hole <= hi < |f| == |f0|
    && var g := f[hole := tmp];
       && Rearranged(f0, g, i, hi + 1)
       && Entries(g, key, i, hi)
       && (stride == 1 ==> Inserting(g, key, i, hole, hi))
  }

  lemma InsertStart(f: seq<int>, key: seq<int>, i: int, hi: int, stride: int)
    requires 0 <= i <= hi && Entries(f, key, i, hi)
    requires stride == 1 ==> forall x, y :: i < x < y <= hi ==> InOrder(f, key, x, y)
    ensures InsertState(f, f, key, f[i], i, i, hi, stride)
  {
    assert f[i := f[i]] == f;
  }

  lemma InsertEntry(f0: seq<int>, f: seq<int>, key: seq<int>, tmp: int,
                    i: int, hole: int, hi: int, stride: int, j: int)
    requires InsertState(f0, f, key, tmp, i, hole, hi, stride) && hole < j <= hi
    ensures 0 <= f[j] < |key| && 0 <= tmp < |key|
  {
    var g := f[hole := tmp];
    assert g[j] == f[j] && g[hole] == tmp;
  }

  lemma InsertSize(f0: seq<int>, f: seq<int>, key: seq<int>, tmp: int, i: int, hole: int, hi: int, stride: int)
    requires InsertState(f0, f, key, tmp, i, hole, hi, stride)
    ensures 0 <= i <= hole <= hi < |f| == |f0| && Rearranged(f0, f[hole := tmp], i, hi + 1)
    ensures Entries(f[hole := tmp], key, i, hi)
  {
  }

  lemma InsertMove(f0: seq<int>, f: seq<int>, key: seq<int>, tmp: int,
                   i: int, hole: int, hi: int, stride: int)
    requires InsertState(f0, f, key, tmp, i, hole, hi, stride) && 1 <= stride && hole + stride <= hi
    requires 0 <= f[hole + stride] < |key| && 0 <= tmp < |key| && key[tmp] > key[f[hole + stride]]
    ensures InsertState(f0, f[hole := f[hole + stride]], key, tmp, i, hole + stride, hi, stride)
  {
    hide Rearranged, Inserting, Swapped, Entries;
    var j := hole + stride;
    InsertSize(f0, f, key, tmp, i, hole, hi, stride);
    SwappedIn(f0, f[hole := tmp], key, i, hi, hole, j);
    if stride == 1 {
      HoleBefore(f, hole, j, tmp);
      InsertingStep(f[hole := tmp], key, i, hole, hi);
    }
    HoleMoves(f, hole, j, tmp);
  }

  lemma HoleBefore(f: seq<int>, hole: int, j: int, tmp: int)
    requires 0 <= hole < |f| && 0 <= j < |f| && hole != j
    ensures f[hole := tmp][hole] == tmp && f[hole := tmp][j] == f[j]
  {
  }

  lemma SwappedIn(f0: seq<int>, g: seq<int>, key: seq<int>, lo: int, hi: int, x: int, y: int)
    requires Rearranged(f0, g, lo, hi + 1) && Entries(g, key, lo, hi) && 0 <= lo <= x <= hi < |g| && lo <= y <= hi
    ensures Rearranged(f0, Swapped(g, x, y), lo, hi + 1) && Entries(Swapped(g, x, y), key, lo, hi)
    ensures |Swapped(g, x, y)| == |g|
  {
    hide Rearranged, Entries;
    SwapRearranges(g, x, y, lo, hi + 1);
    RearrangedTransitive(f0, g, Swapped(g, x, y), lo, hi + 1);
    EntriesKept(g, Swapped(g, x, y), key, lo, hi, lo, hi);
  }

  lemma InsertEnd(f0: seq<int>, f: seq<int>, key: seq<int>, tmp: int,
                  i: int, hole: int, hi: int, stride: int)
    requires InsertState(f0, f, key, tmp, i, hole, hi, stride) && 0 <= tmp < |key| && 1 <= stride
    requires hole + stride <= hi ==> 0 <= f[hole + stride] < |key| && key[tmp] <= key[f[hole + stride]]
    ensures 0 <= hole < |f|
    ensures var g := f[hole := tmp];
      && Rearranged(f0, g, i, hi + 1)
      && Entries(g, key, i, hi)
      && (stride == 1 ==> forall x, y :: i <= x < y <= hi ==> InOrder(g, key, x, y))
  {
    if stride == 1 {
      InsertingDone(f[hole := tmp], key, i, hole, hi);
    }
  }

  /** One insertion of fallbackSimpleSort: entry i moves right, `stride` places at a time,
      past the entries with smaller keys. */
  method Insert(fmap: array<int>, eclass: array<int>, i: int, hi: int, stride: int)
    requires Sortable(fmap, eclass, i, hi) && i <= hi && 1 <= stride
    requires stride == 1 ==>
      forall x, y :: i < x < y <= hi ==> InOrder(fmap[..], eclass[..], x, y)
    modifies fmap
    ensures Sortable(fmap, eclass, i, hi)
    ensures Rearranged(old(fmap[..]), fmap[..], i, hi + 1)
    ensures stride == 1 ==>
      forall x, y :: i <= x < y <= hi ==> InOrder(fmap[..], eclass[..], x, y)
    ensures old(Tied(fmap[..], eclass[..], i, hi)) ==> fmap[..] == old(fmap[..])
  {
    hide Rearranged, InsertState, InOrder;
    ghost var f0, key := fmap[..], eclass[..];
    var tmp := fmap[i];
    var ecTmp := eclass[tmp];
    var j := i + stride;
    InsertStart(f0, key, i, hi, stride);
    while j <= hi && (InsertEntry(f0, fmap[..], key, tmp, i, j - stride, hi, stride, j); ecTmp > eclass[fmap[j]])
      invariant i + stride <= j && j - stride <= hi
      invariant InsertState(f0, fmap[..], key, tmp, i, j - stride, hi, stride)
      invariant Tied(f0, key, i, hi) ==> j == i + stride && fmap[..] == f0
      decreases hi - j
    {
      InsertEntry(f0, fmap[..], key, tmp, i, j - stride, hi, stride, j);
      InsertMove(f0, fmap[..], key, tmp, i, j - stride, hi, stride);
      Put(fmap, j - stride, fmap[j]);
      j := j + stride;
    }
    if j <= hi {
      InsertEntry(f0, fmap[..], key, tmp, i, j - stride, hi, stride, j);
    }
    InsertEnd(f0, fmap[..], key, tmp, i, j - stride, hi, stride);
    Put(fmap, j - stride, tmp);
  }

  /** fallbackSimpleSort: a pass at distance 4, which only rearranges, then insertion sort. */
  method SimpleSort(fmap: array<int>, eclass: array<int>, lo: int, hi: int)
    requires Sortable(fmap, eclass, lo, hi)
    modifies fmap
    ensures Sortable(fmap, eclass, lo, hi)
    ensures Rearranged(old(fmap[..]), fmap[..], lo, hi + 1)
    ensures forall x, y :: lo <= x < y <= hi ==> InOrder(fmap[..], eclass[..], x, y)
    ensures old(Tied(fmap[..], eclass[..], lo, hi)) ==> fmap[..] == old(fmap[..])
  {
    hide Tied;
    if lo == hi {
      return;
    }
    if hi - lo > 3 {
      var i := hi - 4;
      while i >= lo
        invariant lo - 1 <= i <= hi - 4
        invariant Sortable(fmap, eclass, lo, hi)
        invariant Rearranged(old(fmap[..]), fmap[..], lo, hi + 1)
        invariant old(Tied(fmap[..], eclass[..], lo, hi)) ==> fmap[..] == old(fmap[..])
        decreases i
      {
        InsertWithin(fmap, eclass, lo, i, hi, 4);
        i := i - 1;
      }
    }
    var i := hi - 1;
    while i >= lo
      invariant lo - 1 <= i <= hi - 1 || lo == hi + 1
      invariant Sortable(fmap, eclass, lo, hi)
      invariant Rearranged(old(fmap[..]), fmap[..], lo, hi + 1)
      invariant forall x, y :: lo <= x < y <= hi && i < x ==> InOrder(fmap[..], eclass[..], x, y)
      invariant old(Tied(fmap[..], eclass[..], lo, hi)) ==> fmap[..] == old(fmap[..])
      decreases i
    {
      InsertWithin(fmap, eclass, lo, i, hi, 1);
      i := i - 1;
    }
  }

  /** Insert, seen as a step of sorting the whole of lo..hi. */
  method InsertWithin(fmap: array<int>, eclass: array<int>, lo: int, i: int, hi: int, stride: int)
    requires Sortable(fmap, eclass, lo, hi) && lo <= i <= hi && 1 <= stride
    requires stride == 1 ==>
      forall x, y :: i < x < y <= hi ==> InOrder(fmap[..], eclass[..], x, y)
    modifies fmap
    ensures Sortable(fmap, eclass, lo, hi)
    ensures Rearranged(old(fmap[..]), fmap[..], lo, hi + 1)
    ensures stride == 1 ==>
      forall x, y :: i <= x < y <= hi ==> InOrder(fmap[..], eclass[..], x, y)
    ensures old(Tied(fmap[..], eclass[..], lo, hi)) ==> fmap[..] == old(fmap[..])
  {
    hide Tied;
    ghost var before := fmap[..];
    if Tied(before, eclass[..], lo, hi) {
      TiedPart(before, eclass[..], lo, hi, i);
    }
    Insert(fmap, eclass, i, hi, stride);
    EntriesKept(before, fmap[..], eclass[..], i, hi, lo, hi);
    RearrangedWiden(before, fmap[..], i, hi + 1, lo, hi + 1);
  }

  /** `g` is `f` with the disjoint runs of `n` entries at p1 and p2 exchanged. */
  ghost predicate Exchanged(f: seq<int>, g: seq<int>, p1: int, p2: int, n: int) {
    && |f| == |g| && 0 <= p1 && 0 <= n && p1 + n <= p2 && p2 + n <= |f|
    && (forall k :: p1 <= k < p1 + n ==> g[k] == f[k + (p2 - p1)])
    && (forall k :: p2 <= k < p2 + n ==> g[k] == f[k - (p2 - p1)])
    && (forall k :: 0 <= k < |f| && !(p1 <= k < p1 + n) && !(p2 <= k < p2 + n) ==> g[k] == f[k])
  }

  lemma ExchangedOutside(f: seq<int>, g: seq<int>, p1: int, p2: int, n: int)
    requires Exchanged(f, g, p1, p2, n)
    ensures forall k :: 0 <= k < p1 ==> g[k] == f[k]
  {
  }

  lemma ExchangedNone(f: seq<int>, p1: int, p2: int)
    requires 0 <= p1 <= p2 <= |f|
    ensures Exchanged(f, f, p1, p2, 0)
  {
  }

  lemma ExchangedStep(f: seq<int>, g: seq<int>, p1: int, p2: int, i: int)
    requires Exchanged(f, g, p1, p2, i) && p1 + i < p2 && p2 + i < |f|
    ensures Exchanged(f, Swapped(g, p1 + i, p2 + i), p1, p2, i + 1)
  {
  }

  /** fvswap: exchange two disjoint runs of n entries. */
  method VecSwap(fmap: array<int>, p1: int, p2: int, n: int, ghost lo: int, ghost hi: int)
    requires 0 <= lo <= p1 && 0 <= n && p1 + n <= p2 && p2 + n <= hi + 1 <= fmap.Length
    modifies fmap
    ensures Rearranged(old(fmap[..]), fmap[..], lo, hi + 1)
    ensures Exchanged(old(fmap[..]), fmap[..], p1, p2, n)
  {
    hide *;
    ghost var f0 := fmap[..];
    RearrangedSelf(f0, lo, hi + 1);
    ExchangedNone(f0, p1, p2);
    var i := 0;
    while i < n
      invariant 0 <= i <= n
      invariant Rearranged(f0, fmap[..], lo, hi + 1)
      invariant Exchanged(f0, fmap[..], p1, p2, i)
    {
      ghost var f := fmap[..];
      SwapRearranges(f, p1 + i, p2 + i, lo, hi + 1);
      ExchangedStep(f0, f, p1, p2, i);
      Swap(fmap, p1 + i, p2 + i);
      RearrangedTransitive(f0, f, fmap[..], lo, hi + 1);
      i := i + 1;
    }
  }

  /** The four zones of a partition in progress: equal, less, unread, greater, equal. */
  ghost predicate Zones(f: seq<int>, key: seq<int>, med: int, lo: int, hi: int,
                        ltLo: int, unLo: int, unHi: int, gtHi: int)
    requires Entries(f, key, lo, hi)
  {
    && lo <= ltLo <= unLo <= unHi + 1 && unHi <= gtHi <= hi
    && (forall k :: lo <= k < ltLo ==> key[f[k]] == med)
    && (forall k :: ltLo <= k < unLo ==> key[f[k]] < med)
    && (forall k :: unHi < k <= gtHi ==> key[f[k]] > med)
    && (forall k :: gtHi < k <= hi ==> key[f[k]] == med)
  }

  lemma ZoneStepUp(f: seq<int>, key: seq<int>, med: int, lo: int, hi: int,
                   ltLo: int, unLo: int, unHi: int, gtHi: int)
    requires Entries(f, key, lo, hi) && Zones(f, key, med, lo, hi, ltLo, unLo, unHi, gtHi)
    requires unLo <= unHi && key[f[unLo]] == med
    ensures var f' := Swapped(f, unLo, ltLo);
            Entries(f', key, lo, hi) && Zones(f', key, med, lo, hi, ltLo + 1, unLo + 1, unHi, gtHi)
  {
  }

  lemma ZoneStepDown(f: seq<int>, key: seq<int>, med: int, lo: int, hi: int,
                     ltLo: int, unLo: int, unHi: int, gtHi: int)
    requires Entries(f, key, lo, hi) && Zones(f, key, med, lo, hi, ltLo, unLo, unHi, gtHi)
    requires unLo <= unHi && key[f[unHi]] == med
    ensures var f' := Swapped(f, unHi, gtHi);
            Entries(f', key, lo, hi) && Zones(f', key, med, lo, hi, ltLo, unLo, unHi - 1, gtHi - 1)
            && (unLo < unHi ==> f'[unLo] == f[unLo])
  {
  }

  lemma ZoneExchange(f: seq<int>, key: seq<int>, med: int, lo: int, hi: int,
                     ltLo: int, unLo: int, unHi: int, gtHi: int)
    requires Entries(f, key, lo, hi) && Zones(f, key, med, lo, hi, ltLo, unLo, unHi, gtHi)
    requires unLo < unHi && key[f[unLo]] > med && key[f[unHi]] < med
    ensures var f' := Swapped(f, unLo, unHi);
            Entries(f', key, lo, hi) && Zones(f', key, med, lo, hi, ltLo, unLo + 1, unHi - 1, gtHi)
  {
  }

  lemma SwappedSelf(f: seq<int>, i: int, j: int)
    requires 0 <= i < |f| && 0 <= j < |f|
    ensures i == j ==> Swapped(f, i, j) == f
  {
  }

  /** The inner loop that moves unLo up to an entry greater than the pivot. */
  method ScanUp(fmap: array<int>, eclass: array<int>, lo: int, hi: int, med: int,
                ltLo0: int, unLo0: int, unHi: int, gtHi: int, ghost f0: seq<int>)
    returns (ltLo: int, unLo: int)
    requires Sortable(fmap, eclass, lo, hi) && Rearranged(f0, fmap[..], lo, hi + 1)
    requires Zones(fmap[..], eclass[..], med, lo, hi, ltLo0, unLo0, unHi, gtHi)
    modifies fmap
    ensures Sortable(fmap, eclass, lo, hi) && Rearranged(f0, fmap[..], lo, hi + 1)
    ensures Zones(fmap[..], eclass[..], med, lo, hi, ltLo, unLo, unHi, gtHi)
    ensures unLo0 <= unLo && (unLo <= unHi ==> eclass[fmap[unLo]] > med)
    ensures old(TiedTo(fmap[..], eclass[..], lo, hi, med)) && ltLo0 == unLo0 ==>
      fmap[..] == old(fmap[..]) && ltLo == unLo == unHi + 1
  {
    hide Rearranged, Swapped;
    ghost var f, tied := fmap[..], TiedTo(fmap[..], eclass[..], lo, hi, med) && ltLo0 == unLo0;
    ltLo, unLo := ltLo0, unLo0;
    while unLo <= unHi && eclass[fmap[unLo]] <= med
      invariant unLo0 <= unLo
      invariant Sortable(fmap, eclass, lo, hi) && Rearranged(f0, fmap[..], lo, hi + 1)
      invariant Zones(fmap[..], eclass[..], med, lo, hi, ltLo, unLo, unHi, gtHi)
      invariant tied ==> fmap[..] == f && ltLo == unLo
      decreases unHi - unLo
    {
      if eclass[fmap[unLo]] == med {
        ZoneStepUp(fmap[..], eclass[..], med, lo, hi, ltLo, unLo, unHi, gtHi);
        SwappedSelf(fmap[..], unLo, ltLo);
        SwapWithin(fmap, eclass[..], unLo, ltLo, lo, hi, f0);
        ltLo, unLo := ltLo + 1, unLo + 1;
      } else {
        unLo := unLo + 1;
      }
    }
  }

  /** The inner loop that moves unHi down to an entry less than the pivot. */
  method ScanDown(fmap: array<int>, eclass: array<int>, lo: int, hi: int, med: int,
                  ltLo: int, unLo: int, unHi0: int, gtHi0: int, ghost f0: seq<int>)
    returns (unHi: int, gtHi: int)
    requires Sortable(fmap, eclass, lo, hi) && Rearranged(f0, fmap[..], lo, hi + 1)
    requires Zones(fmap[..], eclass[..], med, lo, hi, ltLo, unLo, unHi0, gtHi0)
    requires unLo <= unHi0 ==> eclass[fmap[unLo]] > med
    modifies fmap
    ensures Sortable(fmap, eclass, lo, hi) && Rearranged(f0, fmap[..], lo, hi + 1)
    ensures Zones(fmap[..], eclass[..], med, lo, hi, ltLo, unLo, unHi, gtHi)
    ensures unHi <= unHi0
    ensures unLo <= unHi ==> unLo < unHi && eclass[fmap[unLo]] > med && eclass[fmap[unHi]] < med
    ensures unLo > unHi0 ==> fmap[..] == old(fmap[..]) && unHi == unHi0 && gtHi == gtHi0
  {
    hide Rearranged, Swapped;
    unHi, gtHi := unHi0, gtHi0;
    while unLo <= unHi && eclass[fmap[unHi]] >= med
      invariant unHi <= unHi0
      invariant Sortable(fmap, eclass, lo, hi) && Rearranged(f0, fmap[..], lo, hi + 1)
      invariant Zones(fmap[..], eclass[..], med, lo, hi, ltLo, unLo, unHi, gtHi)
      invariant unLo <= unHi ==> eclass[fmap[unLo]] > med
      invariant unLo > unHi0 ==> fmap[..] == old(fmap[..]) && unHi == unHi0 && gtHi == gtHi0
      decreases unHi - unLo
    {
      if eclass[fmap[unHi]] == med {
        ZoneStepDown(fmap[..], eclass[..], med, lo, hi, ltLo, unLo, unHi, gtHi);
        SwapWithin(fmap, eclass[..], unHi, gtHi, lo, hi, f0);
        gtHi, unHi := gtHi - 1, unHi - 1;
      } else {
        unHi := unHi - 1;
      }
    }
  }

  /** The pointer-crossing loop: fills the zones until nothing is unread. */
  method Partition(fmap: array<int>, eclass: array<int>, lo: int, hi: int, med: int)
    returns (ltLo: int, unLo: int, unHi: int, gtHi: int)
    requires Sortable(fmap, eclass, lo, hi) && lo <= hi
    requires exists k :: lo <= k <= hi && eclass[fmap[k]] == med
    modifies fmap
    ensures Sortable(fmap, eclass, lo, hi) && Rearranged(old(fmap[..]), fmap[..], lo, hi + 1)
    ensures unHi == unLo - 1
    ensures Zones(fmap[..], eclass[..], med, lo, hi, ltLo, unLo, unHi, gtHi)
    ensures lo <= ltLo && gtHi <= hi && (lo < ltLo || gtHi < hi)
    ensures old(TiedTo(fmap[..], eclass[..], lo, hi, med)) ==> fmap[..] == old(fmap[..]) && gtHi < ltLo
  {
    hide Rearranged, Swapped, TiedTo;
    ghost var f0 := fmap[..];
    RearrangedSelf(f0, lo, hi + 1);
    unLo, ltLo := lo, lo;
    unHi, gtHi := hi, hi;
    while true
      invariant Sortable(fmap, eclass, lo, hi) && Rearranged(f0, fmap[..], lo, hi + 1)
      invariant Zones(fmap[..], eclass[..], med, lo, hi, ltLo, unLo, unHi, gtHi)
      invariant TiedTo(f0, eclass[..], lo, hi, med) ==> fmap[..] == f0 && ltLo == unLo == lo && unHi == gtHi == hi
      decreases unHi - unLo
    {
      ltLo, unLo := ScanUp(fmap, eclass, lo, hi, med, ltLo, unLo, unHi, gtHi, f0);
      unHi, gtHi := ScanDown(fmap, eclass, lo, hi, med, ltLo, unLo, unHi, gtHi, f0);
      if unLo > unHi {
        break;
      }
      ZoneExchange(fmap[..], eclass[..], med, lo, hi, ltLo, unLo, unHi, gtHi);
      SwapWithin(fmap, eclass[..], unLo, unHi, lo, hi, f0);
      unLo, unHi := unLo + 1, unHi - 1;
    }
    PivotPlaced(f0, fmap[..], eclass[..], med, lo, hi, ltLo, unLo, unHi, gtHi);
  }

  /** The pivot is one of the entries, so an equal zone is not empty. */
  lemma PivotPlaced(f: seq<int>, g: seq<int>, key: seq<int>, med: int, lo: int, hi: int,
                    ltLo: int, unLo: int, unHi: int, gtHi: int)
    requires Entries(f, key, lo, hi) && Entries(g, key, lo, hi) && Rearranged(f, g, lo, hi + 1)
    requires Zones(g, key, med, lo, hi, ltLo, unLo, unHi, gtHi) && unHi == unLo - 1
    requires exists k :: lo <= k <= hi && key[f[k]] == med
    ensures lo < ltLo || gtHi < hi
  {
    var k :| lo <= k <= hi && key[f[k]] == med;
    RearrangedFlip(f, g, lo, hi + 1);
    var k' := RearrangedMember(g, f, lo, hi + 1, k);
  }

  method SwapWithin(fmap: array<int>, ghost key: seq<int>, i: int, j: int, lo: int, hi: int, ghost f0: seq<int>)
    requires Entries(fmap[..], key, lo, hi) && lo <= i <= hi && lo <= j <= hi
    requires Rearranged(f0, fmap[..], lo, hi + 1)
    modifies fmap
    ensures fmap[..] == Swapped(old(fmap[..]), i, j)
    ensures Entries(fmap[..], key, lo, hi)
    ensures Rearranged(f0, fmap[..], lo, hi + 1)
  {
    hide Rearranged, Swapped;
    SwapRearranges(fmap[..], i, j, lo, hi + 1);
    EntriesKept(fmap[..], Swapped(fmap[..], i, j), key, lo, hi, lo, hi);
    Swap(fmap, i, j);
    RearrangedTransitive(f0, old(fmap[..]), fmap[..], lo, hi + 1);
  }

  /** Where the equal run [lo, ltLo) goes when it changes places with the end of the less
      zone: `n` entries are exchanged, n the smaller of the two lengths. */
  lemma GatherLow(f: seq<int>, g: seq<int>, key: seq<int>, med: int, lo: int, hi: int,
                  ltLo: int, unLo: int, unHi: int, gtHi: int, n: int)
    requires Entries(f, key, lo, hi) && Entries(g, key, lo, hi) && |f| == |g|
    requires Zones(f, key, med, lo, hi, ltLo, unLo, unHi, gtHi) && unHi == unLo - 1
    requires n == if ltLo - lo < unLo - ltLo then ltLo - lo else unLo - ltLo
    requires Exchanged(f, g, lo, unLo - n, n)
    ensures forall k :: lo <= k <= lo + unLo - ltLo - 1 ==> key[g[k]] < med
    ensures forall k :: lo + unLo - ltLo - 1 < k < unLo ==> key[g[k]] == med
    ensures forall k :: unLo <= k <= gtHi ==> key[g[k]] > med
    ensures forall k :: gtHi < k <= hi ==> key[g[k]] == med
  {
    forall k | lo <= k < unLo
      ensures if k <= lo + unLo - ltLo - 1 then key[g[k]] < med else key[g[k]] == med
    {
      var d := unLo - n - lo;
      if k < lo + n {
        assert g[k] == f[k + d];
      } else if unLo - n <= k {
        assert g[k] == f[k - d];
      }
    }
  }

  lemma GatherHigh(f: seq<int>, g: seq<int>, key: seq<int>, med: int, hi: int, unLo: int, gtHi: int, m: int)
    requires 0 <= unLo <= gtHi + 1 <= hi + 1
    requires Entries(f, key, unLo, hi) && Entries(g, key, unLo, hi) && |f| == |g|
    requires forall k :: unLo <= k <= gtHi ==> key[f[k]] > med
    requires forall k :: gtHi < k <= hi ==> key[f[k]] == med
    requires m == if hi - gtHi < gtHi - unLo + 1 then hi - gtHi else gtHi - unLo + 1
    requires Exchanged(f, g, unLo, hi - m + 1, m)
    ensures forall k :: unLo <= k < hi - (gtHi - unLo) ==> key[g[k]] == med
    ensures forall k :: hi - (gtHi - unLo) <= k <= hi ==> key[g[k]] > med
  {
    forall k | unLo <= k <= hi
      ensures if k < hi - (gtHi - unLo) then key[g[k]] == med else key[g[k]] > med
    {
      var d := hi - m + 1 - unLo;
      if k < unLo + m {
        assert g[k] == f[k + d];
      } else if hi - m < k {
        assert g[k] == f[k - d];
      }
    }
  }

  lemma ZonesRange(f: seq<int>, key: seq<int>, med: int, lo: int, hi: int, ltLo: int, unLo: int, unHi: int, gtHi: int)
    requires Entries(f, key, lo, hi) && Zones(f, key, med, lo, hi, ltLo, unLo, unHi, gtHi)
    ensures lo <= ltLo <= unLo <= unHi + 1 && unHi <= gtHi <= hi
  {
  }

  /** After both exchanges the range is partitioned. */
  lemma Gathered(f: seq<int>, g: seq<int>, h: seq<int>, key: seq<int>, med: int, lo: int, hi: int,
                 ltLo: int, unLo: int, unHi: int, gtHi: int, n: int, m: int)
    requires Entries(f, key, lo, hi) && Entries(g, key, lo, hi) && Entries(h, key, lo, hi) && |f| == |g| == |h|
    requires Zones(f, key, med, lo, hi, ltLo, unLo, unHi, gtHi) && unHi == unLo - 1
    requires n == if ltLo - lo < unLo - ltLo then ltLo - lo else unLo - ltLo
    requires m == if hi - gtHi < gtHi - unHi then hi - gtHi else gtHi - unHi
    requires Exchanged(f, g, lo, unLo - n, n) && Exchanged(g, h, unLo, hi - m + 1, m)
    ensures Partitioned(h, key, med, lo, hi, lo + unLo - ltLo - 1, hi - (gtHi - unHi) + 1)
  {
    hide Exchanged, Zones;
    ZonesRange(f, key, med, lo, hi, ltLo, unLo, unHi, gtHi);
    GatherLow(f, g, key, med, lo, hi, ltLo, unLo, unHi, gtHi, n);
    GatherHigh(g, h, key, med, hi, unLo, gtHi, m);
    ExchangedOutside(g, h, unLo, hi - m + 1, m);
  }

  /** Moves the two outer equal zones into the middle: less in lo..n, equal between,
      greater in m..hi. */
  method Gather(fmap: array<int>, ghost key: seq<int>, lo: int, hi: int, ghost med: int,
                ltLo: int, unLo: int, unHi: int, gtHi: int) returns (n: int, m: int)
    requires lo <= hi + 1 && Entries(fmap[..], key, lo, hi)
    requires Zones(fmap[..], key, med, lo, hi, ltLo, unLo, unHi, gtHi) && unHi == unLo - 1
    modifies fmap
    ensures Entries(fmap[..], key, lo, hi) && Rearranged(old(fmap[..]), fmap[..], lo, hi + 1)
    ensures n == lo + unLo - ltLo - 1 && m == hi - (gtHi - unHi) + 1
    ensures lo <= n + 1 <= m <= hi + 1
    ensures Partitioned(fmap[..], key, med, lo, hi, n, m)
  {
    hide Rearranged, Exchanged, Partitioned, Zones;
    ghost var f := fmap[..];
    ZonesRange(f, key, med, lo, hi, ltLo, unLo, unHi, gtHi);
    n := if ltLo - lo < unLo - ltLo then ltLo - lo else unLo - ltLo;
    VecSwap(fmap, lo, unLo - n, n, lo, hi);
    EntriesKept(f, fmap[..], key, lo, hi, lo, hi);
    ghost var g := fmap[..];
    m := if hi - gtHi < gtHi - unHi then hi - gtHi else gtHi - unHi;
    VecSwap(fmap, unLo, hi - m + 1, m, lo, hi);
    EntriesKept(g, fmap[..], key, lo, hi, lo, hi);
    Gathered(f, g, fmap[..], key, med, lo, hi, ltLo, unLo, unHi, gtHi, n, m);
    RearrangedTransitive(f, g, fmap[..], lo, hi + 1);
    n, m := lo + unLo - ltLo - 1, hi - (gtHi - unHi) + 1;
  }

  ghost predicate Partitioned(f: seq<int>, key: seq<int>, med: int, lo: int, hi: int, n: int, m: int)
    requires Entries(f, key, lo, hi)
  {
    && (forall k :: lo <= k <= n && k <= hi ==> key[f[k]] < med)
    && (forall k :: lo <= k <= hi && n < k < m ==> key[f[k]] == med)
    && (forall k :: lo <= k && m <= k <= hi ==> key[f[k]] > med)
  }

  // ---------- The explicit stack ----------

  /** Entry i of the stack has at most total / 2^i places: the larger half is always pushed
      first, so what lies above an entry comes from the smaller half. */
  ghost predicate Halving(st: seq<Segment>, total: int) {
    forall i :: 0 <= i < |st| ==> st[i].Size() * Pow2(i) <= total
  }

  ghost function Work(st: seq<Segment>): (w: int) {
    if st == [] then 0 else Work(st[..|st| - 1]) + 2 * st[|st| - 1].Size() + 1
  }

  lemma {:induction false} WorkNat(st: seq<Segment>, lo: int, hi: int)
    requires Within(st, lo, hi)
    ensures Work(st) >= 0
  {
    if st != [] {
      WorkNat(st[..|st| - 1], lo, hi);
    }
  }

  /** A segment worth partitioning sits low on the stack. */
  lemma {:induction false} DepthBound(size: int, i: nat, total: int)
    requires 11 <= size && size * Pow2(i) <= total <= 0x7fff_ffff
    ensures i < 28
  {
    if i >= 28 {
      Pow2Monotone(28, i);
      MulMonotone(11, size, Pow2(i));
      Pow28();
    }
  }

  lemma Pow28()
    ensures Pow2(28) == 0x1000_0000
  {
    assert Pow2(7) == 128;
    Pow2Add(7, 7);
    Pow2Add(14, 14);
  }

  /** Replacing the top by two parts that leave out at least one place. */
  lemma PushTwo(rest: seq<Segment>, top: Segment, big: Segment, small: Segment, lo: int, hi: int, total: int)
    requires Disjoint(rest + [top]) && Within(rest + [top], lo, hi) && Halving(rest + [top], total)
    requires top.lo <= big.lo <= big.hi + 1 && big.hi <= top.hi
    requires top.lo <= small.lo <= small.hi + 1 && small.hi <= top.hi
    requires Apart(big, small)
    requires big.Size() + small.Size() < top.Size() && small.Size() <= big.Size()
    ensures Disjoint(rest + [big, small]) && Within(rest + [big, small], lo, hi)
    ensures Halving(rest + [big, small], total)
    ensures Work(rest + [big, small]) < Work(rest + [top])
  {
    var st, st' := rest + [top], rest + [big, small];
    assert forall i :: 0 <= i < |rest| ==> st[i] == rest[i] && st'[i] == rest[i];
    forall i, j | 0 <= i < j < |st'| ensures Apart(st'[i], st'[j]) {
      if i < |rest| {
        assert Apart(st[i], st[if j < |rest| then j else |rest|]);
      }
    }
    forall i | 0 <= i < |st'| ensures lo <= st'[i].lo <= st'[i].hi + 1 && st'[i].hi <= hi {
      assert st[|rest|] == top;
    }
    forall i | 0 <= i < |st'| ensures st'[i].Size() * Pow2(i) <= total {
      HalvingStep(st, st', total, i);
    }
    assert st'[..|st'| - 1] == rest + [big];
    assert (rest + [big])[..|rest|] == rest && st[..|st| - 1] == rest;
  }

  lemma HalvingStep(st: seq<Segment>, st': seq<Segment>, total: int, i: int)
    requires Halving(st, total) && |st'| == |st| + 1 && 0 <= i < |st'| && |st| >= 1
    requires i < |st| - 1 ==> st'[i] == st[i]
    requires var k := |st| - 1;
      st'[k].Size() + st'[k + 1].Size() < st[k].Size() && 0 <= st'[k + 1].Size() <= st'[k].Size()
    ensures st'[i].Size() * Pow2(i) <= total
  {
    var k := |st| - 1;
    var z, p := st[k].Size(), Pow2(k);
    assert z * p <= total;
    if i < k {
      assert st[i].Size() * Pow2(i) <= total;
    } else if i == k {
      MulMonotone(st'[k].Size(), z, p);
    } else {
      MulMonotone(2 * st'[k + 1].Size(), z, p);
      assert st'[k + 1].Size() * Pow2(k + 1) == 2 * st'[k + 1].Size() * p;
    }
  }

  lemma PopOne(rest: seq<Segment>, top: Segment, lo: int, hi: int, total: int)
    requires Disjoint(rest + [top]) && Within(rest + [top], lo, hi) && Halving(rest + [top], total)
    ensures Disjoint(rest) && Within(rest, lo, hi) && Halving(rest, total)
    ensures Work(rest) < Work(rest + [top])
  {
    var st := rest + [top];
    assert forall i :: 0 <= i < |rest| ==> st[i] == rest[i];
    assert st[..|st| - 1] == rest;
    assert st[|rest|] == top;
    forall i, j | 0 <= i < j < |rest| ensures Apart(rest[i], rest[j]) {
      assert Apart(st[i], st[j]);
    }
  }

  /** After a partition the two outer parts are all that is left to sort. */
  lemma PartitionCovers(f: seq<int>, key: seq<int>, med: int, lo: int, hi: int, n: int, m: int, new_: seq<Segment>)
    requires Entries(f, key, lo, hi) && Partitioned(f, key, med, lo, hi, n, m)
    requires lo <= n + 1 <= m <= hi + 1
    requires Segment(lo, n, 0) in new_ && Segment(m, hi, 0) in new_
    ensures forall x, y :: lo <= x < y <= hi ==> InOrder(f, key, x, y) || Covered(new_, x, y)
  {
    forall x, y | lo <= x < y <= hi ensures InOrder(f, key, x, y) || Covered(new_, x, y) {
      if y <= n {
        var k :| 0 <= k < |new_| && new_[k] == Segment(lo, n, 0);
      } else if m <= x {
        var k :| 0 <= k < |new_| && new_[k] == Segment(m, hi, 0);
      }
    }
  }

  /** What holds every time round the main loop. */
  ghost predicate Sorting(f0: seq<int>, f: seq<int>, key: seq<int>, st: seq<Segment>, lo: int, hi: int) {
    && lo <= hi + 1
    && Entries(f, key, lo, hi)
    && Rearranged(f0, f, lo, hi + 1)
    && Disjoint(st) && Within(st, lo, hi) && Halving(st, hi - lo + 1)
    && SortedExcept(f, key, st, lo, hi)
  }

  lemma SortingStart(f: seq<int>, key: seq<int>, lo: int, hi: int)
    requires lo <= hi + 1 && Entries(f, key, lo, hi)
    ensures Sorting(f, f, key, [Segment(lo, hi, 0)], lo, hi)
  {
    var st := [Segment(lo, hi, 0)];
    forall x, y | lo <= x < y <= hi ensures Covered(st, x, y) {
      assert st[0].lo <= x && y <= st[0].hi;
    }
  }

  lemma SortingTop(f0: seq<int>, f: seq<int>, key: seq<int>, rest: seq<Segment>, top: Segment, lo: int, hi: int)
    requires Sorting(f0, f, key, rest + [top], lo, hi) && hi - lo < 0x7fff_ffff
    ensures lo <= top.lo <= top.hi + 1 && top.hi <= hi
    ensures Entries(f, key, top.lo, top.hi)
    ensures top.hi - top.lo >= SMALL_THRESH ==> |rest| < 28
  {
    var st := rest + [top];
    assert st[|rest|] == top;
    if top.hi - top.lo >= SMALL_THRESH {
      DepthBound(top.Size(), |rest|, hi - lo + 1);
    }
  }

  /** A small segment was sorted outright. */
  lemma SortingSmall(f0: seq<int>, f: seq<int>, g: seq<int>, key: seq<int>,
                     rest: seq<Segment>, top: Segment, lo: int, hi: int)
    requires Sorting(f0, f, key, rest + [top], lo, hi) && hi - lo < 0x7fff_ffff
    requires Rearranged(f, g, top.lo, top.hi + 1) && Entries(g, key, top.lo, top.hi)
    requires forall x, y :: top.lo <= x < y <= top.hi ==> InOrder(g, key, x, y)
    ensures Sorting(f0, g, key, rest, lo, hi)
    ensures 0 <= Work(rest) < Work(rest + [top])
  {
    hide Rearranged, InOrder, Halving, Work;
    SortingTop(f0, f, key, rest, top, lo, hi);
    EntriesKept(f, g, key, top.lo, top.hi, lo, hi);
    RearrangedWiden(f, g, top.lo, top.hi + 1, lo, hi + 1);
    RearrangedTransitive(f0, f, g, lo, hi + 1);
    Refine(f, g, key, rest, top, [], lo, hi);
    assert rest + [] == rest;
    PopOne(rest, top, lo, hi, hi - lo + 1);
    WorkNat(rest, lo, hi);
  }

  /** A segment was partitioned and its two outer parts pushed, the larger one first. */
  lemma SortingSplit(f0: seq<int>, f: seq<int>, g: seq<int>, key: seq<int>,
                     rest: seq<Segment>, top: Segment, med: int, n: int, m: int, lo: int, hi: int)
    requires Sorting(f0, f, key, rest + [top], lo, hi) && hi - lo < 0x7fff_ffff
    requires Rearranged(f, g, top.lo, top.hi + 1) && Entries(g, key, top.lo, top.hi)
    requires top.lo <= n + 1 < m <= top.hi + 1
    requires Partitioned(g, key, med, top.lo, top.hi, n, m)
    ensures Sorting(f0, g, key, rest + Halves(top, n, m), lo, hi)
    ensures 0 <= Work(rest + Halves(top, n, m)) < Work(rest + [top])
  {
    hide Rearranged, InOrder, Halving, Work, Partitioned;
    var new_ := Halves(top, n, m);
    SortingTop(f0, f, key, rest, top, lo, hi);
    EntriesKept(f, g, key, top.lo, top.hi, lo, hi);
    RearrangedWiden(f, g, top.lo, top.hi + 1, lo, hi + 1);
    RearrangedTransitive(f0, f, g, lo, hi + 1);
    PartitionCovers(g, key, med, top.lo, top.hi, n, m, new_);
    Refine(f, g, key, rest, top, new_, lo, hi);
    assert new_ == [new_[0], new_[1]];
    PushTwo(rest, top, new_[0], new_[1], lo, hi, hi - lo + 1);
    WorkNat(rest + new_, lo, hi);
  }

  /** The two parts in the order in which they are pushed. */
  ghost function Halves(top: Segment, n: int, m: int): (s: seq<Segment>)
    ensures |s| == 2
  {
    if n - top.lo > top.hi - m then [Segment(top.lo, n, 0), Segment(m, top.hi, 0)]
    else [Segment(m, top.hi, 0), Segment(top.lo, n, 0)]
  }

  /** fallbackQSort3: sorts fmap[loSt..hiSt] by eclass[fmap[i]].  The depth assertion (code
      1004) of the source is an assertion here. */
  method QSort3(fmap: array<int>, eclass: array<int>, loSt: int, hiSt: int)
    requires Sortable(fmap, eclass, loSt, hiSt) && hiSt - loSt < 0x7fff_ffff
    modifies fmap
    ensures Sortable(fmap, eclass, loSt, hiSt)
    ensures Rearranged(old(fmap[..]), fmap[..], loSt, hiSt + 1)
    ensures forall x, y :: loSt <= x < y <= hiSt ==> InOrder(fmap[..], eclass[..], x, y)
    ensures old(Tied(fmap[..], eclass[..], loSt, hiSt)) ==> fmap[..] == old(fmap[..])
  {
    hide Rearranged, InOrder, Sorting, Partitioned, Zones, Tied, TiedTo;
    ghost var f0, key := fmap[..], eclass[..];
    var r := 0;
    var stack := [Segment(loSt, hiSt, 0)];
    SortingStart(f0, key, loSt, hiSt);
    while |stack| > 0
      invariant |stack| <= 30 && 0 <= r < 32768
      invariant eclass[..] == key
      invariant Sorting(f0, fmap[..], key, stack, loSt, hiSt)
      invariant Tied(f0, key, loSt, hiSt) ==> fmap[..] == f0 && stack <= [Segment(loSt, hiSt, 0)]
      decreases Work(stack)
    {
      assert |stack| < STACK_SIZE - 1;  // AssertH 1004
      var top := stack[|stack| - 1];
      var rest := stack[..|stack| - 1];
      assert stack == rest + [top];
      SortingTop(f0, fmap[..], key, rest, top, loSt, hiSt);
      ghost var f := fmap[..];
      var lo, hi := top.lo, top.hi;
      stack := rest;
      if hi - lo < SMALL_THRESH {
        SimpleSort(fmap, eclass, lo, hi);
        SortingSmall(f0, f, fmap[..], key, rest, top, loSt, hiSt);
        continue;
      }
      r := ((r * 7621) + 1) % 32768;
      var r3 := r % 3;
      var pivot := if r3 == 0 then lo else if r3 == 1 then (lo + hi) / 2 else hi;
      var med := eclass[fmap[pivot]];
      PivotTied(f, key, lo, hi, pivot);
      var ltLo, unLo, unHi, gtHi := Partition(fmap, eclass, lo, hi, med);
      if gtHi < ltLo {
        AllEqual(fmap[..], key, med, lo, hi, ltLo, unLo, unHi, gtHi);
        SortingSmall(f0, f, fmap[..], key, rest, top, loSt, hiSt);
        continue;
      }
      ghost var f1 := fmap[..];
      var n, m := Gather(fmap, key, lo, hi, med, ltLo, unLo, unHi, gtHi);
      RearrangedTransitive(f, f1, fmap[..], lo, hi + 1);
      SortingSplit(f0, f, fmap[..], key, rest, top, med, n, m, loSt, hiSt);
      if n - lo > hi - m {
        stack := stack + [Segment(lo, n, 0)] + [Segment(m, hi, 0)];
      } else {
        stack := stack + [Segment(m, hi, 0)] + [Segment(lo, n, 0)];
      }
      assert stack == rest + Halves(top, n, m);
    }
    SortingEnd(f0, fmap[..], key, loSt, hiSt);
  }

  lemma PivotTied(f: seq<int>, key: seq<int>, lo: int, hi: int, pivot: int)
    requires Entries(f, key, lo, hi) && lo <= pivot <= hi
    ensures Tied(f, key, lo, hi) ==> TiedTo(f, key, lo, hi, key[f[pivot]])
  {
  }

  /** Nothing is less or greater than the pivot: the segment is sorted. */
  lemma AllEqual(f: seq<int>, key: seq<int>, med: int, lo: int, hi: int,
                 ltLo: int, unLo: int, unHi: int, gtHi: int)
    requires Entries(f, key, lo, hi) && Zones(f, key, med, lo, hi, ltLo, unLo, unHi, gtHi)
    requires unHi == unLo - 1 && gtHi < ltLo
    ensures forall x, y :: lo <= x < y <= hi ==> InOrder(f, key, x, y)
  {
  }

  lemma SortingEnd(f0: seq<int>, f: seq<int>, key: seq<int>, lo: int, hi: int)
    requires Sorting(f0, f, key, [], lo, hi)
    ensures Entries(f, key, lo, hi) && Rearranged(f0, f, lo, hi + 1)
    ensures forall x, y :: lo <= x < y <= hi ==> InOrder(f, key, x, y)
  {
  }
}
