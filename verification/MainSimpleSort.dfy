/** mainSimpleSort: a shell sort of rotations that agree on their first d characters
    (dep/bzip2/blocksort.c:461-545). */
module MainSimpleSort {
  import opened Rotations
  import opened RotationRank
  import opened MainCompare
  import opened Segments
  import opened Powers

  /** Entries lo..hi of the index array name rotations with the same first d characters. */
  ghost predicate Alike(b: seq<byte>, f: seq<int>, lo: int, hi: int, d: nat) {
    && 0 <= lo && hi < |f| && d <= 15
    && (forall x :: lo <= x <= hi ==> 0 <= f[x] < |b|)
    && forall x, y :: lo <= x <= hi && lo <= y <= hi ==> Same(b, f[x], f[y], d)
  }

  ghost predicate Same(b: seq<byte>, i: int, j: int, d: nat) {
    0 <= i < |b| && 0 <= j < |b| && Cmp(b, i, j, d) == 0
  }

  lemma AlikeEntries(b: seq<byte>, f: seq<int>, lo: int, hi: int, d: nat)
    requires Alike(b, f, lo, hi, d)
    ensures Entries(f, Ranks(b), lo, hi) && d <= 15
    ensures forall x :: lo <= x <= hi ==> 0 <= f[x] < |b|
  {
  }

  lemma AlikeKept(b: seq<byte>, f: seq<int>, g: seq<int>, lo: int, hi: int, d: nat)
    requires Alike(b, f, lo, hi, d) && Rearranged(f, g, lo, hi + 1)
    ensures Alike(b, g, lo, hi, d)
  {
    hide Cmp, Same, Rearranged;
    RearrangedSize(f, g, lo, hi + 1);
    forall x | lo <= x <= hi ensures 0 <= g[x] < |b| {
      var x' := RearrangedMember(f, g, lo, hi + 1, x);
    }
    forall x, y | lo <= x <= hi && lo <= y <= hi ensures Same(b, g[x], g[y], d) {
      var x' := RearrangedMember(f, g, lo, hi + 1, x);
      var y' := RearrangedMember(f, g, lo, hi + 1, y);
      assert Same(b, f[x'], f[y'], d);
    }
  }

  lemma RearrangedSize(f: seq<int>, g: seq<int>, lo: int, hi: int)
    requires Rearranged(f, g, lo, hi)
    ensures |f| == |g| && 0 <= lo <= hi <= |f|
  {
  }

  /** A part of a segment is alike as well. */
  lemma AlikePart(b: seq<byte>, f: seq<int>, lo: int, hi: int, lo': int, hi': int, d: nat)
    requires Alike(b, f, lo, hi, d) && lo <= lo' && hi' <= hi
    ensures Alike(b, f, lo', hi', d)
  {
    hide Same;
  }

  // ---------- One comparison ----------

  /** The most that one comparison may cost. */
  ghost function MostRounds(n: nat): nat {
    (n + 16) / 8
  }

  /** The most that sorting may cost: thirteen passes, and in each the comparisons of all pairs. */
  ghost function MostCost(n: nat, size: nat): nat {
    13 * Grid(n, size, size)
  }

  ghost function Grid(n: nat, size: nat, k: nat): (g: nat) {
    MostRounds(n) * size * k
  }

  lemma GridNext(n: nat, size: nat, k: nat)
    ensures Grid(n, size, k + 1) == Grid(n, size, k) + MostRounds(n) * size
    ensures Grid(n, size, 0) == 0
  {
    assert MostRounds(n) * size * (k + 1) == MostRounds(n) * size * k + MostRounds(n) * size;
  }

  lemma {:induction false} GridGrows(n: nat, size: nat, k: nat, l: nat)
    requires k <= l
    ensures Grid(n, size, k) <= Grid(n, size, l)
    decreases l - k
  {
    hide MostRounds, Grid;
    if k < l {
      GridNext(n, size, k);
      GridGrows(n, size, k + 1, l);
      RowNat(n, size);
    }
  }

  lemma GridAdd(n: nat, size: nat, k: nat, l: nat, part: nat)
    requires part <= size
    ensures Grid(n, size, k + l) == Grid(n, size, k) + Grid(n, size, l) && Grid(n, part, l) <= Grid(n, size, l)
  {
    hide MostRounds;
    Distribute(k, l, MostRounds(n) * size);
    MulMonotone(part, size, MostRounds(n));
    MulMonotone(part * MostRounds(n), size * MostRounds(n), l);
    assert MostRounds(n) * part == part * MostRounds(n) && MostRounds(n) * size == size * MostRounds(n);
    assert MostRounds(n) * size * (k + l) == (k + l) * (MostRounds(n) * size);
  }

  lemma RowNat(n: nat, size: nat)
    ensures 0 <= MostRounds(n) * size
  {
    hide MostRounds;
  }

  /** mainGtU(x + d, v + d): the verdict holds for the rotations x and v themselves. */
  method GreaterAt(x: int, v: int, d: nat, block: array<byte>, quadrant: array<int>, nblock: nat, budget: int)
    returns (gt: bool, budget': int)
    requires Comparable(block[..], quadrant[..], nblock) && d <= 15
    requires Same(block[..nblock], x, v, d)
    ensures Right(block[..nblock], x, v, gt) && 0 <= budget - budget' <= MostRounds(nblock)
  {
    hide Comparable, Cmp, Rank, GoesOn;
    ComparableSize(block[..], quadrant[..], nblock);
    ghost var b := block[..nblock];
    ShiftRight(b, x, v, d);
    ghost var p1, p2 := At(nblock, x + d), At(nblock, v + d);
    gt, budget' := MainGtU(x + d, v + d, block, quadrant, nblock, budget, p1, p2);
    VerdictRight(b, quadrant[..], p1, p2, gt);
  }

  lemma ComparableSize(block: seq<byte>, quad: seq<int>, n: nat)
    requires Comparable(block, quad, n)
    ensures 34 < n && n + 34 <= |block| && n + 34 <= |quad|
  {
  }

  lemma ShiftRight(b: seq<byte>, x: int, v: int, d: nat)
    requires Same(b, x, v, d)
    ensures At(|b|, x + d) == Adv(|b|, x, d) && At(|b|, v + d) == Adv(|b|, v, d)
    ensures forall gt :: Right(b, At(|b|, x + d), At(|b|, v + d), gt) ==> Right(b, x, v, gt)
  {
    hide Cmp, Rank;
    CmpFlip(b, x, v, d);
    RankSkip(b, x, v, d);
    RankSkip(b, v, x, d);
  }

  // ---------- One insertion ----------

  /** `g` is the array with the entry put back at `hole`; everything from the hole to i is no
      smaller, and all but the hole is in order. */
  ghost predicate Sinking(g: seq<int>, key: seq<int>, lo: int, hole: int, i: int)
    requires Entries(g, key, lo, i)
  {
    && lo <= hole <= i
    && (forall x :: hole < x <= i ==> key[g[hole]] <= key[g[x]])
    && (forall x, y :: lo <= x < y <= i && x != hole && y != hole ==> InOrder(g, key, x, y))
  }

  lemma SinkingStep(g: seq<int>, key: seq<int>, lo: int, hole: int, i: int)
    requires Entries(g, key, lo, i) && Sinking(g, key, lo, hole, i) && lo < hole
    requires key[g[hole - 1]] >= key[g[hole]]
    ensures var g' := Swapped(g, hole, hole - 1);
            Entries(g', key, lo, i) && Sinking(g', key, lo, hole - 1, i)
  {
    var g' := Swapped(g, hole, hole - 1);
    forall x, y | lo <= x < y <= i && x != hole - 1 && y != hole - 1 ensures InOrder(g', key, x, y) {
      assert InOrder(g, key, if x == hole then hole - 1 else x, if y == hole then hole - 1 else y)
        || (y != hole && x == hole) || x >= hole;
    }
  }

  lemma SinkingDone(g: seq<int>, key: seq<int>, lo: int, hole: int, i: int)
    requires Entries(g, key, lo, i) && Sinking(g, key, lo, hole, i)
    requires lo < hole ==> key[g[hole - 1]] <= key[g[hole]]
    ensures forall x, y :: lo <= x < y <= i ==> InOrder(g, key, x, y)
  {
    forall x, y | lo <= x < y <= i ensures InOrder(g, key, x, y) {
      if y == hole && x + 1 < hole {
        assert InOrder(g, key, x, hole - 1);
      }
    }
  }

  /** The state of an insertion of entry i: `f` now, `f[hole := v]` a rearrangement of `f0`. */
  ghost predicate Moving(b: seq<byte>, f0: seq<int>, f: seq<int>, v: int, lo: int, hole: int, i: int, h: int, d: nat) {
    && 0 <= lo <= hole <= i < |f| == |f0|
    && var g := f[hole := v];
       && Rearranged(f0, g, lo, i + 1)
       && Alike(b, g, lo, i, d) && Entries(g, Ranks(b), lo, i)
       && (h == 1 ==> Sinking(g, Ranks(b), lo, hole, i))
  }

  lemma MovingStart(b: seq<byte>, f: seq<int>, lo: int, i: int, h: int, d: nat)
    requires 0 <= lo <= i < |f| && Alike(b, f, lo, i, d)
    requires Entries(f, Ranks(b), lo, i)
    requires h == 1 ==> forall x, y :: lo <= x < y < i ==> InOrder(f, Ranks(b), x, y)
    ensures Moving(b, f, f, f[i], lo, i, i, h, d)
  {
    hide Alike;
    assert f[i := f[i]] == f;
  }

  lemma MovingFacts(b: seq<byte>, f0: seq<int>, f: seq<int>, v: int, lo: int, hole: int, i: int, h: int, d: nat, j: int)
    requires Moving(b, f0, f, v, lo, hole, i, h, d) && lo <= j < hole
    ensures Same(b, f[j], v, d)
  {
    hide Same, Rearranged, Sinking;
    var g := f[hole := v];
    assert g[j] == f[j] && g[hole] == v;
    assert Same(b, g[j], g[hole], d);
  }

  lemma MovingStep(b: seq<byte>, f0: seq<int>, f: seq<int>, v: int, lo: int, hole: int, i: int, h: int, d: nat)
    requires Moving(b, f0, f, v, lo, hole, i, h, d) && 1 <= h && lo <= hole - h
    requires 0 <= f[hole - h] < |b| && 0 <= v < |b| && Right(b, f[hole - h], v, true)
    ensures Moving(b, f0, f[hole := f[hole - h]], v, lo, hole - h, i, h, d)
  {
    hide Rearranged, Sinking, Swapped, Alike, Rank;
    var j := hole - h;
    var g := f[hole := v];
    var g' := Swapped(g, hole, j);
    HoleMoves(f, hole, j, v);
    SwapRearranges(g, hole, j, lo, i + 1);
    RearrangedTransitive(f0, g, g', lo, i + 1);
    AlikeKept(b, g, g', lo, i, d);
    AlikeEntries(b, g', lo, i, d);
    if h == 1 {
      assert g[hole] == v && g[j] == f[j];
      SinkingStep(g, Ranks(b), lo, hole, i);
    }
  }

  lemma MovingEnd(b: seq<byte>, f0: seq<int>, f: seq<int>, v: int, lo: int, hole: int, i: int, h: int, d: nat)
    requires Moving(b, f0, f, v, lo, hole, i, h, d) && 1 <= h
    requires lo <= hole - h ==> 0 <= f[hole - h] < |b| && 0 <= v < |b| && Right(b, f[hole - h], v, false)
    ensures 0 <= hole < |f|
    ensures var g := f[hole := v];
      && Rearranged(f0, g, lo, i + 1) && Entries(g, Ranks(b), lo, i)
      && (h == 1 ==> forall x, y :: lo <= x < y <= i ==> InOrder(g, Ranks(b), x, y))
  {
    hide Rearranged, Alike, Rank;
    var g := f[hole := v];
    if h == 1 {
      if lo < hole {
        assert g[hole] == v && g[hole - 1] == f[hole - 1];
      }
      SinkingDone(g, Ranks(b), lo, hole, i);
    }
  }

  lemma MovingRange(b: seq<byte>, f0: seq<int>, f: seq<int>, v: int, lo: int, hole: int, i: int, h: int, d: nat)
    requires Moving(b, f0, f, v, lo, hole, i, h, d)
    ensures 0 <= lo <= hole <= i < |f|
  {
  }

  /** Entry i sinks, h places at a time, below the entries that are greater. */
  method Sink(ptr: array<int>, block: array<byte>, quadrant: array<int>, nblock: nat, lo: int, i: int, h: int, d: nat,
              budget: int)
    returns (budget': int)
    requires ptr != quadrant && ptr as object != block as object
    requires Comparable(block[..], quadrant[..], nblock)
    requires nblock <= block.Length && Alike(block[..nblock], ptr[..], lo, i, d) && 0 <= lo && 1 <= h
      && lo + h <= i < ptr.Length
    requires Entries(ptr[..], Ranks(block[..nblock]), lo, i)
    requires h == 1 ==> forall x, y :: lo <= x < y < i ==> InOrder(ptr[..], Ranks(block[..nblock]), x, y)
    modifies ptr
    ensures Rearranged(old(ptr[..]), ptr[..], lo, i + 1)
    ensures 0 <= budget - budget' <= MostRounds(nblock) * (i - lo)
    ensures Entries(ptr[..], Ranks(block[..nblock]), lo, i)
    ensures h == 1 ==> forall x, y :: lo <= x < y <= i ==> InOrder(ptr[..], Ranks(block[..nblock]), x, y)
  {
    hide Comparable, Alike, Moving, Rearranged, Same, Right, InOrder, Ranks, MostRounds;
    ghost var b, f0 := block[..nblock], ptr[..];
    AlikeEntries(b, f0, lo, i, d);
    budget' := budget;
    ghost var most := MostRounds(nblock);
    MulZero(most);
    var v := ptr[i];
    var j := i;
    MovingStart(b, f0, lo, i, h, d);
    while true
      invariant Moving(b, f0, ptr[..], v, lo, j, i, h, d) && lo + h <= j <= i
      invariant 0 <= budget - budget' <= most * (i - j)
      decreases j
    {
      OneMore(most, i - j, i - j + h, i - lo);
      MovingFacts(b, f0, ptr[..], v, lo, j, i, h, d, j - h);
      SameRange(b, ptr[j - h], v, d);
      var gt;
      gt, budget' := GreaterAt(ptr[j - h], v, d, block, quadrant, nblock, budget');
      if !gt {
        break;
      }
      MovingStep(b, f0, ptr[..], v, lo, j, i, h, d);
      Put(ptr, j, ptr[j - h]);
      j := j - h;
      if j <= lo + h - 1 {
        MovingRange(b, f0, ptr[..], v, lo, j, i, h, d);
        break;
      }
    }
    MovingEnd(b, f0, ptr[..], v, lo, j, i, h, d);
    Put(ptr, j, v);
  }

  lemma MulZero(a: nat)
    ensures a * 0 == 0
  {
  }

  lemma OneMore(a: nat, j: nat, k: nat, l: nat)
    requires j < k <= l
    ensures a * j + a <= a * k <= a * l
  {
    MulMonotone(j + 1, k, a);
    MulMonotone(k, l, a);
    assert (j + 1) * a == a * j + a && k * a == a * k && l * a == a * l;
  }

  lemma SameRange(b: seq<byte>, i: int, j: int, d: nat)
    requires Same(b, i, j, d)
    ensures 0 <= i < |b| && 0 <= j < |b|
  {
  }

  // ---------- The whole sort ----------

  const INCS: seq<int> := [1, 4, 13, 40, 121, 364, 1093, 3280, 9841, 29524, 88573, 265720, 797161, 2391484]

  /** Sink, seen as a step of sorting the whole of lo..hi. */
  method SinkWithin(ptr: array<int>, block: array<byte>, quadrant: array<int>, nblock: nat, lo: int, i: int, hi: int,
                    h: int, d: nat, budget: int, ghost f0: seq<int>)
    returns (budget': int)
    requires ptr != quadrant && ptr as object != block as object
    requires Comparable(block[..], quadrant[..], nblock) && nblock <= block.Length
    requires Alike(block[..nblock], ptr[..], lo, hi, d) && 1 <= h && lo + h <= i <= hi
      && Rearranged(f0, ptr[..], lo, hi + 1)
    requires Entries(ptr[..], Ranks(block[..nblock]), lo, hi)
    requires h == 1 ==> forall x, y :: lo <= x < y < i ==> InOrder(ptr[..], Ranks(block[..nblock]), x, y)
    modifies ptr
    ensures Rearranged(f0, ptr[..], lo, hi + 1) && 0 <= budget - budget' <= MostRounds(nblock) * (hi - lo + 1)
    ensures Alike(block[..nblock], ptr[..], lo, hi, d) && Entries(ptr[..], Ranks(block[..nblock]), lo, hi)
    ensures h == 1 ==> forall x, y :: lo <= x < y <= i ==> InOrder(ptr[..], Ranks(block[..nblock]), x, y)
  {
    hide Comparable, Alike, Rearranged, InOrder, Ranks, Entries, MostRounds;
    ghost var b, f := block[..nblock], ptr[..];
    OneMore(MostRounds(nblock), i - lo, i - lo + 1, hi - lo + 1);
    AlikePart(b, f, lo, hi, lo, i, d);
    AlikeEntries(b, f, lo, i, d);
    AlikeSize(b, f, lo, hi, d);
    budget' := Sink(ptr, block, quadrant, nblock, lo, i, h, d, budget);
    RearrangedWiden(f, ptr[..], lo, i + 1, lo, hi + 1);
    RearrangedTransitive(f0, f, ptr[..], lo, hi + 1);
    AlikeKept(b, f, ptr[..], lo, hi, d);
    AlikeEntries(b, ptr[..], lo, hi, d);
  }

  ghost function Turns(k: nat, grid: nat): (t: nat)
  {
    k * grid
  }

  lemma TurnsNext(k: nat, grid: nat)
    ensures Turns(k + 1, grid) == Turns(k, grid) + grid
    ensures k < 13 ==> Turns(k + 1, grid) <= 13 * grid
  {
    Distribute(k, 1, grid);
    if k < 13 {
      MulMonotone(k + 1, 13, grid);
    }
  }

  lemma AlikeSize(b: seq<byte>, f: seq<int>, lo: int, hi: int, d: nat)
    requires Alike(b, f, lo, hi, d)
    ensures 0 <= lo && hi < |f|
  {
  }

  /** mainSimpleSort: sorted, unless the work budget has run out. */
  method SimpleSort(ptr: array<int>, block: array<byte>, quadrant: array<int>, nblock: nat, lo: int, hi: int, d: nat,
                    budget: int)
    returns (budget': int)
    requires ptr != quadrant && ptr as object != block as object
    requires Comparable(block[..], quadrant[..], nblock) && nblock <= block.Length
    requires lo <= hi + 1 && Alike(block[..nblock], ptr[..], lo, hi, d) && hi - lo < 2000000
    modifies ptr
    ensures Rearranged(old(ptr[..]), ptr[..], lo, hi + 1)
    ensures 0 <= budget - budget' <= MostCost(nblock, hi - lo + 1)
    ensures Entries(ptr[..], Ranks(block[..nblock]), lo, hi)
    ensures budget' >= 0 ==> forall x, y :: lo <= x < y <= hi ==> InOrder(ptr[..], Ranks(block[..nblock]), x, y)
  {
    hide Comparable, Alike, Rearranged, InOrder, Ranks, MostRounds, Grid, Turns;
    ghost var b, f0 := block[..nblock], ptr[..];
    AlikeEntries(b, f0, lo, hi, d);
    AlikeSize(b, f0, lo, hi, d);
    RearrangedSelf(f0, lo, hi + 1);
    budget' := budget;
    var bigN := hi - lo + 1;
    if bigN < 2 {
      return;
    }
    var hp := 0;
    while INCS[hp] < bigN
      invariant 0 <= hp < 14
      decreases 14 - hp
    {
      hp := hp + 1;
    }
    hp := hp - 1;
    ghost var grid := Grid(nblock, bigN, bigN);
    TurnsNext(12, grid);
    while hp >= 0
      invariant -1 <= hp < 13 && 0 <= budget - budget' <= Turns(12 - hp, grid)
      invariant Rearranged(f0, ptr[..], lo, hi + 1)
      invariant Alike(b, ptr[..], lo, hi, d) && Entries(ptr[..], Ranks(b), lo, hi)
      invariant hp == -1 ==> forall x, y :: lo <= x < y <= hi ==> InOrder(ptr[..], Ranks(b), x, y)
    {
      var h := INCS[hp];
      var i := lo + h;
      var copies := 0;
      ghost var before := budget';
      GridNext(nblock, bigN, 0);
      TurnsNext(12 - hp, grid);
      GridGrows(nblock, bigN, 0, bigN);
      while i <= hi
        invariant lo + h <= i && (i <= hi + 1 || i == lo + h) && 0 <= copies < 3
        invariant 0 <= before - budget' <= Grid(nblock, bigN, i - lo - h) <= grid
        invariant Rearranged(f0, ptr[..], lo, hi + 1)
        invariant Alike(b, ptr[..], lo, hi, d) && Entries(ptr[..], Ranks(b), lo, hi)
        invariant h == 1 ==> forall x, y :: lo <= x < y < i ==> InOrder(ptr[..], Ranks(b), x, y)
      {
        GridNext(nblock, bigN, i - lo - h);
        GridGrows(nblock, bigN, i - lo - h + 1, bigN);
        budget' := SinkWithin(ptr, block, quadrant, nblock, lo, i, hi, h, d, budget', f0);
        i := i + 1;
        copies := copies + 1;
        if copies == 3 {
          copies := 0;
          if budget' < 0 {
            return;
          }
        }
      }
      hp := hp - 1;
    }
  }
}
