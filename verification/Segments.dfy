/** What both quicksorts of the block sorter share: rearranging a range of an index array,
    and the explicit stack of segments that are still to be sorted. */
module Segments {

  // ---------- Rearranging a range ----------

  /** `g` is `f` with the entries at lo <= k < hi permuted and nothing else changed. */
  ghost predicate Rearranged(f: seq<int>, g: seq<int>, lo: int, hi: int) {
    && |f| == |g|
    && 0 <= lo <= hi <= |f|
    && f[..lo] == g[..lo]
    && f[hi..] == g[hi..]
    && multiset(f[lo..hi]) == multiset(g[lo..hi])
  }

  lemma RearrangedOutside(f: seq<int>, g: seq<int>, lo: int, hi: int, k: int)
    requires Rearranged(f, g, lo, hi) && 0 <= k < |f| && !(lo <= k < hi)
    ensures f[k] == g[k]
  {
    if k < lo {
      assert f[k] == f[..lo][k] && g[k] == g[..lo][k];
    } else {
      assert f[k] == f[hi..][k - hi] && g[k] == g[hi..][k - hi];
    }
  }

  lemma RearrangedMember(f: seq<int>, g: seq<int>, lo: int, hi: int, k: int) returns (k': int)
    requires Rearranged(f, g, lo, hi) && lo <= k < hi
    ensures lo <= k' < hi && f[k'] == g[k]
  {
    assert g[k] == g[lo..hi][k - lo];
    assert g[k] in multiset(g[lo..hi]);
    assert g[k] in f[lo..hi];
    var j :| 0 <= j < hi - lo && f[lo..hi][j] == g[k];
    k' := lo + j;
  }

  lemma RearrangedTransitive(f: seq<int>, g: seq<int>, h: seq<int>, lo: int, hi: int)
    requires Rearranged(f, g, lo, hi) && Rearranged(g, h, lo, hi)
    ensures Rearranged(f, h, lo, hi)
  {
  }

  lemma RearrangedSelf(f: seq<int>, lo: int, hi: int)
    requires 0 <= lo <= hi <= |f|
    ensures Rearranged(f, f, lo, hi)
  {
  }

  lemma RearrangedFlip(f: seq<int>, g: seq<int>, lo: int, hi: int)
    requires Rearranged(f, g, lo, hi)
    ensures Rearranged(g, f, lo, hi)
  {
  }

  /** A rearrangement inside a range is one of any wider range. */
  lemma RearrangedWiden(f: seq<int>, g: seq<int>, lo: int, hi: int, lo': int, hi': int)
    requires Rearranged(f, g, lo, hi) && 0 <= lo' <= lo && hi <= hi' <= |f|
    ensures Rearranged(f, g, lo', hi')
  {
    assert f[lo'..hi'] == f[lo'..lo] + f[lo..hi] + f[hi..hi'];
    assert g[lo'..hi'] == g[lo'..lo] + g[lo..hi] + g[hi..hi'];
    assert f[lo'..lo] == f[..lo][lo'..] && g[lo'..lo] == g[..lo][lo'..];
    assert f[hi..hi'] == f[hi..][..hi' - hi] && g[hi..hi'] == g[hi..][..hi' - hi];
    assert f[..lo'] == f[..lo][..lo'] && g[..lo'] == g[..lo][..lo'];
    assert f[hi'..] == f[hi..][hi' - hi..] && g[hi'..] == g[hi..][hi' - hi..];
  }

  /** `f` with the entries at i and j exchanged. */
  ghost function Swapped(f: seq<int>, i: int, j: int): seq<int>
    requires 0 <= i < |f| && 0 <= j < |f|
  {
    f[i := f[j]][j := f[i]]
  }

  method Swap(a: array<int>, i: int, j: int)
    requires 0 <= i < a.Length && 0 <= j < a.Length
    modifies a
    ensures a[..] == Swapped(old(a[..]), i, j)
  {
    a[i], a[j] := a[j], a[i];
  }

  method Put(a: array<int>, i: int, v: int)
    requires 0 <= i < a.Length
    modifies a
    ensures a[..] == old(a[..])[i := v]
  {
    a[i] := v;
  }

  /** A hole moves: the entry at j goes to the hole, and tmp to j. */
  lemma HoleMoves(f: seq<int>, hole: int, j: int, tmp: int)
    requires 0 <= hole < |f| && 0 <= j < |f| && hole != j
    ensures Swapped(f[hole := tmp], hole, j) == f[hole := f[j]][j := tmp]
  {
  }

  /** Exchanging two entries rearranges any range holding both. */
  lemma SwapRearranges(f: seq<int>, i: int, j: int, lo: int, hi: int)
    requires 0 <= lo <= i < hi <= |f| && lo <= j < hi
    ensures Rearranged(f, Swapped(f, i, j), lo, hi)
  {
    var g := Swapped(f, i, j);
    var s, t := f[lo..hi], g[lo..hi];
    assert t == s[i - lo := s[j - lo]][j - lo := s[i - lo]];
    assert f[..lo] == g[..lo] && f[hi..] == g[hi..];
  }

  /** Entries that were all distinct stay so, and no value appears or goes. */
  lemma RearrangedDistinct(f: seq<int>, g: seq<int>, lo: int, hi: int)
    requires Rearranged(f, g, lo, hi)
    requires forall i, j :: 0 <= i < j < |f| ==> f[i] != f[j]
    ensures forall i, j :: 0 <= i < j < |g| ==> g[i] != g[j]
  {
    RearrangedWiden(f, g, lo, hi, 0, |f|);
    assert f[0..|f|] == f && g[0..|f|] == g;
    DistinctMultiset(f);
    forall i, j | 0 <= i < j < |g| ensures g[i] != g[j] {
      if g[i] == g[j] {
        TwiceInMultiset(g, i, j);
      }
    }
  }

  lemma DistinctMultiset(f: seq<int>)
    requires forall i, j :: 0 <= i < j < |f| ==> f[i] != f[j]
    ensures forall x :: multiset(f)[x] <= 1
  {
    if f != [] {
      var g := f[..|f| - 1];
      DistinctMultiset(g);
      assert f == g + [f[|f| - 1]];
      assert f[|f| - 1] !in g;
      assert multiset(f) == multiset(g) + multiset{f[|f| - 1]};
    }
  }

  lemma TwiceInMultiset(f: seq<int>, i: int, j: int)
    requires 0 <= i < j < |f| && f[i] == f[j]
    ensures multiset(f)[f[i]] >= 2
  {
    assert f == f[..j] + [f[j]] + f[j + 1..];
    assert f[i] in f[..j];
    assert multiset(f) == multiset(f[..j]) + multiset{f[j]} + multiset(f[j + 1..]);
  }

  // ---------- The stack of unsorted segments ----------

  /** Positions lo..hi (inclusive, possibly none) whose entries agree on `depth` characters. */
  datatype Segment = Segment(lo: int, hi: int, depth: int) {
    function Size(): int { hi - lo + 1 }
  }

  ghost predicate Entries(f: seq<int>, key: seq<int>, lo: int, hi: int) {
    && 0 <= lo && hi < |f|
    && forall k :: lo <= k <= hi ==> 0 <= f[k] < |key|
  }

  ghost predicate InOrder(f: seq<int>, key: seq<int>, x: int, y: int)
    requires 0 <= x < |f| && 0 <= y < |f| && 0 <= f[x] < |key| && 0 <= f[y] < |key|
  {
    key[f[x]] <= key[f[y]]
  }

  ghost predicate Covered(st: seq<Segment>, x: int, y: int) {
    exists k :: 0 <= k < |st| && st[k].lo <= x && y <= st[k].hi
  }

  ghost predicate Apart(s: Segment, t: Segment) {
    s.hi < t.lo || t.hi < s.lo
  }

  ghost predicate Disjoint(st: seq<Segment>) {
    forall i, j :: 0 <= i < j < |st| ==> Apart(st[i], st[j])
  }

  ghost predicate Within(st: seq<Segment>, lo: int, hi: int) {
    forall i :: 0 <= i < |st| ==> lo <= st[i].lo <= st[i].hi + 1 && st[i].hi <= hi
  }

  /** Any two positions are in order already, unless one segment on the stack holds both. */
  ghost predicate SortedExcept(f: seq<int>, key: seq<int>, st: seq<Segment>, lo: int, hi: int)
    requires Entries(f, key, lo, hi)
  {
    forall x, y :: lo <= x < y <= hi ==> InOrder(f, key, x, y) || Covered(st, x, y)
  }

  /** Popping a segment, rearranging it, and pushing what of it is still unsorted. */
  lemma Refine(f: seq<int>, g: seq<int>, key: seq<int>, rest: seq<Segment>, top: Segment,
               new_: seq<Segment>, lo: int, hi: int)
    requires Entries(f, key, lo, hi) && Entries(g, key, lo, hi)
    requires Disjoint(rest + [top]) && Within(rest + [top], lo, hi)
    requires SortedExcept(f, key, rest + [top], lo, hi)
    requires Rearranged(f, g, top.lo, top.hi + 1)
    requires lo <= top.lo && top.hi <= hi
    requires forall x, y :: top.lo <= x < y <= top.hi ==> InOrder(g, key, x, y) || Covered(new_, x, y)
    ensures SortedExcept(g, key, rest + new_, lo, hi)
  {
    hide Rearranged, InOrder, Covered;
    forall x, y | lo <= x < y <= hi
      ensures InOrder(g, key, x, y) || Covered(rest + new_, x, y)
    {
      if top.lo <= x && y <= top.hi {
        if Covered(new_, x, y) {
          CoveredMore(rest, new_, x, y);
        }
      } else {
        RefineAt(f, g, key, rest, top, lo, hi, x, y);
        if Covered(rest, x, y) {
          CoveredMore(rest, new_, x, y);
        }
      }
    }
  }

  lemma CoveredMore(s: seq<Segment>, t: seq<Segment>, x: int, y: int)
    ensures Covered(s, x, y) || Covered(t, x, y) ==> Covered(s + t, x, y)
  {
    if Covered(s, x, y) {
      var k :| 0 <= k < |s| && s[k].lo <= x && y <= s[k].hi;
      assert (s + t)[k] == s[k];
    } else if Covered(t, x, y) {
      var k :| 0 <= k < |t| && t[k].lo <= x && y <= t[k].hi;
      assert (s + t)[|s| + k] == t[k];
    }
  }

  /** Two slots not both in the segment: where their entries came from. */
  lemma RefineAt(f: seq<int>, g: seq<int>, key: seq<int>, rest: seq<Segment>, top: Segment, lo: int, hi: int, x: int, y: int)
    requires Entries(f, key, lo, hi) && Entries(g, key, lo, hi)
    requires Disjoint(rest + [top]) && SortedExcept(f, key, rest + [top], lo, hi)
    requires Rearranged(f, g, top.lo, top.hi + 1) && lo <= top.lo && top.hi <= hi
    requires lo <= x < y <= hi && !(top.lo <= x && y <= top.hi)
    ensures InOrder(g, key, x, y) || Covered(rest, x, y)
  {
    hide Rearranged, Covered, Disjoint;
    var x', y' := x, y;
    if top.lo <= x <= top.hi {
      x' := RearrangedMember(f, g, top.lo, top.hi + 1, x);
    } else {
      RearrangedOutside(f, g, top.lo, top.hi + 1, x);
    }
    if top.lo <= y <= top.hi {
      y' := RearrangedMember(f, g, top.lo, top.hi + 1, y);
    } else {
      RearrangedOutside(f, g, top.lo, top.hi + 1, y);
    }
    assert f[x'] == g[x] && f[y'] == g[y] && x' < y';
    assert InOrder(f, key, x', y') || Covered(rest + [top], x', y');
    CoveredByRest(rest, top, x, y, x', y');
  }

  lemma CoveredByRest(rest: seq<Segment>, top: Segment, x: int, y: int, x': int, y': int)
    requires Disjoint(rest + [top])
    requires x < y && x' < y' && !(top.lo <= x && y <= top.hi)
    requires if top.lo <= x <= top.hi then top.lo <= x' <= top.hi else x' == x
    requires if top.lo <= y <= top.hi then top.lo <= y' <= top.hi else y' == y
    ensures Covered(rest + [top], x', y') ==> Covered(rest, x, y)
  {
    if Covered(rest + [top], x', y') {
      var st := rest + [top];
      var k :| 0 <= k < |st| && st[k].lo <= x' && y' <= st[k].hi;
      assert k < |rest|;
      assert Apart(st[k], st[|rest|]);
      assert rest[k].lo <= x && y <= rest[k].hi;
    }
  }
}
