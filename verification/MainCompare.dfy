/** mainGtU: comparing two rotations by their characters and the cached orderings in
    `quadrant` (dep/bzip2/blocksort.c:337-459). */
module MainCompare {
  import opened Rotations
  import opened RotationRank

  const OVERSHOOT := 34

  /** The block and its first characters once more behind it. */
  ghost predicate Wrapped(a: seq<int>, n: nat) {
    && OVERSHOOT < n && n + OVERSHOOT <= |a|
    && forall i :: 0 <= i < OVERSHOOT ==> a[n + i] == a[i]
  }

  /** What the comparison relies on: among rotations that start with the same character, a smaller
      quadrant value means not larger as a string.  Equal strings may have different values:
      QuadrantMeaning says when. */
  ghost predicate Meaningful(b: seq<byte>, quad: seq<int>) {
    && |b| <= |quad|
    && forall i, j :: 0 <= i < |b| && 0 <= j < |b| && b[i] == b[j] && quad[i] < quad[j] ==> Rank(b, i) <= Rank(b, j)
  }

  ghost predicate Comparable(block: seq<byte>, quad: seq<int>, n: nat) {
    Wrapped(block, n) && Wrapped(quad, n) && Meaningful(block[..n], quad)
  }

  /** The position that an index into the wrapped arrays stands for. */
  ghost function At(n: nat, i: int): (r: nat)
    requires 0 < n && 0 <= i
    ensures r < n
  {
    i % n
  }

  lemma WrappedAt(a: seq<int>, n: nat, i: int)
    requires Wrapped(a, n) && 0 <= i < n + OVERSHOOT
    ensures a[i] == a[At(n, i)]
  {
    if i < n {
      ModUnique(i, n, 0, i);
    } else {
      ModUnique(i, n, 1, i - n);
    }
  }

  lemma AtNext(n: nat, i: int)
    requires 0 < n && 0 <= i
    ensures At(n, i + 1) == Adv(n, At(n, i), 1)
  {
    var q, r := i / n, i % n;
    AdvSmall(n, r, 1);
    if r + 1 < n {
      ModUnique(i + 1, n, q, r + 1);
    } else {
      assert i + 1 == (q + 1) * n;
      ModUnique(i + 1, n, q + 1, 0);
    }
  }

  lemma AtWrap(n: nat, i: int)
    requires 0 < n <= i
    ensures At(n, i - n) == At(n, i)
  {
    var q, r := (i - n) / n, (i - n) % n;
    assert i == (q + 1) * n + r;
    ModUnique(i, n, q + 1, r);
  }

  // ---------- The verdict ----------

  /** The verdict `gt` is right for rotations p1 and p2, where either is right for equal ones. */
  ghost predicate Right(b: seq<byte>, p1: int, p2: int, gt: bool)
    requires 0 <= p1 < |b| && 0 <= p2 < |b|
  {
    if gt then Rank(b, p1) >= Rank(b, p2) else Rank(b, p1) <= Rank(b, p2)
  }

  /** The rotations differ, and `gt` says which is greater. */
  ghost predicate Differs(b: seq<byte>, p1: int, p2: int, gt: bool)
    requires 0 <= p1 < |b| && 0 <= p2 < |b|
  {
    if gt then Rank(b, p1) > Rank(b, p2) else Rank(b, p1) < Rank(b, p2)
  }

  /** Quadrant value t that the comparison looks at for rotation i, after twelve characters. */
  ghost function Compared(quad: seq<int>, n: nat, i: int, t: nat): int
    requires 0 < n <= |quad| && 0 <= i
  {
    quad[Adv(n, i, 12 + t)]
  }

  /** The first t compared pairs of quadrant values are equal. */
  ghost predicate SameQuads(quad: seq<int>, n: nat, p1: int, p2: int, t: int)
    requires 0 < n <= |quad| && 0 <= p1 && 0 <= p2
  {
    forall u :: 0 <= u < t ==> Compared(quad, n, p1, u) == Compared(quad, n, p2, u)
  }

  /** Some compared quadrant values differ, and of the first that do the left one is greater. */
  ghost predicate FirstGreater(quad: seq<int>, n: nat, p1: int, p2: int)
    requires 0 < n <= |quad| && 0 <= p1 && 0 <= p2
  {
    exists t :: 0 <= t < n && SameQuads(quad, n, p1, p2, t) && Compared(quad, n, p1, t) > Compared(quad, n, p2, t)
  }

  /** What exactly the comparison answers. */
  ghost predicate Verdict(b: seq<byte>, quad: seq<int>, p1: int, p2: int, gt: bool)
    requires 0 <= p1 < |b| <= |quad| && 0 <= p2 < |b|
  {
    && (Rank(b, p1) != Rank(b, p2) ==> (gt <==> Rank(b, p1) > Rank(b, p2)))
    && (Rank(b, p1) == Rank(b, p2) ==> (gt <==> FirstGreater(quad, |b|, p1, p2)))
  }

  /** The comparison goes on after its first twelve characters and t more rounds of eight: characters
      and quadrant values agree so far. */
  ghost predicate GoesOn(b: seq<byte>, quad: seq<int>, p1: int, p2: int, t: nat)
    requires 0 <= p1 < |b| <= |quad| && 0 <= p2 < |b|
  {
    Cmp(b, p1, p2, 12 + 8 * t) == 0 && SameQuads(quad, |b|, p1, p2, 8 * t)
  }

  /** The comparison takes r full rounds of eight, which is what it costs: as many as agree, but no
      more than lead once round the block. */
  ghost predicate Costs(b: seq<byte>, quad: seq<int>, p1: int, p2: int, r: int)
    requires 0 <= p1 < |b| <= |quad| && 0 <= p2 < |b|
  {
    && 0 <= r <= (|b| + 16) / 8
    && (r > 0 ==> GoesOn(b, quad, p1, p2, r))
    && (r < (|b| + 16) / 8 ==> !GoesOn(b, quad, p1, p2, r + 1))
  }

  /** What has been told apart stays so. */
  lemma CmpLonger(b: seq<byte>, i: int, j: int, g: nat, k: nat)
    requires 0 <= i < |b| && 0 <= j < |b| && g <= k && Cmp(b, i, j, g) != 0
    ensures Cmp(b, i, j, k) != 0
  {
    CmpSplit(b, i, j, g, k - g);
  }

  lemma DecidedEarly(b: seq<byte>, quad: seq<int>, p1: int, p2: int)
    requires 0 <= p1 < |b| <= |quad| && 0 <= p2 < |b| && Cmp(b, p1, p2, 12) != 0
    ensures Costs(b, quad, p1, p2, 0)
  {
    hide Cmp, SameQuads;
    CmpLonger(b, p1, p2, 12, 20);
  }

  lemma DiffersVerdict(b: seq<byte>, quad: seq<int>, p1: int, p2: int, gt: bool)
    requires 0 <= p1 < |b| <= |quad| && 0 <= p2 < |b| && Differs(b, p1, p2, gt)
    ensures Verdict(b, quad, p1, p2, gt)
  {
  }

  lemma VerdictRight(b: seq<byte>, quad: seq<int>, p1: int, p2: int, gt: bool)
    requires 0 <= p1 < |b| <= |quad| && 0 <= p2 < |b| && Verdict(b, quad, p1, p2, gt)
    ensures Right(b, p1, p2, gt)
  {
    hide Rank, FirstGreater;
  }

  lemma ComparedRound(quad: seq<int>, n: nat, i: int, t: nat)
    requires 0 < n <= |quad| && 0 <= i && n <= t
    ensures Compared(quad, n, i, t - n) == Compared(quad, n, i, t)
  {
    var x := i + 12 + (t - n);
    var q, r := x / n, x % n;
    assert i + 12 + t == (q + 1) * n + r;
    ModUnique(i + 12 + t, n, q + 1, r);
  }

  /** The pairs repeat after n, so the first that differ are among the first n. */
  lemma FirstEarly(quad: seq<int>, n: nat, p1: int, p2: int, t: nat)
    requires 0 < n <= |quad| && 0 <= p1 && 0 <= p2 && SameQuads(quad, n, p1, p2, t)
    requires Compared(quad, n, p1, t) != Compared(quad, n, p2, t)
    ensures t < n
  {
    hide Compared;
    if n <= t {
      ComparedRound(quad, n, p1, t);
      ComparedRound(quad, n, p2, t);
      assert false;
    }
  }

  lemma QuadsDecide(quad: seq<int>, n: nat, p1: int, p2: int, t: nat)
    requires 0 < n <= |quad| && 0 <= p1 && 0 <= p2 && SameQuads(quad, n, p1, p2, t)
    requires Compared(quad, n, p1, t) != Compared(quad, n, p2, t)
    ensures FirstGreater(quad, n, p1, p2) <==> Compared(quad, n, p1, t) > Compared(quad, n, p2, t)
  {
    hide Compared;
    FirstEarly(quad, n, p1, p2, t);
  }

  /** k characters agree, and i1, i2 stand k characters on. */
  ghost predicate Agreed(b: seq<byte>, p1: int, p2: int, i1: int, i2: int, k: nat)
    requires 0 <= p1 < |b| && 0 <= p2 < |b|
  {
    && 0 <= i1 && 0 <= i2 && Cmp(b, p1, p2, k) == 0
    && At(|b|, i1) == Adv(|b|, p1, k) && At(|b|, i2) == Adv(|b|, p2, k)
  }

  /** One step of the comparison: what a difference means, and what none means. */
  lemma CharStep(b: seq<byte>, block: seq<byte>, p1: int, p2: int, i1: int, i2: int, k: nat)
    requires Wrapped(block, |b|) && block[..|b|] == b && 0 <= p1 < |b| && 0 <= p2 < |b|
    requires Agreed(b, p1, p2, i1, i2, k) && i1 < |b| + OVERSHOOT && i2 < |b| + OVERSHOOT
    ensures block[i1] != block[i2] ==> Differs(b, p1, p2, block[i1] > block[i2]) && Cmp(b, p1, p2, k + 1) != 0
    ensures block[i1] == block[i2] ==> Agreed(b, p1, p2, i1 + 1, i2 + 1, k + 1)
  {
    hide Cmp, Rank, Adv;
    var n := |b|;
    WrappedAt(block, n, i1);
    WrappedAt(block, n, i2);
    assert block[..n][At(n, i1)] == block[At(n, i1)] && block[..n][At(n, i2)] == block[At(n, i2)];
    CmpMore(b, p1, p2, k);
    CmpFlip(b, p1, p2, k);
    CmpMore(b, p2, p1, k);
    if block[i1] < block[i2] {
      RankByPrefix(b, p1, p2, k + 1);
    } else if block[i1] > block[i2] {
      RankByPrefix(b, p2, p1, k + 1);
      CmpFlip(b, p1, p2, k + 1);
    } else {
      AtNext(n, i1);
      AtNext(n, i2);
      AdvAdd(n, p1, k, 1);
      AdvAdd(n, p2, k, 1);
    }
  }

  /** Where the characters agree, different quadrant values are right about different rotations. */
  lemma QuadRight(b: seq<byte>, block: seq<byte>, quad: seq<int>, p1: int, p2: int, i1: int, i2: int, k: nat)
    requires Comparable(block, quad, |b|) && block[..|b|] == b && 0 <= p1 < |b| && 0 <= p2 < |b|
    requires Agreed(b, p1, p2, i1, i2, k) && i1 < |b| + OVERSHOOT && i2 < |b| + OVERSHOOT
    requires block[i1] == block[i2] && quad[i1] != quad[i2]
    ensures Right(b, p1, p2, quad[i1] > quad[i2])
  {
    hide Cmp, Rank, Adv;
    var n := |b|;
    var a1, a2 := At(n, i1), At(n, i2);
    WrappedAt(block, n, i1);
    WrappedAt(block, n, i2);
    WrappedAt(quad, n, i1);
    WrappedAt(quad, n, i2);
    assert block[..n][a1] == block[a1] && block[..n][a2] == block[a2];
    CmpFlip(b, p1, p2, k);
    RankSkip(b, p1, p2, k);
    RankSkip(b, p2, p1, k);
  }

  lemma QuadAt(b: seq<byte>, quad: seq<int>, p1: int, p2: int, i1: int, i2: int, k: nat)
    requires Wrapped(quad, |b|) && 0 <= p1 < |b| && 0 <= p2 < |b|
    requires Agreed(b, p1, p2, i1, i2, k) && i1 < |b| + OVERSHOOT && i2 < |b| + OVERSHOOT
    ensures quad[i1] == quad[Adv(|b|, p1, k)] && quad[i2] == quad[Adv(|b|, p2, k)]
  {
    hide Cmp, Adv, At;
    WrappedAt(quad, |b|, i1);
    WrappedAt(quad, |b|, i2);
  }

  /** One pair of quadrant values where the characters agree. */
  lemma QuadStep(b: seq<byte>, block: seq<byte>, quad: seq<int>, p1: int, p2: int, i1: int, i2: int, k: nat)
    requires Comparable(block, quad, |b|) && block[..|b|] == b && 0 <= p1 < |b| && 0 <= p2 < |b|
    requires Agreed(b, p1, p2, i1, i2, k) && i1 < |b| + OVERSHOOT && i2 < |b| + OVERSHOOT && 12 <= k
    requires block[i1] == block[i2] && SameQuads(quad, |b|, p1, p2, k - 12)
    ensures quad[i1] != quad[i2] ==> Verdict(b, quad, p1, p2, quad[i1] > quad[i2])
    ensures quad[i1] == quad[i2] <==> SameQuads(quad, |b|, p1, p2, k - 11)
  {
    hide Cmp, Rank, Adv, At, Meaningful, FirstGreater;
    AgreedRange(b, p1, p2, i1, i2, k);
    QuadAt(b, quad, p1, p2, i1, i2, k);
    assert 12 + (k - 12) == k;
    if quad[i1] != quad[i2] {
      QuadRight(b, block, quad, p1, p2, i1, i2, k);
      QuadsDecide(quad, |b|, p1, p2, k - 12);
    }
  }

  /** Everything agrees all the way round. */
  lemma AllAgreed(b: seq<byte>, quad: seq<int>, p1: int, p2: int, i1: int, i2: int, k: nat)
    requires 0 <= p1 < |b| <= |quad| && 0 <= p2 < |b| && Agreed(b, p1, p2, i1, i2, k) && |b| + 12 <= k
    requires SameQuads(quad, |b|, p1, p2, k - 12)
    ensures Verdict(b, quad, p1, p2, false)
  {
    hide Adv, At, Rank;
    RankEqual(b, p1, p2, k);
  }

  /** The characters alone, for the first twelve. */
  method CompareChars(i10: int, i20: int, block: array<byte>, n: nat, ghost p1: int, ghost p2: int)
    returns (decided: bool, gt: bool, i1: int, i2: int)
    requires Wrapped(block[..], n) && 0 <= p1 < n && 0 <= p2 < n
    requires Agreed(block[..n], p1, p2, i10, i20, 0) && i10 < n + 15 && i20 < n + 15
    ensures decided ==> Differs(block[..n], p1, p2, gt) && Cmp(block[..n], p1, p2, 12) != 0
    ensures !decided ==> i1 == i10 + 12 && i2 == i20 + 12 && Agreed(block[..n], p1, p2, i1, i2, 12)
  {
    hide Agreed, Differs, Wrapped, Cmp;
    WrappedSize(block[..], n);
    ghost var b := block[..n];
    assert block[..][..n] == b;
    decided, gt, i1, i2 := true, false, i10, i20;
    var t := 0;
    while t < 12
      invariant t <= 12 && i1 == i10 + t && i2 == i20 + t && decided
      invariant Agreed(b, p1, p2, i1, i2, t)
    {
      AgreedRange(b, p1, p2, i1, i2, t);
      CharStep(b, block[..], p1, p2, i1, i2, t);
      var c1, c2 := block[i1], block[i2];
      if c1 != c2 {
        gt := c1 > c2;
        CmpLonger(b, p1, p2, t + 1, 12);
        return;
      }
      i1, i2, t := i1 + 1, i2 + 1, t + 1;
    }
    decided := false;
  }

  lemma WrappedSize(a: seq<int>, n: nat)
    requires Wrapped(a, n)
    ensures 34 < n && n + 34 <= |a|
  {
  }

  lemma AgreedRange(b: seq<byte>, p1: int, p2: int, i1: int, i2: int, k: nat)
    requires 0 <= p1 < |b| && 0 <= p2 < |b| && Agreed(b, p1, p2, i1, i2, k)
    ensures 0 <= i1 && 0 <= i2
  {
  }

  /** Eight characters, each with its quadrant value. */
  method CompareBoth(i10: int, i20: int, block: array<byte>, quadrant: array<int>, n: nat, ghost p1: int, ghost p2: int,
                     ghost k: nat)
    returns (decided: bool, gt: bool, i1: int, i2: int)
    requires Comparable(block[..], quadrant[..], n) && 0 <= p1 < n && 0 <= p2 < n
    requires Agreed(block[..n], p1, p2, i10, i20, k) && i10 < n + 27 && i20 < n + 27 && 12 <= k
    requires SameQuads(quadrant[..], n, p1, p2, k - 12)
    ensures decided ==> Verdict(block[..n], quadrant[..], p1, p2, gt)
    ensures decided ==> Cmp(block[..n], p1, p2, k + 8) != 0 || !SameQuads(quadrant[..], n, p1, p2, k - 4)
    ensures !decided ==> i1 == i10 + 8 && i2 == i20 + 8 && Agreed(block[..n], p1, p2, i1, i2, k + 8)
    ensures !decided ==> SameQuads(quadrant[..], n, p1, p2, k - 4)
  {
    hide Agreed, Differs, Verdict, Wrapped, Meaningful, SameQuads, Cmp;
    WrappedSize(block[..], n);
    WrappedSize(quadrant[..], n);
    ghost var b, q := block[..n], quadrant[..];
    assert block[..][..n] == b;
    decided, gt, i1, i2 := true, false, i10, i20;
    var t := 0;
    while t < 8
      invariant t <= 8 && i1 == i10 + t && i2 == i20 + t && decided
      invariant Agreed(b, p1, p2, i1, i2, k + t) && SameQuads(q, n, p1, p2, k + t - 12)
    {
      AgreedRange(b, p1, p2, i1, i2, k + t);
      CharStep(b, block[..], p1, p2, i1, i2, k + t);
      var c1, c2 := block[i1], block[i2];
      if c1 != c2 {
        DiffersVerdict(b, q, p1, p2, c1 > c2);
        CmpLonger(b, p1, p2, k + t + 1, k + 8);
        gt := c1 > c2;
        return;
      }
      QuadStep(b, block[..], q, p1, p2, i1, i2, k + t);
      var s1, s2 := quadrant[i1], quadrant[i2];
      if s1 != s2 {
        SameFewer(q, n, p1, p2, k + t - 11, k - 4);
        gt := s1 > s2;
        return;
      }
      i1, i2, t := i1 + 1, i2 + 1, t + 1;
    }
    decided := false;
  }

  lemma SameFewer(quad: seq<int>, n: nat, p1: int, p2: int, s: int, t: int)
    requires 0 < n <= |quad| && 0 <= p1 && 0 <= p2 && s <= t && !SameQuads(quad, n, p1, p2, s)
    ensures !SameQuads(quad, n, p1, p2, t)
  {
  }

  lemma AgreedSame(b: seq<byte>, p1: int, p2: int, i1: int, i2: int, k: nat)
    requires 0 <= p1 < |b| && 0 <= p2 < |b| && Agreed(b, p1, p2, i1, i2, k)
    ensures Cmp(b, p1, p2, k) == 0
  {
  }

  lemma AgreedWrap(b: seq<byte>, p1: int, p2: int, i1: int, i2: int, j1: int, j2: int, k: nat)
    requires 0 <= p1 < |b| && 0 <= p2 < |b| && Agreed(b, p1, p2, i1, i2, k)
    requires j1 == (if i1 >= |b| then i1 - |b| else i1) && j2 == (if i2 >= |b| then i2 - |b| else i2)
    ensures Agreed(b, p1, p2, j1, j2, k)
  {
    hide At, Adv, Cmp;
    if i1 >= |b| {
      AtWrap(|b|, i1);
    }
    if i2 >= |b| {
      AtWrap(|b|, i2);
    }
  }

  /** mainGtU: is the rotation at i1 greater than the one at i2?  Between equal rotations the
      first quadrant values that differ decide, so that it may answer yes.  It costs one from the
      budget for every full round of eight after the first twelve characters. */
  method MainGtU(i1: int, i2: int, block: array<byte>, quadrant: array<int>, nblock: nat, budget: int,
                 ghost p1: int, ghost p2: int)
    returns (gt: bool, budget': int)
    requires Comparable(block[..], quadrant[..], nblock)
    requires 0 <= i1 < nblock + 15 && 0 <= i2 < nblock + 15 && p1 == At(nblock, i1) && p2 == At(nblock, i2)
    ensures var b := block[..nblock];
      Rank(b, p1) != Rank(b, p2) ==> (gt <==> Rank(b, p1) > Rank(b, p2))
    ensures var b := block[..nblock];
      Rank(b, p1) == Rank(b, p2) ==> (gt <==> FirstGreater(quadrant[..], nblock, p1, p2))
    ensures Costs(block[..nblock], quadrant[..], p1, p2, budget - budget')
  {
    hide Agreed, Differs, Wrapped, Meaningful, At, SameQuads, Rank, FirstGreater, Cmp;
    WrappedSize(block[..], nblock);
    WrappedSize(quadrant[..], nblock);
    ghost var b, q := block[..nblock], quadrant[..];
    budget' := budget;
    AgreedStart(b, p1, p2, i1, i2);
    var decided, j1, j2;
    decided, gt, j1, j2 := CompareChars(i1, i2, block, nblock, p1, p2);
    if decided {
      DiffersVerdict(b, q, p1, p2, gt);
      DecidedEarly(b, q, p1, p2);
      return;
    }
    NothingCompared(q, nblock, p1, p2);
    var k := nblock + 8;
    ghost var done := 12;
    while true
      invariant Agreed(b, p1, p2, j1, j2, done) && j1 < nblock + 27 && j2 < nblock + 27
      invariant done + k == nblock + 20 && done == 12 + 8 * (budget - budget') && 0 <= k && budget' <= budget
      invariant SameQuads(q, nblock, p1, p2, done - 12)
      decreases k
    {
      ghost var before1, before2 := j1, j2;
      decided, gt, j1, j2 := CompareBoth(j1, j2, block, quadrant, nblock, p1, p2, done);
      AgreedSame(b, p1, p2, before1, before2, done);
      if decided {
        return;
      }
      done := done + 8;
      ghost var l1, l2 := j1, j2;
      if j1 >= nblock {
        j1 := j1 - nblock;
      }
      if j2 >= nblock {
        j2 := j2 - nblock;
      }
      AgreedWrap(b, p1, p2, l1, l2, j1, j2, done);
      k := k - 8;
      budget' := budget' - 1;
      if k < 0 {
        break;
      }
    }
    AllAgreed(b, q, p1, p2, j1, j2, done);
    AgreedSame(b, p1, p2, j1, j2, done);
    gt := false;
  }

  lemma NothingCompared(quad: seq<int>, n: nat, p1: int, p2: int)
    requires 0 < n <= |quad| && 0 <= p1 && 0 <= p2
    ensures SameQuads(quad, n, p1, p2, 0)
  {
  }

  lemma AgreedStart(b: seq<byte>, p1: int, p2: int, i1: int, i2: int)
    requires 0 < |b| && 0 <= i1 && 0 <= i2 && p1 == At(|b|, i1) && p2 == At(|b|, i2)
    ensures Agreed(b, p1, p2, i1, i2, 0)
  {
    CmpNone(b, p1, p2);
    AdvSmall(|b|, p1, 0);
    AdvSmall(|b|, p2, 0);
  }
}
