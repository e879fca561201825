/** The rank of each rotation among all rotations of its block: an integer key that orders
    rotations exactly as their strings do, so that the sorts can be stated over keys. */
module RotationRank {
  import opened Rotations

  ghost function Smaller(b: seq<byte>, i: int): (s: set<int>)
    requires 0 <= i < |b|
    ensures forall j :: j in s <==> 0 <= j < |b| && Cmp(b, j, i, |b|) < 0
  {
    set j | 0 <= j < |b| && Cmp(b, j, i, |b|) < 0
  }

  /** How many rotations are smaller. */
  ghost function Rank(b: seq<byte>, i: int): (r: nat)
    requires 0 <= i < |b|
  {
    |Smaller(b, i)|
  }

  ghost function Ranks(b: seq<byte>): (key: seq<int>)
    ensures |key| == |b| && forall i :: 0 <= i < |b| ==> key[i] == Rank(b, i)
  {
    seq(|b|, i requires 0 <= i < |b| => Rank(b, i))
  }

  lemma SmallerIncluded(b: seq<byte>, i: int, j: int)
    requires 0 <= i < |b| && 0 <= j < |b| && Cmp(b, i, j, |b|) <= 0
    ensures Smaller(b, i) <= Smaller(b, j)
  {
    forall l | l in Smaller(b, i) ensures l in Smaller(b, j) {
      CmpTransitive(b, l, i, j, |b|);
    }
  }

  /** Ranks compare as the rotations do. */
  lemma RankIsOrder(b: seq<byte>, i: int, j: int)
    requires 0 <= i < |b| && 0 <= j < |b|
    ensures Rank(b, i) <= Rank(b, j) <==> Cmp(b, i, j, |b|) <= 0
  {
    hide Cmp;
    CmpFlip(b, i, j, |b|);
    CmpFlip(b, j, j, |b|);
    if Cmp(b, i, j, |b|) <= 0 {
      SmallerIncluded(b, i, j);
      SubsetCardinality(Smaller(b, i), Smaller(b, j));
    } else {
      SmallerIncluded(b, j, i);
      assert j in Smaller(b, i) && j !in Smaller(b, j);
      SubsetCardinality(Smaller(b, j), Smaller(b, i) - {j});
    }
  }

  /** A difference among the first k characters decides. */
  lemma RankByPrefix(b: seq<byte>, i: int, j: int, k: nat)
    requires 0 <= i < |b| && 0 <= j < |b| && Cmp(b, i, j, k) < 0
    ensures Rank(b, i) < Rank(b, j)
  {
    hide Cmp, Rank;
    if k <= |b| {
      CmpSplit(b, i, j, k, |b| - k);
    } else {
      CmpBeyond(b, i, j, k);
    }
    CmpFlip(b, i, j, |b|);
    RankIsOrder(b, j, i);
  }

  /** After k equal characters the rest decides. */
  lemma RankSkip(b: seq<byte>, i: int, j: int, k: nat)
    requires 0 <= i < |b| && 0 <= j < |b| && Cmp(b, i, j, k) == 0
    ensures Rank(b, i) <= Rank(b, j) <==> Rank(b, Adv(|b|, i, k)) <= Rank(b, Adv(|b|, j, k))
  {
    hide Cmp, Rank;
    CmpSplit(b, i, j, k, |b|);
    CmpBeyond(b, i, j, k + |b|);
    RankIsOrder(b, i, j);
    RankIsOrder(b, Adv(|b|, i, k), Adv(|b|, j, k));
  }

  /** One more character. */
  lemma CmpMore(b: seq<byte>, i: int, j: int, k: nat)
    requires 0 <= i < |b| && 0 <= j < |b| && Cmp(b, i, j, k) == 0
    ensures b[Adv(|b|, i, k)] == b[Adv(|b|, j, k)] ==> Cmp(b, i, j, k + 1) == 0
    ensures b[Adv(|b|, i, k)] < b[Adv(|b|, j, k)] ==> Cmp(b, i, j, k + 1) < 0
  {
    hide Cmp;
    CmpSplit(b, i, j, k, 1);
    CmpOne(b, Adv(|b|, i, k), Adv(|b|, j, k));
  }

  lemma CmpNone(b: seq<byte>, i: int, j: int)
    requires 0 <= i < |b| && 0 <= j < |b|
    ensures Cmp(b, i, j, 0) == 0
  {
  }

  /** Rotations that agree on as many characters as the block has are equal. */
  lemma RankEqual(b: seq<byte>, i: int, j: int, k: nat)
    requires 0 <= i < |b| && 0 <= j < |b| && Cmp(b, i, j, k) == 0 && |b| <= k
    ensures Rank(b, i) == Rank(b, j)
  {
    hide Cmp, Rank;
    CmpBeyond(b, i, j, k);
    CmpFlip(b, i, j, |b|);
    RankIsOrder(b, i, j);
    RankIsOrder(b, j, i);
  }

  /** Sorted ranks are sorted rotations. */
  lemma SortedByRank(b: seq<byte>, p: seq<int>)
    requires IsPerm(p, |b|) && forall x, y :: 0 <= x < y < |b| ==> Rank(b, p[x]) <= Rank(b, p[y])
    ensures InRotationOrder(b, p)
  {
    hide Cmp, Rank;
    forall x, y | 0 <= x < y < |b| ensures Cmp(b, p[x], p[y], |b|) <= 0 {
      RankIsOrder(b, p[x], p[y]);
    }
  }

  // ---------- Blocks of one repeated byte ----------

  ghost predicate Uniform(b: seq<byte>, ss: int) {
    forall i :: 0 <= i < |b| ==> b[i] == ss
  }

  lemma UniformRanks(b: seq<byte>, ss: int, i: int, j: int)
    requires Uniform(b, ss) && 0 <= i < |b| && 0 <= j < |b|
    ensures Rank(b, i) == Rank(b, j)
  {
    hide Rank;
    UniformCmp(b, ss, i, j, |b|);
    RankEqual(b, i, j, |b|);
  }

  lemma {:induction false} UniformCmp(b: seq<byte>, ss: int, i: int, j: int, k: nat)
    requires Uniform(b, ss) && 0 <= i < |b| && 0 <= j < |b|
    ensures Cmp(b, i, j, k) == 0
    decreases k
  {
    hide Cmp;
    if k == 0 {
      CmpNone(b, i, j);
    } else {
      UniformCmp(b, ss, i, j, k - 1);
      CmpMore(b, i, j, k - 1);
    }
  }
}
