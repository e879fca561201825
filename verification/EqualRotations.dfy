/** Equal rotations of a block.  Every rotation equals the same number of rotations, so a sorted
    block falls into groups of that size, which is what decides the meaning of the cached
    quadrant values (dep/bzip2/blocksort.c:946-967) and of origPtr
    (dep/bzip2/blocksort.c:1063-1068). */
module EqualRotations {
  import opened Rotations
  import opened RotationRank

  /** The rotations that are the same string as rotation i. */
  ghost function Twins(b: seq<byte>, i: int): (s: set<int>)
    requires 0 <= i < |b|
    ensures forall j :: j in s <==> 0 <= j < |b| && Rank(b, j) == Rank(b, i)
  {
    set j | 0 <= j < |b| && Rank(b, j) == Rank(b, i)
  }

  /** How many rotations are the same string as the block itself. */
  ghost function Repeats(b: seq<byte>): (m: nat)
    requires 0 < |b|
    ensures 0 < m
  {
    assert 0 in Twins(b, 0);
    |Twins(b, 0)|
  }

  /** Rotations have the same rank exactly when they are the same string. */
  lemma SameRank(b: seq<byte>, i: int, j: int)
    requires 0 <= i < |b| && 0 <= j < |b|
    ensures Rank(b, i) == Rank(b, j) <==> Cmp(b, i, j, |b|) == 0
    ensures Rank(b, i) < Rank(b, j) <==> Cmp(b, i, j, |b|) < 0
  {
    hide Cmp, Rank;
    CmpFlip(b, i, j, |b|);
    RankIsOrder(b, i, j);
    RankIsOrder(b, j, i);
  }

  lemma EqualPrefix(b: seq<byte>, i: int, j: int, h: nat)
    requires 0 <= i < |b| && 0 <= j < |b| && Cmp(b, i, j, |b|) == 0
    ensures Cmp(b, i, j, h) == 0
  {
    hide Cmp;
    if h <= |b| {
      CmpSplit(b, i, j, h, |b| - h);
    } else {
      CmpBeyond(b, i, j, h);
    }
  }

  /** Equal rotations stay equal when both move on. */
  lemma TwinsMove(b: seq<byte>, i: int, j: int, h: nat)
    requires 0 <= i < |b| && 0 <= j < |b| && Rank(b, i) == Rank(b, j)
    ensures Rank(b, Adv(|b|, i, h)) == Rank(b, Adv(|b|, j, h))
  {
    hide Cmp, Rank;
    SameRank(b, i, j);
    EqualPrefix(b, i, j, h);
    CmpFlip(b, i, j, h);
    RankSkip(b, i, j, h);
    RankSkip(b, j, i, h);
  }

  lemma TwinByte(b: seq<byte>, i: int, j: int)
    requires 0 <= i < |b| && 0 <= j < |b| && Rank(b, i) == Rank(b, j)
    ensures b[i] == b[j]
  {
    hide Cmp, Rank;
    SameRank(b, i, j);
    EqualPrefix(b, i, j, 1);
    CmpOne(b, i, j);
  }

  ghost function Moved(n: nat, s: set<int>, h: nat): (t: set<int>)
    requires forall j :: j in s ==> 0 <= j < n
    ensures forall k :: k in t <==> exists j :: j in s && Adv(n, j, h) == k
  {
    set j | j in s :: Adv(n, j, h)
  }

  lemma AdvInjective(n: nat, i: int, j: int, h: nat)
    requires 0 <= i < n && 0 <= j < n && h <= n && Adv(n, i, h) == Adv(n, j, h)
    ensures i == j
  {
    hide Adv;
    AdvAdd(n, i, h, n - h);
    AdvAdd(n, j, h, n - h);
    AdvSmall(n, i, n);
    AdvSmall(n, j, n);
  }

  lemma {:induction false} MovedSize(n: nat, s: set<int>, h: nat)
    requires h <= n && forall j :: j in s ==> 0 <= j < n
    ensures |Moved(n, s, h)| == |s|
    decreases |s|
  {
    hide Adv;
    if i :| i in s {
      var r := s - {i};
      MovedSize(n, r, h);
      var k := Adv(n, i, h);
      forall j | j in r ensures Adv(n, j, h) != k {
        if Adv(n, j, h) == k {
          AdvInjective(n, i, j, h);
        }
      }
      assert Moved(n, s, h) == Moved(n, r, h) + {k};
    } else {
      assert forall j :: j !in s;
      assert s == {} && Moved(n, s, h) == {};
    }
  }

  lemma TwinsGrow(b: seq<byte>, i: int, h: nat)
    requires 0 <= i < |b| && h <= |b|
    ensures |Twins(b, i)| <= |Twins(b, Adv(|b|, i, h))|
  {
    hide Adv, Rank;
    var s, t := Twins(b, i), Twins(b, Adv(|b|, i, h));
    MovedSize(|b|, s, h);
    forall k | k in Moved(|b|, s, h) ensures k in t {
      var j :| j in s && Adv(|b|, j, h) == k;
      TwinsMove(b, i, j, h);
    }
    SubsetCardinality(Moved(|b|, s, h), t);
  }

  /** Every rotation equals as many rotations as the first does. */
  lemma TwinsSize(b: seq<byte>, i: int)
    requires 0 <= i < |b|
    ensures |Twins(b, i)| == Repeats(b)
  {
    hide Adv, Rank;
    AdvSmall(|b|, 0, i);
    AdvSmall(|b|, i, |b| - i);
    TwinsGrow(b, 0, i);
    TwinsGrow(b, i, |b| - i);
  }

  /** No two rotations are equal exactly when the count is one. */
  lemma RepeatsOnce(b: seq<byte>)
    requires 0 < |b|
    ensures Repeats(b) == 1 <==> forall i, j :: 0 <= i < j < |b| ==> Cmp(b, i, j, |b|) != 0
  {
    hide Cmp, Rank, Repeats;
    if Repeats(b) == 1 {
      forall i, j | 0 <= i < j < |b| ensures Cmp(b, i, j, |b|) != 0 {
        TwinsSize(b, i);
        SameRank(b, i, j);
        if j in Twins(b, i) {
          SubsetCardinality({i, j}, Twins(b, i));
        }
      }
    } else {
      OtherTwin(b);
    }
  }

  lemma OtherTwin(b: seq<byte>)
    requires 0 < |b|
    ensures Repeats(b) == 1 || exists j :: 0 < j < |b| && Cmp(b, 0, j, |b|) == 0
  {
    hide Cmp, Rank;
    var s := Twins(b, 0);
    if j :| j in s && j != 0 {
      SameRank(b, 0, j);
    } else {
      assert 0 in s;
      assert s == {0};
    }
  }

  // ---------- Groups of equal rotations ----------

  /** A set of rotations that holds the twins of its members is made of whole groups. */
  lemma {:induction false} WholeGroups(b: seq<byte>, s: set<int>) returns (q: nat)
    requires 0 < |b| && (forall i :: i in s ==> 0 <= i < |b|)
    requires forall i, j :: i in s && 0 <= j < |b| && Rank(b, j) == Rank(b, i) ==> j in s
    ensures |s| == q * Repeats(b)
    decreases |s|
  {
    hide Rank, Repeats;
    if i :| i in s {
      var t := Twins(b, i);
      assert i in t && t <= s;
      TwinsSize(b, i);
      var r := s - t;
      assert s == r + t && |s| == |r| + |t|;
      var q' := WholeGroups(b, r);
      q := q' + 1;
      assert (q' + 1) * Repeats(b) == q' * Repeats(b) + Repeats(b);
    } else {
      assert forall j :: j !in s;
      assert s == {};
      q := 0;
    }
  }

  /** As many rotations are smaller as make up whole groups. */
  lemma RankGroups(b: seq<byte>, i: int) returns (q: nat)
    requires 0 <= i < |b|
    ensures Rank(b, i) == q * Repeats(b)
  {
    hide Repeats, Cmp;
    forall j, k | j in Smaller(b, i) && 0 <= k < |b| && Rank(b, k) == Rank(b, j) ensures k in Smaller(b, i) {
      SameRank(b, j, i);
      SameRank(b, k, i);
    }
    q := WholeGroups(b, Smaller(b, i));
  }

  /** Slot x of p has nothing greater before it and nothing smaller after it. */
  ghost predicate InPlace(b: seq<byte>, p: seq<int>, x: int)
    requires IsPerm(p, |b|) && 0 <= x < |b|
  {
    && (forall y :: 0 <= y < x ==> Rank(b, p[y]) <= Rank(b, p[x]))
    && (forall y :: x < y < |b| ==> Rank(b, p[x]) <= Rank(b, p[y]))
  }

  lemma SlotOfRank(b: seq<byte>, p: seq<int>, x: int)
    requires IsPerm(p, |b|) && 0 <= x < |b| && InPlace(b, p, x)
    ensures Rank(b, p[x]) <= x < Rank(b, p[x]) + Repeats(b)
  {
    hide Cmp, Repeats;
    var i := p[x];
    forall j | j in Smaller(b, i) ensures j in Elements(p[..x]) {
      SameRank(b, j, i);
      var y := PermOnto(p, |b|, j);
      assert p[..x][y] == j;
    }
    DistinctCardinality(p[..x]);
    SubsetCardinality(Smaller(b, i), Elements(p[..x]));
    forall j | j in Elements(p[..x + 1]) ensures j in Smaller(b, i) + Twins(b, i) {
      SameRank(b, j, i);
    }
    DistinctCardinality(p[..x + 1]);
    SubsetCardinality(Elements(p[..x + 1]), Smaller(b, i) + Twins(b, i));
    TwinsSize(b, i);
  }

  /** The rotation in a slot that is in place has the rank of the slot's group. */
  lemma GroupOfSlot(b: seq<byte>, p: seq<int>, x: int)
    requires IsPerm(p, |b|) && 0 <= x < |b| && InPlace(b, p, x)
    ensures Rank(b, p[x]) == x / Repeats(b) * Repeats(b)
  {
    hide Rank, Repeats, InPlace;
    SlotOfRank(b, p, x);
    var q := RankGroups(b, p[x]);
    ModUnique(x, Repeats(b), q, x - q * Repeats(b));
  }
}
