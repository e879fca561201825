/** Why scanning one sorted big bucket sorts all the small buckets [t, ss]
    (step 2 of mainSort, dep/bzip2/blocksort.c:894-930). */
module PointerScan {
  import opened Rotations
  import opened RotationRank
  import opened RadixSort
  import opened PrefixDoubling
  import InverseBwt
  import Counting

  // ---------- How a run of ss ends ----------

  /** From r on come m characters ss and then another one. */
  ghost predicate RunTo(b: seq<byte>, ss: int, r: int, m: nat) {
    && 0 <= r < |b|
    && (forall t :: 0 <= t < m ==> b[Adv(|b|, r, t)] == ss)
    && b[Adv(|b|, r, m)] != ss
  }

  /** The first character of rotation r that differs from ss is smaller, or (high) greater. */
  ghost predicate Sided(b: seq<byte>, ss: int, low: bool, r: int) {
    exists m: nat :: Ends(b, ss, low, r, m)
  }

  ghost predicate Ends(b: seq<byte>, ss: int, low: bool, r: int, m: nat) {
    RunTo(b, ss, r, m) && if low then b[Adv(|b|, r, m)] < ss else b[Adv(|b|, r, m)] > ss
  }

  lemma EndsStep(b: seq<byte>, ss: int, low: bool, k: int, m: nat)
    requires 0 <= k < |b| && b[k] == ss
    ensures Ends(b, ss, low, Adv(|b|, k, 1), m) <==> Ends(b, ss, low, k, m + 1)
  {
    hide Adv;
    var n, r := |b|, Adv(|b|, k, 1);
    AdvAdd(n, k, 1, m);
    AdvSmall(n, k, 0);
    if Ends(b, ss, low, r, m) {
      forall t | 0 <= t < m + 1 ensures b[Adv(n, k, t)] == ss {
        if t > 0 {
          AdvAdd(n, k, 1, t - 1);
        }
      }
    }
    if Ends(b, ss, low, k, m + 1) {
      forall t | 0 <= t < m ensures b[Adv(n, r, t)] == ss {
        AdvAdd(n, k, 1, t);
      }
    }
  }

  lemma SidedPred(b: seq<byte>, ss: int, low: bool, k: int)
    requires 0 <= k < |b| && b[k] == ss && Sided(b, ss, low, Adv(|b|, k, 1))
    ensures Sided(b, ss, low, k)
  {
    hide Ends;
    var m: nat :| Ends(b, ss, low, Adv(|b|, k, 1), m);
    EndsStep(b, ss, low, k, m);
  }

  lemma {:induction false} LowBelowHigh(b: seq<byte>, ss: int, r: int, r': int, m: nat, m': nat)
    requires Ends(b, ss, true, r, m) && Ends(b, ss, false, r', m')
    ensures Rank(b, r) < Rank(b, r')
    decreases m
  {
    hide Rank, Adv, Cmp;
    var n := |b|;
    AdvSmall(n, r, 0);
    AdvSmall(n, r', 0);
    CmpOne(b, r, r');
    if b[r] < b[r'] {
      RankByPrefix(b, r, r', 1);
    } else {
      assert m > 0 && m' > 0 && b[r] == b[r'] == ss;
      EndsStep(b, ss, true, r, m - 1);
      EndsStep(b, ss, false, r', m' - 1);
      LowBelowHigh(b, ss, Adv(n, r, 1), Adv(n, r', 1), m - 1, m' - 1);
      CmpFlip(b, r, r', 1);
      RankSkip(b, r', r, 1);
    }
  }

  lemma SidesApart(b: seq<byte>, ss: int, r: int, r': int)
    requires Sided(b, ss, true, r) && Sided(b, ss, false, r')
    ensures 0 <= r < |b| && 0 <= r' < |b| && Rank(b, r) < Rank(b, r')
  {
    hide Ends;
    var m: nat :| Ends(b, ss, true, r, m);
    var m': nat :| Ends(b, ss, false, r', m');
    EndsRange(b, ss, true, r, m);
    EndsRange(b, ss, false, r', m');
    LowBelowHigh(b, ss, r, r', m, m');
  }

  lemma EndsRange(b: seq<byte>, ss: int, low: bool, r: int, m: nat)
    requires Ends(b, ss, low, r, m)
    ensures 0 <= r < |b|
  {
  }

  /** Unless the block is all ss, every run ends. */
  lemma {:induction false} RunEnds(b: seq<byte>, ss: int, r: int, d: nat) returns (low: bool, m: nat)
    requires 0 <= r < |b| && b[Adv(|b|, r, d)] != ss
    ensures m <= d && Ends(b, ss, low, r, m)
    decreases d
  {
    hide Adv;
    AdvSmall(|b|, r, 0);
    if b[r] != ss {
      low, m := b[r] < ss, 0;
    } else {
      AdvAdd(|b|, r, 1, d - 1);
      low, m := RunEnds(b, ss, Adv(|b|, r, 1), d - 1);
      EndsStep(b, ss, low, r, m);
      m := m + 1;
    }
  }

  // ---------- The rotations one place to the left ----------

  ghost function Pred(b: seq<byte>, r: int): (k: int)
    requires 0 <= r < |b|
    ensures 0 <= k < |b| && Adv(|b|, k, 1) == r
  {
    BackAdv(|b|, r, 1);
    Back(|b|, r, 1)
  }

  lemma PredOf(b: seq<byte>, k: int)
    requires 0 <= k < |b|
    ensures Pred(b, Adv(|b|, k, 1)) == k
  {
    AdvBack(|b|, k, 1);
  }

  ghost predicate OfBlock(b: seq<byte>, s: seq<int>) {
    forall i :: 0 <= i < |s| ==> 0 <= s[i] < |b|
  }

  /** What a scan over `s` puts into bucket [t, ss]: the predecessors that start with t. */
  ghost function Preds(b: seq<byte>, s: seq<int>, t: int): (q: seq<int>)
    requires OfBlock(b, s)
    ensures |q| <= |s| && OfBlock(b, q)
  {
    if s == [] then []
    else
      var k := Pred(b, s[|s| - 1]);
      Preds(b, s[..|s| - 1], t) + if b[k] == t then [k] else []
  }

  /** In scanning order ranks rise, or (high) fall. */
  ghost predicate Monotone(b: seq<byte>, low: bool, s: seq<int>)
    requires OfBlock(b, s)
  {
    forall i, j :: 0 <= i < j < |s| ==> if low then Rank(b, s[i]) <= Rank(b, s[j]) else Rank(b, s[i]) >= Rank(b, s[j])
  }

  ghost predicate Distinct(s: seq<int>) {
    forall i, j :: 0 <= i < j < |s| ==> s[i] != s[j]
  }

  /** Membership in what a scan puts down. */
  lemma {:induction false} PredsMember(b: seq<byte>, s: seq<int>, t: int, x: int)
    requires OfBlock(b, s)
    ensures x in Preds(b, s, t) <==> 0 <= x < |b| && b[x] == t && Adv(|b|, x, 1) in s
  {
    hide Adv;
    if s != [] {
      var n := |s| - 1;
      PredsMember(b, s[..n], t, x);
      assert s == s[..n] + [s[n]];
      if 0 <= x < |b| && Adv(|b|, x, 1) == s[n] {
        PredOf(b, x);
      }
    }
  }

  lemma {:induction false} PredsDistinct(b: seq<byte>, s: seq<int>, t: int)
    requires OfBlock(b, s) && Distinct(s)
    ensures Distinct(Preds(b, s, t))
  {
    hide Adv;
    if s != [] {
      var n := |s| - 1;
      PredsDistinct(b, s[..n], t);
      PredsMember(b, s[..n], t, Pred(b, s[n]));
    }
  }

  /** Equal first characters: the order is that of the successors. */
  lemma PredOrder(b: seq<byte>, k: int, k': int)
    requires 0 <= k < |b| && 0 <= k' < |b| && b[k] == b[k']
    ensures Rank(b, k) <= Rank(b, k') <==> Rank(b, Adv(|b|, k, 1)) <= Rank(b, Adv(|b|, k', 1))
  {
    hide Rank, Cmp;
    CmpOne(b, k, k');
    RankSkip(b, k, k', 1);
  }

  lemma {:induction false} PredsMonotone(b: seq<byte>, low: bool, s: seq<int>, t: int)
    requires OfBlock(b, s) && Monotone(b, low, s)
    ensures Monotone(b, low, Preds(b, s, t))
  {
    hide Adv, Rank;
    if s != [] {
      var n := |s| - 1;
      var k, q := Pred(b, s[n]), Preds(b, s[..n], t);
      PredsMonotone(b, low, s[..n], t);
      if b[k] == t {
        forall i | 0 <= i < |q| ensures if low then Rank(b, q[i]) <= Rank(b, k) else Rank(b, q[i]) >= Rank(b, k) {
          PredsMember(b, s[..n], t, q[i]);
          PredOrder(b, q[i], k);
          PredOrder(b, k, q[i]);
          var j :| 0 <= j < n && s[j] == Adv(|b|, q[i], 1);
        }
      }
    }
  }

  // ---------- The queue of one scan ----------

  /** The big bucket's rotations whose second character is not ss, on one side of it. */
  ghost predicate Outer(b: seq<byte>, ss: int, low: bool, r: int) {
    && 0 <= r < |b| && b[r] == ss
    && if low then b[Adv(|b|, r, 1)] < ss else b[Adv(|b|, r, 1)] > ss
  }

  /** All of them, in scanning order. */
  ghost predicate Base(b: seq<byte>, ss: int, low: bool, base: seq<int>) {
    && OfBlock(b, base) && Distinct(base) && Monotone(b, low, base)
    && (forall i :: 0 <= i < |base| ==> Outer(b, ss, low, base[i]))
    && (forall r :: Outer(b, ss, low, r) ==> r in base)
  }

  /** The scan has read j entries of its queue, which began as `base` and grows by the
      predecessors that start with ss. */
  ghost predicate Queue(b: seq<byte>, ss: int, low: bool, base: seq<int>, q: seq<int>, j: nat) {
    && Base(b, ss, low, base) && OfBlock(b, q) && j <= |q|
    && q == base + Preds(b, q[..j], ss)
    && Distinct(q) && Monotone(b, low, q)
    && forall i :: 0 <= i < |q| ==> b[q[i]] == ss && Sided(b, ss, low, q[i])
  }

  lemma OuterSided(b: seq<byte>, ss: int, low: bool, r: int)
    requires Outer(b, ss, low, r)
    ensures Sided(b, ss, low, r)
  {
    AdvSmall(|b|, r, 0);
    assert Ends(b, ss, low, r, 1);
  }

  lemma QueueStart(b: seq<byte>, ss: int, low: bool, base: seq<int>)
    requires Base(b, ss, low, base)
    ensures Queue(b, ss, low, base, base, 0)
  {
    hide Sided, Adv;
    assert base[..0] == [];
    assert base + [] == base;
    forall i | 0 <= i < |base| ensures Sided(b, ss, low, base[i]) {
      OuterSided(b, ss, low, base[i]);
    }
  }

  lemma SecondDecides(b: seq<byte>, x: int, y: int)
    requires 0 <= x < |b| && 0 <= y < |b| && b[x] == b[y] && b[Adv(|b|, x, 1)] < b[Adv(|b|, y, 1)]
    ensures Rank(b, x) < Rank(b, y)
  {
    hide Rank, Cmp;
    CmpOne(b, x, y);
    CmpMore(b, x, y, 1);
    RankByPrefix(b, x, y, 2);
  }

  /** What one more entry does to the list put into bucket t. */
  lemma PredsNext(b: seq<byte>, s: seq<int>, j: nat, t: int)
    requires OfBlock(b, s) && j < |s|
    ensures Preds(b, s[..j + 1], t) == Preds(b, s[..j], t) + if b[Pred(b, s[j])] == t then [Pred(b, s[j])] else []
  {
    assert s[..j + 1][..j] == s[..j];
  }

  /** Reading one more entry of the queue. */
  lemma QueueStep(b: seq<byte>, ss: int, low: bool, base: seq<int>, q: seq<int>, j: nat)
    requires Queue(b, ss, low, base, q, j) && j < |q|
    ensures 0 <= q[j] < |b|
    ensures var k := Pred(b, q[j]);
      Queue(b, ss, low, base, if b[k] == ss then q + [k] else q, j + 1)
  {
    hide Sided, Adv, Rank, Pred, Preds, Distinct, Monotone;
    var k := Pred(b, q[j]);
    PredsNext(b, q, j, ss);
    if b[k] == ss {
      var q' := q + [k];
      assert q'[..j + 1] == q[..j + 1];
      var put := Preds(b, q[..j], ss);
      assert q' == base + (put + [k]);
      QueueTake(b, low, q, j + 1);
      PredsDistinct(b, q[..j + 1], ss);
      PredsMonotone(b, low, q[..j + 1], ss);
      SidedPred(b, ss, low, k);
      forall i | 0 <= i < |q|
        ensures q[i] != k
        ensures if low then Rank(b, q[i]) <= Rank(b, k) else Rank(b, q[i]) >= Rank(b, k)
      {
        QueueEntry(b, ss, low, base, put, k, q, i);
      }
      QueueAppend(b, low, q, k);
    }
  }

  lemma QueueTake(b: seq<byte>, low: bool, q: seq<int>, j: nat)
    requires OfBlock(b, q) && Distinct(q) && Monotone(b, low, q) && j <= |q|
    ensures OfBlock(b, q[..j]) && Distinct(q[..j]) && Monotone(b, low, q[..j])
  {
    hide Rank;
  }

  lemma QueueAppend(b: seq<byte>, low: bool, q: seq<int>, k: int)
    requires OfBlock(b, q) && Distinct(q) && Monotone(b, low, q) && 0 <= k < |b|
    requires forall i :: 0 <= i < |q| ==> q[i] != k
    requires forall i :: 0 <= i < |q| ==> if low then Rank(b, q[i]) <= Rank(b, k) else Rank(b, q[i]) >= Rank(b, k)
    ensures OfBlock(b, q + [k]) && Distinct(q + [k]) && Monotone(b, low, q + [k])
  {
    hide Rank;
  }

  lemma QueueEntry(b: seq<byte>, ss: int, low: bool, base: seq<int>, put: seq<int>, k: int, q: seq<int>, i: nat)
    requires Base(b, ss, low, base) && OfBlock(b, put) && q == base + put && i < |q|
    requires 0 <= k < |b| && b[k] == ss && b[Adv(|b|, k, 1)] == ss
    requires Distinct(put + [k]) && Monotone(b, low, put + [k])
    ensures q[i] != k
    ensures if low then Rank(b, q[i]) <= Rank(b, k) else Rank(b, q[i]) >= Rank(b, k)
  {
    hide Adv, Rank;
    if i < |base| {
      assert q[i] == base[i] && Outer(b, ss, low, base[i]);
      if low { SecondDecides(b, base[i], k); } else { SecondDecides(b, k, base[i]); }
    } else {
      var s := put + [k];
      assert q[i] == s[i - |base|] && k == s[|put|];
    }
  }

  /** A scan that has run through its queue has met every rotation on its side. */
  lemma {:induction false} QueueComplete(b: seq<byte>, ss: int, low: bool, base: seq<int>, q: seq<int>, r: int, m: nat)
    requires Queue(b, ss, low, base, q, |q|) && Ends(b, ss, low, r, m) && b[r] == ss
    ensures r in q
    decreases m
  {
    hide Adv, Sided, Monotone, Distinct;
    AdvSmall(|b|, r, 0);
    assert m > 0;
    EndsStep(b, ss, low, r, m - 1);
    var r' := Adv(|b|, r, 1);
    assert q[..|q|] == q;
    if b[r'] == ss {
      QueueComplete(b, ss, low, base, q, r', m - 1);
      PredsMember(b, q, ss, r);
    } else {
      AdvSmall(|b|, r', 0);
      SecondEnds(b, ss, low, r, m);
      assert Outer(b, ss, low, r);
      assert r in base;
    }
  }

  lemma SecondEnds(b: seq<byte>, ss: int, low: bool, r: int, m: nat)
    requires Ends(b, ss, low, r, m) && m > 0 && b[Adv(|b|, r, 1)] != ss
    ensures Outer(b, ss, low, r) || b[r] != ss
  {
  }

  // ---------- What the two scans put into one bucket ----------

  ghost predicate InBucket(b: seq<byte>, t: int, ss: int, s: seq<int>) {
    OfBlock(b, s) && forall i :: 0 <= i < |s| ==> b[s[i]] == t && b[Adv(|b|, s[i], 1)] == ss
  }

  ghost function Bucket(t: int, ss: int): int {
    256 * t + ss
  }

  /** Different rotations of one small bucket are no more than its slots. */
  lemma BucketHolds(b: seq<byte>, t: int, ss: int, s: seq<int>)
    requires InBucket(b, t, ss, s) && Distinct(s)
    ensures |s| <= Start(b, Bucket(t, ss) + 1) - Start(b, Bucket(t, ss))
  {
    hide Adv, Counting.CountLess;
    var c, sb := Keys(b), Bucket(t, ss);
    StartOrder(b, sb, sb + 1);
    var r := seq(|s|, i requires 0 <= i < |s| => Counting.Place(c, s[i]) - Start(b, sb));
    forall i | 0 <= i < |s| ensures 0 <= r[i] < Start(b, sb + 1) - Start(b, sb) {
      assert c[s[i]] == sb;
    }
    forall i, j | 0 <= i < j < |s| ensures r[i] != r[j] {
      Counting.PlaceInjective(c, s[i], s[j]);
    }
    InverseBwt.Pigeonhole(r, Start(b, sb + 1) - Start(b, sb));
  }

  /** Where each entry of q occurs in s. */
  ghost function Indices(s: seq<int>, q: seq<int>): (r: seq<int>)
    requires forall i :: 0 <= i < |q| ==> q[i] in s
    ensures |r| == |q| && forall i :: 0 <= i < |q| ==> 0 <= r[i] < |s| && s[r[i]] == q[i]
  {
    if q == [] then []
    else
      var x :| 0 <= x < |s| && s[x] == q[|q| - 1];
      Indices(s, q[..|q| - 1]) + [x]
  }

  /** A list with all rotations of a bucket has at least one for each slot. */
  lemma BucketCovered(b: seq<byte>, p: seq<int>, t: int, ss: int, s: seq<int>)
    requires Bucketed(b, p) && 0 <= t < 256 && 0 <= ss < 256
    requires forall x :: 0 <= x < |b| && b[x] == t && b[Adv(|b|, x, 1)] == ss ==> x in s
    ensures Start(b, Bucket(t, ss) + 1) - Start(b, Bucket(t, ss)) <= |s|
  {
    hide Adv, Start, Bucketed;
    BucketedRange(b, p);
    var sb := Bucket(t, ss);
    var lo, hi := Start(b, sb), Start(b, sb + 1);
    assert |p| == |b|;
    if lo < hi {
      var slots := p[lo..hi];
      forall i | 0 <= i < |slots| ensures slots[i] in s {
        BucketOf(b, p, sb, lo + i);
        TwoBytesSplit(b, p[lo + i], t, ss);
      }
      var r := Indices(s, slots);
      forall i, j | 0 <= i < j < |r| ensures r[i] != r[j] {
        assert slots[i] != slots[j];
      }
      InverseBwt.Pigeonhole(r, |s|);
    }
  }

  lemma TwoBytesSplit(b: seq<byte>, x: int, t: int, ss: int)
    requires 0 <= x < |b| && 0 <= t < 256 && 0 <= ss < 256
    ensures TwoBytes(b, x) == Bucket(t, ss) <==> b[x] == t && b[Adv(|b|, x, 1)] == ss
  {
  }

  /** The two scans' queues, each read to some point. */
  ghost predicate Scans(b: seq<byte>, ss: int, baseL: seq<int>, ql: seq<int>, jl: nat, baseR: seq<int>, qr: seq<int>, jr: nat) {
    Queue(b, ss, true, baseL, ql, jl) && Queue(b, ss, false, baseR, qr, jr)
  }

  /** What lands in bucket t from the left, then from the right. */
  ghost function Landed(b: seq<byte>, t: int, ql: seq<int>, jl: nat, qr: seq<int>, jr: nat): (s: seq<int>)
    requires OfBlock(b, ql) && jl <= |ql| && OfBlock(b, qr) && jr <= |qr|
  {
    Preds(b, ql[..jl], t) + Preds(b, qr[..jr], t)
  }

  lemma ScansWithin(b: seq<byte>, ss: int, baseL: seq<int>, ql: seq<int>, jl: nat, baseR: seq<int>, qr: seq<int>, jr: nat)
    requires Scans(b, ss, baseL, ql, jl, baseR, qr, jr)
    ensures OfBlock(b, ql) && jl <= |ql| && OfBlock(b, qr) && jr <= |qr|
  {
  }

  lemma QueuePreds(b: seq<byte>, ss: int, low: bool, base: seq<int>, q: seq<int>, j: nat, t: int)
    requires Queue(b, ss, low, base, q, j)
    ensures OfBlock(b, q) && j <= |q|
    ensures var s := Preds(b, q[..j], t);
      && Distinct(s) && Monotone(b, low, s) && InBucket(b, t, ss, s)
      && forall i :: 0 <= i < |s| ==> Sided(b, ss, low, Adv(|b|, s[i], 1))
  {
    hide Adv, Sided, Rank;
    var s := Preds(b, q[..j], t);
    PredsDistinct(b, q[..j], t);
    PredsMonotone(b, low, q[..j], t);
    forall i | 0 <= i < |s|
      ensures b[s[i]] == t && b[Adv(|b|, s[i], 1)] == ss && Sided(b, ss, low, Adv(|b|, s[i], 1))
    {
      PredsMember(b, q[..j], t, s[i]);
      var x :| 0 <= x < j && q[x] == Adv(|b|, s[i], 1);
    }
  }

  /** Left and right never put down the same rotation, and the left ones are not greater. */
  lemma LandedApart(b: seq<byte>, ss: int, baseL: seq<int>, ql: seq<int>, jl: nat, baseR: seq<int>, qr: seq<int>, jr: nat, t: int)
    requires Scans(b, ss, baseL, ql, jl, baseR, qr, jr)
    ensures OfBlock(b, ql) && jl <= |ql| && OfBlock(b, qr) && jr <= |qr|
    ensures InBucket(b, t, ss, Landed(b, t, ql, jl, qr, jr)) && Distinct(Landed(b, t, ql, jl, qr, jr))
    ensures var l, r := Preds(b, ql[..jl], t), Preds(b, qr[..jr], t);
      && Monotone(b, true, l) && Monotone(b, false, r)
      && forall i, j :: 0 <= i < |l| && 0 <= j < |r| ==> Rank(b, l[i]) <= Rank(b, r[j])
  {
    hide Adv, Sided, Rank, Queue;
    QueuePreds(b, ss, true, baseL, ql, jl, t);
    QueuePreds(b, ss, false, baseR, qr, jr, t);
    var l, r := Preds(b, ql[..jl], t), Preds(b, qr[..jr], t);
    forall i, j | 0 <= i < |l| && 0 <= j < |r| ensures Rank(b, l[i]) <= Rank(b, r[j]) && l[i] != r[j] {
      SidesApart(b, ss, Adv(|b|, l[i], 1), Adv(|b|, r[j], 1));
      PredOrder(b, l[i], r[j]);
    }
  }

  /** Both scans done, every bucket [t, ss] has been filled exactly, unless the block is all ss. */
  lemma LandedAll(b: seq<byte>, p: seq<int>, ss: int, baseL: seq<int>, ql: seq<int>, baseR: seq<int>, qr: seq<int>, t: int)
    requires Bucketed(b, p) && 0 <= t < 256 && 0 <= ss < 256
    requires Scans(b, ss, baseL, ql, |ql|, baseR, qr, |qr|)
    requires exists i :: 0 <= i < |b| && b[i] != ss
    ensures OfBlock(b, ql) && OfBlock(b, qr)
    ensures |Landed(b, t, ql, |ql|, qr, |qr|)| == Start(b, Bucket(t, ss) + 1) - Start(b, Bucket(t, ss))
  {
    hide Adv, Sided, Rank, Bucketed, Start, Ends;
    var s := Landed(b, t, ql, |ql|, qr, |qr|);
    LandedApart(b, ss, baseL, ql, |ql|, baseR, qr, |qr|, t);
    BucketHolds(b, t, ss, s);
    var i :| 0 <= i < |b| && b[i] != ss;
    assert ql[..|ql|] == ql && qr[..|qr|] == qr;
    forall x | 0 <= x < |b| && b[x] == t && b[Adv(|b|, x, 1)] == ss ensures x in s {
      var r := Adv(|b|, x, 1);
      var d := Distance(|b|, r, i);
      var low, m := RunEnds(b, ss, r, d);
      if low {
        QueueComplete(b, ss, true, baseL, ql, r, m);
        PredsMember(b, ql, t, x);
      } else {
        QueueComplete(b, ss, false, baseR, qr, r, m);
        PredsMember(b, qr, t, x);
      }
    }
    BucketCovered(b, p, t, ss, s);
  }

  /** How far it is from r to i. */
  lemma Distance(n: nat, r: int, i: int) returns (d: nat)
    requires 0 <= r < n && 0 <= i < n
    ensures d < n && Adv(n, r, d) == i
  {
    d := if r <= i then i - r else i - r + n;
    AdvSmall(n, r, d);
  }
}
