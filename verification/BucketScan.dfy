/** Step 2 of mainSort: the pointer scan over a sorted big bucket, in the array
    (dep/bzip2/blocksort.c:894-930). */
module BucketScan {
  import opened Rotations
  import opened RotationRank
  import opened RadixSort
  import opened PointerScan
  import Counting

  /** Slots lo..hi-1 are in rotation order. */
  ghost predicate SortedIn(b: seq<byte>, p: seq<int>, lo: int, hi: int)
    requires |p| == |b| && OfBlock(b, p)
  {
    forall x, y :: lo <= x < y < hi && 0 <= x && y < |p| ==> Rank(b, p[x]) <= Rank(b, p[y])
  }

  lemma BucketsApart(b: seq<byte>, t: int, t': int, ss: int)
    requires 0 <= t < t' < 256 && 0 <= ss < 256
    ensures Start(b, Bucket(t, ss) + 1) <= Start(b, Bucket(t', ss))
  {
    StartOrder(b, Bucket(t, ss) + 1, Bucket(t', ss));
  }

  // ---------- One bucket being filled from both ends ----------

  /** The l are in place from the front, the r from the back, and the slots c..e between are as
      they were. */
  ghost predicate Filling(p0: seq<int>, p: seq<int>, lo: int, hi: int, c: int, e: int, l: seq<int>, r: seq<int>) {
    && 0 <= lo <= hi <= |p| == |p0|
    && c == lo + |l| && e == hi - 1 - |r| && c <= e + 1
    && (forall i :: 0 <= i < |l| ==> p[lo + i] == l[i])
    && (forall i :: 0 <= i < |r| ==> p[hi - 1 - i] == r[i])
    && (forall x :: c <= x <= e ==> p[x] == p0[x])
  }

  lemma FillingLeft(p0: seq<int>, p: seq<int>, lo: int, hi: int, c: int, e: int, l: seq<int>, r: seq<int>, k: int)
    requires Filling(p0, p, lo, hi, c, e, l, r) && c <= e
    ensures Filling(p0, p[c := k], lo, hi, c + 1, e, l + [k], r)
  {
  }

  lemma FillingRight(p0: seq<int>, p: seq<int>, lo: int, hi: int, c: int, e: int, l: seq<int>, r: seq<int>, k: int)
    requires Filling(p0, p, lo, hi, c, e, l, r) && c <= e
    ensures Filling(p0, p[e := k], lo, hi, c, e - 1, l, r + [k])
  {
  }

  lemma FillingElsewhere(p0: seq<int>, p: seq<int>, lo: int, hi: int, c: int, e: int, l: seq<int>, r: seq<int>, x: int, k: int)
    requires Filling(p0, p, lo, hi, c, e, l, r) && 0 <= x < |p| && !(lo <= x < hi)
    ensures Filling(p0, p[x := k], lo, hi, c, e, l, r)
  {
  }

  /** The state of both scans: ql and qr are the queues, jl and jr how far they have been read. */
  datatype Scan = Scan(ss: int, done: seq<bool>, baseL: seq<int>, ql: seq<int>, jl: nat, baseR: seq<int>, qr: seq<int>, jr: nat)

  ghost predicate Sound(b: seq<byte>, z: Scan) {
    && 0 <= z.ss < 256 && |z.done| == 256 && !z.done[z.ss]
    && Scans(b, z.ss, z.baseL, z.ql, z.jl, z.baseR, z.qr, z.jr)
  }

  ghost predicate Open(b: seq<byte>, z: Scan, t: int) {
    0 <= t < 256 && |z.done| == 256 && !z.done[t]
  }

  ghost predicate BucketState(b: seq<byte>, p0: seq<int>, p: seq<int>, cs: seq<int>, ce: seq<int>, z: Scan, t: int)
    requires Sound(b, z) && |cs| == |ce| == 256 && 0 <= t < 256
  {
    ScansWithin(b, z.ss, z.baseL, z.ql, z.jl, z.baseR, z.qr, z.jr);
    Filling(p0, p, Start(b, Bucket(t, z.ss)), Start(b, Bucket(t, z.ss) + 1), cs[t], ce[t],
            Preds(b, z.ql[..z.jl], t), Preds(b, z.qr[..z.jr], t))
  }

  lemma BucketIs(b: seq<byte>, p0: seq<int>, p: seq<int>, cs: seq<int>, ce: seq<int>, z: Scan, t: int, l: seq<int>, r: seq<int>)
    requires Sound(b, z) && |cs| == |ce| == 256 && 0 <= t < 256
    requires OfBlock(b, z.ql) && OfBlock(b, z.qr) && z.jl <= |z.ql| && z.jr <= |z.qr|
    requires l == Preds(b, z.ql[..z.jl], t) && r == Preds(b, z.qr[..z.jr], t)
    ensures BucketState(b, p0, p, cs, ce, z, t) ==
      Filling(p0, p, Start(b, Bucket(t, z.ss)), Start(b, Bucket(t, z.ss) + 1), cs[t], ce[t], l, r)
  {
    hide Sound, Filling, Preds, Start, Bucket;
  }

  /** Slot x is not in a bucket that the scans fill. */
  ghost predicate Untouched(b: seq<byte>, z: Scan, x: int) {
    forall t :: Open(b, z, t) ==> !(Start(b, Bucket(t, z.ss)) <= x < Start(b, Bucket(t, z.ss) + 1))
  }

  ghost predicate Scanning(b: seq<byte>, p0: seq<int>, p: seq<int>, cs: seq<int>, ce: seq<int>, z: Scan) {
    && |p| == |p0| == |b| && |cs| == |ce| == 256 && Sound(b, z)
    && (forall t :: Open(b, z, t) ==> BucketState(b, p0, p, cs, ce, z, t))
    && (forall x :: 0 <= x < |b| && Untouched(b, z, x) ==> p[x] == p0[x])
  }

  // ---------- Reading one more entry ----------

  /** The next state when the left scan reads its entry jl. */
  ghost function NextLeft(b: seq<byte>, z: Scan): (z': Scan)
    requires Sound(b, z) && z.jl < |z.ql|
  {
    ScansWithin(b, z.ss, z.baseL, z.ql, z.jl, z.baseR, z.qr, z.jr);
    var k := Pred(b, z.ql[z.jl]);
    z.(ql := if b[k] == z.ss then z.ql + [k] else z.ql, jl := z.jl + 1)
  }

  ghost function NextRight(b: seq<byte>, z: Scan): (z': Scan)
    requires Sound(b, z) && z.jr < |z.qr|
  {
    ScansWithin(b, z.ss, z.baseL, z.ql, z.jl, z.baseR, z.qr, z.jr);
    var k := Pred(b, z.qr[z.jr]);
    z.(qr := if b[k] == z.ss then z.qr + [k] else z.qr, jr := z.jr + 1)
  }

  lemma NextSound(b: seq<byte>, z: Scan)
    requires Sound(b, z)
    ensures OfBlock(b, z.ql) && OfBlock(b, z.qr) && z.jl <= |z.ql| && z.jr <= |z.qr| && 0 <= z.ss < 256
    ensures z.jl < |z.ql| ==> Sound(b, NextLeft(b, z))
    ensures z.jr < |z.qr| ==> Sound(b, NextRight(b, z))
  {
    hide Queue, Pred;
    ScansWithin(b, z.ss, z.baseL, z.ql, z.jl, z.baseR, z.qr, z.jr);
    if z.jl < |z.ql| {
      QueueStep(b, z.ss, true, z.baseL, z.ql, z.jl);
    }
    if z.jr < |z.qr| {
      QueueStep(b, z.ss, false, z.baseR, z.qr, z.jr);
    }
  }

  /** The predecessors put into bucket t after one more left entry; those on the right are the
      same. */
  lemma NextLeftPreds(b: seq<byte>, z: Scan, t: int)
    requires Sound(b, z) && z.jl < |z.ql|
    ensures OfBlock(b, z.ql) && OfBlock(b, NextLeft(b, z).ql) && z.jl + 1 <= |NextLeft(b, z).ql|
    ensures var k := Pred(b, z.ql[z.jl]);
      Preds(b, NextLeft(b, z).ql[..z.jl + 1], t) == Preds(b, z.ql[..z.jl], t) + if b[k] == t then [k] else []
  {
    hide Queue, Pred;
    NextSound(b, z);
    assert NextLeft(b, z).ql[..z.jl + 1] == z.ql[..z.jl + 1];
    PredsNext(b, z.ql, z.jl, t);
  }

  lemma NextRightPreds(b: seq<byte>, z: Scan, t: int)
    requires Sound(b, z) && z.jr < |z.qr|
    ensures OfBlock(b, z.qr) && OfBlock(b, NextRight(b, z).qr) && z.jr + 1 <= |NextRight(b, z).qr|
    ensures var k := Pred(b, z.qr[z.jr]);
      Preds(b, NextRight(b, z).qr[..z.jr + 1], t) == Preds(b, z.qr[..z.jr], t) + if b[k] == t then [k] else []
  {
    hide Queue, Pred;
    NextSound(b, z);
    assert NextRight(b, z).qr[..z.jr + 1] == z.qr[..z.jr + 1];
    PredsNext(b, z.qr, z.jr, t);
  }

  /** There is room for one more in bucket t. */
  lemma RoomLeft(b: seq<byte>, z: Scan, t: int, l: nat, r: nat)
    requires Sound(b, z)
    requires |Landed(b, t, z.ql, z.jl, z.qr, z.jr)| == l + r
    ensures Start(b, Bucket(t, z.ss)) + l + r <= Start(b, Bucket(t, z.ss) + 1)
  {
    hide Queue, Start;
    LandedApart(b, z.ss, z.baseL, z.ql, z.jl, z.baseR, z.qr, z.jr, t);
    BucketHolds(b, t, z.ss, Landed(b, t, z.ql, z.jl, z.qr, z.jr));
  }

  // ---------- The writes ----------

  lemma PredsUntouched(b: seq<byte>, p0: seq<int>, p: seq<int>, cs: seq<int>, ce: seq<int>, z: Scan, t: int)
    requires Scanning(b, p0, p, cs, ce, z) && Open(b, z, t)
    ensures BucketState(b, p0, p, cs, ce, z, t) && Sound(b, z) && |cs| == |ce| == 256 && |p| == |b|
    ensures Start(b, Bucket(t, z.ss)) <= cs[t] && ce[t] < Start(b, Bucket(t, z.ss) + 1) <= |b|
  {
    hide Sound, Start, Preds, Untouched;
  }

  /** Buckets other than t's do not see a write into t's. */
  lemma OtherBucket(b: seq<byte>, t: int, t': int, ss: int, x: int)
    requires 0 <= t < 256 && 0 <= t' < 256 && t != t' && 0 <= ss < 256
    requires Start(b, Bucket(t, ss)) <= x < Start(b, Bucket(t, ss) + 1)
    ensures !(Start(b, Bucket(t', ss)) <= x < Start(b, Bucket(t', ss) + 1))
  {
    hide Start;
    if t < t' { BucketsApart(b, t, t', ss); } else { BucketsApart(b, t', t, ss); }
  }

  lemma LeftRoom(b: seq<byte>, p0: seq<int>, p: seq<int>, cs: seq<int>, ce: seq<int>, z: Scan, k: int, t: int)
    requires Scanning(b, p0, p, cs, ce, z) && z.jl < |z.ql| && OfBlock(b, z.ql)
    requires k == Pred(b, z.ql[z.jl]) && t == b[k] && Open(b, z, t)
    ensures |cs| == |ce| == 256 && 0 <= cs[t] <= ce[t] < |b|
    ensures Start(b, Bucket(t, z.ss)) <= cs[t] && ce[t] < Start(b, Bucket(t, z.ss) + 1)
  {
    hide Sound, Start, Preds, Untouched, Queue, Pred;
    PredsUntouched(b, p0, p, cs, ce, z, t);
    NextSound(b, z);
    NextLeftPreds(b, z, t);
    var z' := NextLeft(b, z);
    NextSound(b, z');
    RoomLeft(b, z', t, |Preds(b, z.ql[..z.jl], t)| + 1, |Preds(b, z.qr[..z.jr], t)|);
  }

  lemma RightRoom(b: seq<byte>, p0: seq<int>, p: seq<int>, cs: seq<int>, ce: seq<int>, z: Scan, k: int, t: int)
    requires Scanning(b, p0, p, cs, ce, z) && z.jr < |z.qr| && OfBlock(b, z.qr)
    requires k == Pred(b, z.qr[z.jr]) && t == b[k] && Open(b, z, t)
    ensures |cs| == |ce| == 256 && 0 <= cs[t] <= ce[t] < |b|
    ensures Start(b, Bucket(t, z.ss)) <= cs[t] && ce[t] < Start(b, Bucket(t, z.ss) + 1)
  {
    hide Sound, Start, Preds, Untouched, Queue, Pred;
    PredsUntouched(b, p0, p, cs, ce, z, t);
    NextSound(b, z);
    NextRightPreds(b, z, t);
    var z' := NextRight(b, z);
    NextSound(b, z');
    RoomLeft(b, z', t, |Preds(b, z.ql[..z.jl], t)|, |Preds(b, z.qr[..z.jr], t)| + 1);
  }

  lemma LeftWriteAt(b: seq<byte>, p0: seq<int>, p: seq<int>, cs: seq<int>, ce: seq<int>, z: Scan, k: int, t: int, t': int)
    requires Scanning(b, p0, p, cs, ce, z) && z.jl < |z.ql| && OfBlock(b, z.ql) && Sound(b, z)
    requires k == Pred(b, z.ql[z.jl]) && t == b[k] && Open(b, z, t) && Open(b, z, t')
    ensures |cs| == |ce| == 256 && 0 <= cs[t] <= ce[t] < |b| == |p| && Sound(b, NextLeft(b, z))
    ensures var x := cs[t]; BucketState(b, p0, p[x := k], cs[t := x + 1], ce, NextLeft(b, z), t')
  {
    hide Sound, Start, Preds, Untouched, Queue, Pred, Filling, NextLeft, Scanning, BucketState, Bucket;
    LeftRoom(b, p0, p, cs, ce, z, k, t);
    NextSound(b, z);
    NextLeftShape(b, z);
    PredsUntouched(b, p0, p, cs, ce, z, t');
    NextLeftPreds(b, z, t');
    var x := cs[t];
    var lo, hi := Start(b, Bucket(t', z.ss)), Start(b, Bucket(t', z.ss) + 1);
    var l, r := Preds(b, z.ql[..z.jl], t'), Preds(b, z.qr[..z.jr], t');
    NextSound(b, NextLeft(b, z));
    BucketIs(b, p0, p, cs, ce, z, t', l, r);
    if t' == t {
      FillingLeft(p0, p, lo, hi, cs[t], ce[t], l, r, k);
      BucketIs(b, p0, p[x := k], cs[t := x + 1], ce, NextLeft(b, z), t', l + [k], r);
    } else {
      OtherBucket(b, t, t', z.ss, x);
      FillingElsewhere(p0, p, lo, hi, cs[t'], ce[t'], l, r, x, k);
      assert l + [] == l;
      BucketIs(b, p0, p[x := k], cs[t := x + 1], ce, NextLeft(b, z), t', l, r);
    }
  }

  lemma LeftWrite(b: seq<byte>, p0: seq<int>, p: seq<int>, cs: seq<int>, ce: seq<int>, z: Scan, k: int, t: int)
    requires Scanning(b, p0, p, cs, ce, z) && z.jl < |z.ql| && OfBlock(b, z.ql) && Sound(b, z)
    requires k == Pred(b, z.ql[z.jl]) && t == b[k] && Open(b, z, t)
    ensures |cs| == |ce| == 256 && 0 <= cs[t] <= ce[t] < |b| == |p|
    ensures Scanning(b, p0, p[cs[t] := k], cs[t := cs[t] + 1], ce, NextLeft(b, z))
  {
    hide Sound, Start, Preds, Untouched, Queue, Pred, Filling, NextLeft;
    LeftRoom(b, p0, p, cs, ce, z, k, t);
    NextSound(b, z);
    var z', x := NextLeft(b, z), cs[t];
    NextLeftShape(b, z);
    forall t' | Open(b, z', t') ensures BucketState(b, p0, p[x := k], cs[t := x + 1], ce, z', t') {
      LeftWriteAt(b, p0, p, cs, ce, z, k, t, t');
    }
    forall y | 0 <= y < |b| && Untouched(b, z', y) ensures p[x := k][y] == p0[y] {
      SameUntouched(b, z, z', y, t, x);
    }
  }

  lemma SameUntouched(b: seq<byte>, z: Scan, z': Scan, y: int, t: int, x: int)
    requires z.ss == z'.ss && z.done == z'.done && Untouched(b, z', y)
    ensures Untouched(b, z, y)
    ensures Open(b, z, t) && Start(b, Bucket(t, z.ss)) <= x < Start(b, Bucket(t, z.ss) + 1) ==> y != x
  {
    hide Start;
    forall u | Open(b, z, u) ensures !(Start(b, Bucket(u, z.ss)) <= y < Start(b, Bucket(u, z.ss) + 1)) {
      assert Open(b, z', u);
    }
  }

  lemma NextLeftShape(b: seq<byte>, z: Scan)
    requires Sound(b, z) && z.jl < |z.ql|
    ensures var z' := NextLeft(b, z);
      && z'.ss == z.ss && z'.done == z.done && z'.jl == z.jl + 1 && z'.qr == z.qr && z'.jr == z.jr
      && z'.baseL == z.baseL && z'.baseR == z.baseR
  {
  }

  lemma NextRightShape(b: seq<byte>, z: Scan)
    requires Sound(b, z) && z.jr < |z.qr|
    ensures var z' := NextRight(b, z);
      && z'.ss == z.ss && z'.done == z.done && z'.jr == z.jr + 1 && z'.ql == z.ql && z'.jl == z.jl
      && z'.baseL == z.baseL && z'.baseR == z.baseR
  {
  }

  lemma LeftSkip(b: seq<byte>, p0: seq<int>, p: seq<int>, cs: seq<int>, ce: seq<int>, z: Scan, k: int)
    requires Scanning(b, p0, p, cs, ce, z) && z.jl < |z.ql| && OfBlock(b, z.ql) && Sound(b, z)
    requires k == Pred(b, z.ql[z.jl]) && z.done[b[k]]
    ensures Scanning(b, p0, p, cs, ce, NextLeft(b, z))
  {
    hide Sound, Start, Preds, Untouched, Queue, Pred, Filling, NextLeft;
    NextSound(b, z);
    NextLeftShape(b, z);
    var z' := NextLeft(b, z);
    forall t | Open(b, z', t) ensures BucketState(b, p0, p, cs, ce, z', t) {
      PredsUntouched(b, p0, p, cs, ce, z, t);
      NextLeftPreds(b, z, t);
      assert Preds(b, z.ql[..z.jl], t) + [] == Preds(b, z.ql[..z.jl], t);
    }
    forall y | 0 <= y < |b| && Untouched(b, z', y) ensures p[y] == p0[y] {
      SameUntouched(b, z, z', y, 0, 0);
    }
  }

  lemma RightWriteAt(b: seq<byte>, p0: seq<int>, p: seq<int>, cs: seq<int>, ce: seq<int>, z: Scan, k: int, t: int, t': int)
    requires Scanning(b, p0, p, cs, ce, z) && z.jr < |z.qr| && OfBlock(b, z.qr) && Sound(b, z)
    requires k == Pred(b, z.qr[z.jr]) && t == b[k] && Open(b, z, t) && Open(b, z, t')
    ensures |cs| == |ce| == 256 && 0 <= cs[t] <= ce[t] < |b| == |p| && Sound(b, NextRight(b, z))
    ensures var x := ce[t]; BucketState(b, p0, p[x := k], cs, ce[t := x - 1], NextRight(b, z), t')
  {
    hide Sound, Start, Preds, Untouched, Queue, Pred, Filling, NextRight, Scanning, BucketState, Bucket;
    RightRoom(b, p0, p, cs, ce, z, k, t);
    NextSound(b, z);
    NextRightShape(b, z);
    PredsUntouched(b, p0, p, cs, ce, z, t');
    NextRightPreds(b, z, t');
    var x := ce[t];
    var lo, hi := Start(b, Bucket(t', z.ss)), Start(b, Bucket(t', z.ss) + 1);
    var l, r := Preds(b, z.ql[..z.jl], t'), Preds(b, z.qr[..z.jr], t');
    NextSound(b, NextRight(b, z));
    BucketIs(b, p0, p, cs, ce, z, t', l, r);
    if t' == t {
      FillingRight(p0, p, lo, hi, cs[t], ce[t], l, r, k);
      BucketIs(b, p0, p[x := k], cs, ce[t := x - 1], NextRight(b, z), t', l, r + [k]);
    } else {
      OtherBucket(b, t, t', z.ss, x);
      FillingElsewhere(p0, p, lo, hi, cs[t'], ce[t'], l, r, x, k);
      assert r + [] == r;
      BucketIs(b, p0, p[x := k], cs, ce[t := x - 1], NextRight(b, z), t', l, r);
    }
  }

  lemma RightWrite(b: seq<byte>, p0: seq<int>, p: seq<int>, cs: seq<int>, ce: seq<int>, z: Scan, k: int, t: int)
    requires Scanning(b, p0, p, cs, ce, z) && z.jr < |z.qr| && OfBlock(b, z.qr) && Sound(b, z)
    requires k == Pred(b, z.qr[z.jr]) && t == b[k] && Open(b, z, t)
    ensures |cs| == |ce| == 256 && 0 <= cs[t] <= ce[t] < |b| == |p|
    ensures Scanning(b, p0, p[ce[t] := k], cs, ce[t := ce[t] - 1], NextRight(b, z))
  {
    hide Sound, Start, Preds, Untouched, Queue, Pred, Filling, NextRight;
    RightRoom(b, p0, p, cs, ce, z, k, t);
    NextSound(b, z);
    var z', x := NextRight(b, z), ce[t];
    NextRightShape(b, z);
    forall t' | Open(b, z', t') ensures BucketState(b, p0, p[x := k], cs, ce[t := x - 1], z', t') {
      RightWriteAt(b, p0, p, cs, ce, z, k, t, t');
    }
    forall y | 0 <= y < |b| && Untouched(b, z', y) ensures p[x := k][y] == p0[y] {
      SameUntouched(b, z, z', y, t, x);
    }
  }

  lemma RightSkip(b: seq<byte>, p0: seq<int>, p: seq<int>, cs: seq<int>, ce: seq<int>, z: Scan, k: int)
    requires Scanning(b, p0, p, cs, ce, z) && z.jr < |z.qr| && OfBlock(b, z.qr) && Sound(b, z)
    requires k == Pred(b, z.qr[z.jr]) && z.done[b[k]]
    ensures Scanning(b, p0, p, cs, ce, NextRight(b, z))
  {
    hide Sound, Start, Preds, Untouched, Queue, Pred, Filling, NextRight;
    NextSound(b, z);
    NextRightShape(b, z);
    var z' := NextRight(b, z);
    forall t | Open(b, z', t) ensures BucketState(b, p0, p, cs, ce, z', t) {
      PredsUntouched(b, p0, p, cs, ce, z, t);
      NextRightPreds(b, z, t);
      assert Preds(b, z.qr[..z.jr], t) + [] == Preds(b, z.qr[..z.jr], t);
    }
    forall y | 0 <= y < |b| && Untouched(b, z', y) ensures p[y] == p0[y] {
      SameUntouched(b, z, z', y, 0, 0);
    }
  }

  // ---------- Where the queues lie ----------

  /** The two ends of the big bucket before the scan, as the scans' first entries. */
  ghost predicate Laid(b: seq<byte>, p0: seq<int>, z: Scan) {
    var first, last := Start(b, Bucket(z.ss, 0)), Start(b, Bucket(z.ss, 0) + 256);
    && |p0| == |b| && 0 <= z.ss < 256
    && first + |z.baseL| == Start(b, Bucket(z.ss, z.ss)) && last - |z.baseR| == Start(b, Bucket(z.ss, z.ss) + 1)
    && last <= |b|
    && (forall i :: 0 <= i < |z.baseL| ==> p0[first + i] == z.baseL[i])
    && (forall i :: 0 <= i < |z.baseR| ==> p0[last - 1 - i] == z.baseR[i])
  }

  /** The outer parts of the big bucket are no bucket [t, ss]. */
  lemma OuterUntouched(b: seq<byte>, z: Scan, x: int)
    requires 0 <= z.ss < 256
    requires (Start(b, Bucket(z.ss, 0)) <= x < Start(b, Bucket(z.ss, z.ss)))
          || (Start(b, Bucket(z.ss, z.ss) + 1) <= x < Start(b, Bucket(z.ss, 0) + 256))
    ensures Untouched(b, z, x)
  {
    hide Start;
    forall t | Open(b, z, t) ensures !(Start(b, Bucket(t, z.ss)) <= x < Start(b, Bucket(t, z.ss) + 1)) {
      if t < z.ss {
        StartOrder(b, Bucket(t, z.ss) + 1, Bucket(z.ss, 0));
        StartOrder(b, Bucket(t, z.ss) + 1, Bucket(z.ss, z.ss) + 1);
      } else if t > z.ss {
        StartOrder(b, Bucket(z.ss, 0) + 256, Bucket(t, z.ss));
        StartOrder(b, Bucket(z.ss, z.ss), Bucket(t, z.ss));
      }
    }
  }

  lemma OuterSame(b: seq<byte>, p0: seq<int>, p: seq<int>, cs: seq<int>, ce: seq<int>, z: Scan, x: int)
    requires Scanning(b, p0, p, cs, ce, z) && 0 <= z.ss < 256 && 0 <= x < |b|
    requires (Start(b, Bucket(z.ss, 0)) <= x < Start(b, Bucket(z.ss, z.ss)))
          || (Start(b, Bucket(z.ss, z.ss) + 1) <= x < Start(b, Bucket(z.ss, 0) + 256))
    ensures |p| == |p0| == |b| && p[x] == p0[x]
  {
    hide Start, Untouched, BucketState, Sound;
    OuterUntouched(b, z, x);
  }

  lemma FilledAt(p0: seq<int>, p: seq<int>, lo: int, hi: int, c: int, e: int, l: seq<int>, r: seq<int>)
    requires Filling(p0, p, lo, hi, c, e, l, r)
    ensures 0 <= lo && lo + |l| == c <= hi <= |p| && e == hi - 1 - |r| && lo <= e + 1
    ensures forall i :: 0 <= i < |l| ==> p[lo + i] == l[i]
    ensures forall i :: 0 <= i < |r| ==> p[hi - 1 - i] == r[i]
  {
  }

  lemma SelfBucket(b: seq<byte>, p0: seq<int>, p: seq<int>, cs: seq<int>, ce: seq<int>, z: Scan)
    requires Scanning(b, p0, p, cs, ce, z) && Sound(b, z)
    ensures 0 <= z.ss < 256 && |cs| == |ce| == 256 && |p| == |p0| == |b| && OfBlock(b, z.ql) && OfBlock(b, z.qr)
    ensures z.jl <= |z.ql| && z.jr <= |z.qr|
    ensures z.ql == z.baseL + Preds(b, z.ql[..z.jl], z.ss) && z.qr == z.baseR + Preds(b, z.qr[..z.jr], z.ss)
    ensures Filling(p0, p, Start(b, Bucket(z.ss, z.ss)), Start(b, Bucket(z.ss, z.ss) + 1), cs[z.ss], ce[z.ss],
                    Preds(b, z.ql[..z.jl], z.ss), Preds(b, z.qr[..z.jr], z.ss))
  {
    hide Start, Untouched, Preds, Filling;
    assert Open(b, z, z.ss);
    PredsUntouched(b, p0, p, cs, ce, z, z.ss);
    ScansWithin(b, z.ss, z.baseL, z.ql, z.jl, z.baseR, z.qr, z.jr);
  }

  lemma LeftQueueAt(b: seq<byte>, p0: seq<int>, p: seq<int>, cs: seq<int>, ce: seq<int>, z: Scan)
    requires Scanning(b, p0, p, cs, ce, z) && Laid(b, p0, z) && Sound(b, z)
    ensures |cs| == 256 && |p| == |b| && cs[z.ss] == Start(b, Bucket(z.ss, 0)) + |z.ql| <= |b| && z.jl <= |z.ql|
    ensures forall i :: 0 <= i < |z.ql| ==> p[Start(b, Bucket(z.ss, 0)) + i] == z.ql[i]
  {
    hide Start, Preds, Scanning, Filling, Sound;
    SelfBucket(b, p0, p, cs, ce, z);
    var first, mid := Start(b, Bucket(z.ss, 0)), Start(b, Bucket(z.ss, z.ss));
    var l := Preds(b, z.ql[..z.jl], z.ss);
    FilledAt(p0, p, mid, Start(b, Bucket(z.ss, z.ss) + 1), cs[z.ss], ce[z.ss], l, Preds(b, z.qr[..z.jr], z.ss));
    forall i | 0 <= i < |z.ql| ensures p[first + i] == z.ql[i] {
      if i < |z.baseL| {
        OuterSame(b, p0, p, cs, ce, z, first + i);
      } else {
        assert p[mid + (i - |z.baseL|)] == l[i - |z.baseL|];
      }
    }
  }

  lemma RightQueueAt(b: seq<byte>, p0: seq<int>, p: seq<int>, cs: seq<int>, ce: seq<int>, z: Scan)
    requires Scanning(b, p0, p, cs, ce, z) && Laid(b, p0, z) && Sound(b, z)
    ensures |ce| == 256 && |p| == |b| && ce[z.ss] == Start(b, Bucket(z.ss, 0) + 256) - 1 - |z.qr| >= -1
      && z.jr <= |z.qr|
    ensures Start(b, Bucket(z.ss, 0) + 256) <= |b|
    ensures forall i :: 0 <= i < |z.qr| ==> p[Start(b, Bucket(z.ss, 0) + 256) - 1 - i] == z.qr[i]
  {
    hide Start, Preds, Scanning, Filling, Sound;
    SelfBucket(b, p0, p, cs, ce, z);
    var last, mid := Start(b, Bucket(z.ss, 0) + 256), Start(b, Bucket(z.ss, z.ss) + 1);
    var r := Preds(b, z.qr[..z.jr], z.ss);
    FilledAt(p0, p, Start(b, Bucket(z.ss, z.ss)), mid, cs[z.ss], ce[z.ss], Preds(b, z.ql[..z.jl], z.ss), r);
    forall i | 0 <= i < |z.qr| ensures p[last - 1 - i] == z.qr[i] {
      if i < |z.baseR| {
        OuterSame(b, p0, p, cs, ce, z, last - 1 - i);
      } else {
        assert p[mid - 1 - (i - |z.baseR|)] == r[i - |z.baseR|];
      }
    }
  }

  // ---------- After both scans ----------

  ghost predicate Finished(b: seq<byte>, z: Scan) {
    z.jl == |z.ql| && z.jr == |z.qr|
  }

  /** In a block that is not all ss, the two scans meet in every bucket (code 1007). */
  lemma ScansMeet(b: seq<byte>, p0: seq<int>, p: seq<int>, cs: seq<int>, ce: seq<int>, z: Scan, t: int)
    requires Scanning(b, p0, p, cs, ce, z) && Finished(b, z) && Bucketed(b, p0) && Open(b, z, t) && !Uniform(b, z.ss)
    ensures |cs| == |ce| == 256 && cs[t] == ce[t] + 1
  {
    hide Start, Preds, Untouched, Queue, Bucketed;
    PredsUntouched(b, p0, p, cs, ce, z, t);
    NextSound(b, z);
    LandedAll(b, p0, z.ss, z.baseL, z.ql, z.baseR, z.qr, t);
  }

  /** Slot x of a bucket that has been filled holds a rotation of that bucket. */
  lemma FilledSlot(b: seq<byte>, p0: seq<int>, p: seq<int>, cs: seq<int>, ce: seq<int>, z: Scan, t: int, x: int)
    requires Scanning(b, p0, p, cs, ce, z) && Open(b, z, t) && Sound(b, z)
    requires Start(b, Bucket(t, z.ss)) <= x < Start(b, Bucket(t, z.ss) + 1)
    requires |cs| == |ce| == 256 && cs[t] == ce[t] + 1
    ensures OfBlock(b, z.ql) && OfBlock(b, z.qr) && z.jl <= |z.ql| && z.jr <= |z.qr| && 0 <= x < |p|
    ensures var d := Landed(b, t, z.ql, z.jl, z.qr, z.jr);
      var i := LandingOf(b, z, t, x);
      0 <= i < |d| && p[x] == d[i]
  {
    hide Start, Preds, Untouched, Queue;
    PredsUntouched(b, p0, p, cs, ce, z, t);
    NextSound(b, z);
    var lo, hi := Start(b, Bucket(t, z.ss)), Start(b, Bucket(t, z.ss) + 1);
    var l, r := Preds(b, z.ql[..z.jl], t), Preds(b, z.qr[..z.jr], t);
    if x < cs[t] {
      assert p[lo + (x - lo)] == l[x - lo];
    } else {
      assert p[hi - 1 - (hi - 1 - x)] == r[hi - 1 - x];
    }
  }

  /** Which of the landed rotations slot x holds. */
  ghost function LandingOf(b: seq<byte>, z: Scan, t: int, x: int): int
    requires OfBlock(b, z.ql) && z.jl <= |z.ql|
  {
    var lo, hi, l := Start(b, Bucket(t, z.ss)), Start(b, Bucket(t, z.ss) + 1), |Preds(b, z.ql[..z.jl], t)|;
    if x < lo + l then x - lo else l + (hi - 1 - x)
  }

  /** What one open bucket holds in the end. */
  lemma BucketFilled(b: seq<byte>, p0: seq<int>, p: seq<int>, cs: seq<int>, ce: seq<int>, z: Scan, t: int)
    requires Scanning(b, p0, p, cs, ce, z) && Open(b, z, t) && Sound(b, z)
    requires |cs| == |ce| == 256 && cs[t] == ce[t] + 1 && |p| == |b|
    ensures forall x :: Start(b, Bucket(t, z.ss)) <= x < Start(b, Bucket(t, z.ss) + 1) ==>
      0 <= x < |b| && 0 <= p[x] < |b| && TwoBytes(b, p[x]) == Bucket(t, z.ss)
    ensures forall x, y :: Start(b, Bucket(t, z.ss)) <= x < y < Start(b, Bucket(t, z.ss) + 1) ==>
      0 <= x < |b| && 0 <= y < |b| && p[x] != p[y]
  {
    hide Start, Preds, Untouched, Queue, Scanning, TwoBytes;
    NextSound(b, z);
    LandedApart(b, z.ss, z.baseL, z.ql, z.jl, z.baseR, z.qr, z.jr, t);
    var d := Landed(b, t, z.ql, z.jl, z.qr, z.jr);
    var lo, hi := Start(b, Bucket(t, z.ss)), Start(b, Bucket(t, z.ss) + 1);
    forall x | lo <= x < hi ensures 0 <= x < |b| && 0 <= p[x] < |b| && TwoBytes(b, p[x]) == Bucket(t, z.ss) {
      FilledSlot(b, p0, p, cs, ce, z, t, x);
      TwoBytesSplit(b, p[x], t, z.ss);
    }
    forall x, y | lo <= x < y < hi ensures 0 <= x < |b| && 0 <= y < |b| && p[x] != p[y] {
      FilledSlot(b, p0, p, cs, ce, z, t, x);
      FilledSlot(b, p0, p, cs, ce, z, t, y);
    }
  }

  lemma BucketSorted(b: seq<byte>, p0: seq<int>, p: seq<int>, cs: seq<int>, ce: seq<int>, z: Scan, t: int)
    requires Scanning(b, p0, p, cs, ce, z) && Open(b, z, t) && Sound(b, z)
    requires |cs| == |ce| == 256 && cs[t] == ce[t] + 1 && |p| == |b| && OfBlock(b, p)
    ensures SortedIn(b, p, Start(b, Bucket(t, z.ss)), Start(b, Bucket(t, z.ss) + 1))
  {
    hide Start, Preds, Untouched, Queue, Rank, Sound, BucketState, Filling, Bucket, Scanning;
    NextSound(b, z);
    LandedApart(b, z.ss, z.baseL, z.ql, z.jl, z.baseR, z.qr, z.jr, t) by { SoundScans(b, z); }
    PredsUntouched(b, p0, p, cs, ce, z, t);
    var lo, hi := Start(b, Bucket(t, z.ss)), Start(b, Bucket(t, z.ss) + 1);
    var l, r := Preds(b, z.ql[..z.jl], t), Preds(b, z.qr[..z.jr], t);
    BucketIs(b, p0, p, cs, ce, z, t, l, r);
    FilledAt(p0, p, lo, hi, cs[t], ce[t], l, r);
    forall x, y | lo <= x < y < hi ensures Rank(b, p[x]) <= Rank(b, p[y]) {
      SlotEntry(p0, p, lo, hi, cs[t], ce[t], l, r, x);
      SlotEntry(p0, p, lo, hi, cs[t], ce[t], l, r, y);
    }
  }

  lemma SoundScans(b: seq<byte>, z: Scan)
    requires Sound(b, z)
    ensures Scans(b, z.ss, z.baseL, z.ql, z.jl, z.baseR, z.qr, z.jr)
  {
  }

  lemma SlotEntry(p0: seq<int>, p: seq<int>, lo: int, hi: int, c: int, e: int, l: seq<int>, r: seq<int>, x: int)
    requires Filling(p0, p, lo, hi, c, e, l, r) && c == e + 1 && lo <= x < hi
    ensures if x < c then x - lo < |l| && p[x] == l[x - lo] else 0 <= hi - 1 - x < |r| && p[x] == r[hi - 1 - x]
  {
    if x < c {
      assert p[lo + (x - lo)] == l[x - lo];
    } else {
      assert p[hi - 1 - (hi - 1 - x)] == r[hi - 1 - x];
    }
  }

  /** The slots are still those of their buckets, and a permutation. */
  lemma ScannedBucketed(b: seq<byte>, p0: seq<int>, p: seq<int>, cs: seq<int>, ce: seq<int>, z: Scan)
    requires Scanning(b, p0, p, cs, ce, z) && Bucketed(b, p0) && Sound(b, z)
    requires |cs| == |ce| == 256 && forall t :: Open(b, z, t) ==> cs[t] == ce[t] + 1
    ensures Bucketed(b, p)
  {
    hide Start, TwoBytes, BucketState, Sound, Bucketed;
    BucketedRange(b, p0);
    forall x | 0 <= x < |b| ensures 0 <= p[x] < |b| && TwoBytes(b, p[x]) == TwoBytes(b, p0[x]) {
      if !Untouched(b, z, x) {
        var t :| Open(b, z, t) && Start(b, Bucket(t, z.ss)) <= x < Start(b, Bucket(t, z.ss) + 1);
        BucketFilled(b, p0, p, cs, ce, z, t);
        BucketOf(b, p0, Bucket(t, z.ss), x);
      }
    }
    forall x, y | 0 <= x < y < |b| ensures p[x] != p[y] {
      if Untouched(b, z, x) && Untouched(b, z, y) {
        assert p0[x] != p0[y];
      } else {
        FilledDiffer(b, p0, p, cs, ce, z, x, y);
      }
    }
    StillBucketed(b, p0, p);
  }

  lemma StillBucketed(b: seq<byte>, p0: seq<int>, p: seq<int>)
    requires Bucketed(b, p0) && |p| == |b| && |p0| == |b|
    requires forall x :: 0 <= x < |b| ==> 0 <= p0[x] < |b| && 0 <= p[x] < |b| && TwoBytes(b, p[x]) == TwoBytes(b, p0[x])
    requires forall x, y :: 0 <= x < y < |b| ==> p[x] != p[y]
    ensures Bucketed(b, p)
  {
    hide Start, TwoBytes;
  }

  lemma FilledDiffer(b: seq<byte>, p0: seq<int>, p: seq<int>, cs: seq<int>, ce: seq<int>, z: Scan, x: int, y: int)
    requires Scanning(b, p0, p, cs, ce, z) && Bucketed(b, p0) && Sound(b, z)
    requires |cs| == |ce| == 256 && forall t :: Open(b, z, t) ==> cs[t] == ce[t] + 1
    requires 0 <= x < y < |b| && 0 <= p[x] < |b| && 0 <= p[y] < |b| && 0 <= p0[x] < |b| && 0 <= p0[y] < |b|
    requires TwoBytes(b, p[x]) == TwoBytes(b, p0[x]) && TwoBytes(b, p[y]) == TwoBytes(b, p0[y])
    requires !Untouched(b, z, x) || !Untouched(b, z, y)
    ensures p[x] != p[y]
  {
    hide Start, TwoBytes, BucketState, Sound, Bucketed, Scanning;
    var w := if !Untouched(b, z, x) then x else y;
    var t :| Open(b, z, t) && Start(b, Bucket(t, z.ss)) <= w < Start(b, Bucket(t, z.ss) + 1);
    BucketOf(b, p0, Bucket(t, z.ss), w);
    ScanningSize(b, p0, p, cs, ce, z);
    BucketFilled(b, p0, p, cs, ce, z, t);
    if TwoBytes(b, p[x]) == TwoBytes(b, p[y]) {
      BucketOf(b, p0, Bucket(t, z.ss), x);
      BucketOf(b, p0, Bucket(t, z.ss), y);
    }
  }

  lemma ScanningSize(b: seq<byte>, p0: seq<int>, p: seq<int>, cs: seq<int>, ce: seq<int>, z: Scan)
    requires Scanning(b, p0, p, cs, ce, z)
    ensures |p| == |p0| == |b| && |cs| == |ce| == 256 && Sound(b, z)
  {
  }

  /** In a block of one repeated byte nothing is moved, and any order is sorted. */
  lemma UniformScan(b: seq<byte>, p0: seq<int>, p: seq<int>, cs: seq<int>, ce: seq<int>, z: Scan)
    requires Scanning(b, p0, p, cs, ce, z) && Uniform(b, z.ss) && 0 < |b|
    ensures p == p0 && |cs| == |ce| == 256 && 0 <= z.ss < 256 && cs[z.ss] == 0 && ce[z.ss] == |b| - 1
  {
    hide Start, TwoBytes;
    UniformQueues(b, z);
    UniformStart(b, z.ss);
    forall x | 0 <= x < |b| ensures p[x] == p0[x] {
      assert Open(b, z, z.ss);
      PredsUntouched(b, p0, p, cs, ce, z, z.ss);
    }
    assert Open(b, z, z.ss);
  }

  lemma UniformQueues(b: seq<byte>, z: Scan)
    requires Sound(b, z) && Uniform(b, z.ss)
    ensures z.ql == [] && z.qr == []
  {
    hide Sided, Adv;
    assert |z.baseL| > 0 ==> Outer(b, z.ss, true, z.baseL[0]);
    assert |z.baseR| > 0 ==> Outer(b, z.ss, false, z.baseR[0]);
    assert z.baseL == [] && z.baseR == [];
    EmptyQueue(b, z.ss, true, z.ql, z.jl);
    EmptyQueue(b, z.ss, false, z.qr, z.jr);
  }

  /** In such a block no run ends, so nothing can be in a queue. */
  lemma EmptyQueue(b: seq<byte>, ss: int, low: bool, q: seq<int>, j: nat)
    requires Queue(b, ss, low, [], q, j) && Uniform(b, ss)
    ensures q == []
  {
    hide Adv, Preds, Monotone, Distinct;
    assert |q| > 0 ==> Sided(b, ss, low, q[0]);
  }

  lemma UniformStart(b: seq<byte>, ss: int)
    requires Uniform(b, ss) && 0 <= ss < 256
    ensures Start(b, Bucket(ss, ss)) == 0 && Start(b, Bucket(ss, ss) + 1) == |b|
  {
    Counting.CountAll(Keys(b), Bucket(ss, ss), Bucket(ss, ss) + 1);
  }
}
