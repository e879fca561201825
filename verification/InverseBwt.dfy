/** The Burrows-Wheeler transform undone: why following the counting-sort vector from the row
    of rotation 0 spells the block, whatever the block (dep/bzip2/decompress.c:477-542,
    dep/bzip2/blocksort.c:1063-1068, dep/bzip2/compress.c:153-157). */
module InverseBwt {
  import opened Rotations
  import opened Counting
  import opened PrefixDoubling

  // ---------- The last column ----------

  /** What the encoder reads off the sorted rotations: the byte before each. */
  function LastColumn(b: seq<byte>, p: seq<int>): (c: seq<byte>)
    requires |p| == |b| && forall x :: 0 <= x < |p| ==> 0 <= p[x] < |b|
    ensures |c| == |b|
  {
    seq(|b|, x requires 0 <= x < |b| => b[Back(|b|, p[x], 1)])
  }

  /** `t` sends the place of each item under a stable counting sort back to the item. */
  ghost predicate IsTInverse(c: seq<byte>, t: seq<int>) {
    && |t| == |c|
    && (forall i :: 0 <= i < |c| ==> t[Place(c, i)] == i)
  }

  /** There is only one vector. */
  lemma TInverseUnique(c: seq<byte>, t: seq<int>, t': seq<int>)
    requires IsTInverse(c, t) && IsTInverse(c, t')
    ensures t == t'
  {
    forall x | 0 <= x < |c| ensures t[x] == t'[x] {
      var i := PlaceOnto(c, x);
      assert t[Place(c, i)] == t'[Place(c, i)];
    }
  }

  lemma TInverseAt(c: seq<byte>, t: seq<int>, x: int)
    requires IsTInverse(c, t) && 0 <= x < |c|
    ensures 0 <= t[x] < |c| && Place(c, t[x]) == x
  {
    var i := PlaceOnto(c, x);
  }

  lemma TInverseIsPerm(c: seq<byte>, t: seq<int>)
    requires IsTInverse(c, t)
    ensures IsPerm(t, |c|)
  {
    forall x | 0 <= x < |c| ensures 0 <= t[x] < |c| && Place(c, t[x]) == x {
      TInverseAt(c, t, x);
    }
  }

  // ---------- Two sorted listings of the same rotations agree ----------

  lemma Pigeonhole(r: seq<int>, m: nat)
    requires forall k :: 0 <= k < |r| ==> 0 <= r[k] < m
    requires forall i, j :: 0 <= i < j < |r| ==> r[i] != r[j]
    ensures |r| <= m
  {
    DistinctCardinality(r);
    SubsetCardinality(Elements(r), Range(m));
  }

  /** Where each of the first x+1 entries of `p` is in `q`. */
  ghost function Slots(p: seq<int>, q: seq<int>, n: nat, m: nat): (r: seq<int>)
    requires IsPerm(p, n) && IsPerm(q, n) && m <= n
    ensures |r| == m
    ensures forall k :: 0 <= k < m ==> 0 <= r[k] < n && q[r[k]] == p[k]
  {
    if m == 0 then [] else
      var i := SlotOf(q, n, p[m - 1]);
      Slots(p, q, n, m - 1) + [i]
  }

  lemma PermHits(q: seq<int>, n: nat, v: int)
    requires IsPerm(q, n) && 0 <= v < n
    ensures exists i :: 0 <= i < n && q[i] == v
  {
    var j := PermOnto(q, n, v);
  }

  ghost function SlotOf(q: seq<int>, n: nat, v: int): (i: int)
    requires IsPerm(q, n) && 0 <= v < n
    ensures 0 <= i < n && q[i] == v
  {
    PermHits(q, n, v);
    var i :| 0 <= i < n && q[i] == v;
    i
  }

  lemma NotBelow(b: seq<byte>, p: seq<int>, q: seq<int>, x: int)
    requires InRotationOrder(b, p) && InRotationOrder(b, q) && 0 <= x < |b|
    ensures Cmp(b, p[x], q[x], |b|) >= 0
  {
    var n := |b|;
    if Cmp(b, p[x], q[x], n) < 0 {
      var r := Slots(p, q, n, x + 1);
      forall k | 0 <= k < x + 1 ensures 0 <= r[k] < x {
        if r[k] >= x {
          AtMost(b, p, k, x);
          CmpTransitive(b, p[k], p[x], q[x], n);
          AtMost(b, q, x, r[k]);
          CmpTransitive(b, p[k], q[x], q[r[k]], n);
          CmpFlip(b, p[k], p[k], n);
        }
      }
      Pigeonhole(r, x);
    }
  }

  lemma AtMost(b: seq<byte>, p: seq<int>, x: int, y: int)
    requires InRotationOrder(b, p) && 0 <= x <= y < |b|
    ensures Cmp(b, p[x], p[y], |b|) <= 0
  {
    if x == y {
      CmpFlip(b, p[x], p[x], |b|);
    }
  }

  /** Equal rotations may be listed in different orders, but slot by slot the strings agree. */
  lemma SortedAgree(b: seq<byte>, p: seq<int>, q: seq<int>, x: int)
    requires InRotationOrder(b, p) && InRotationOrder(b, q) && 0 <= x < |b|
    ensures Cmp(b, p[x], q[x], |b|) == 0
  {
    NotBelow(b, p, q, x);
    NotBelow(b, q, p, x);
    CmpFlip(b, p[x], q[x], |b|);
  }

  // ---------- The key step ----------

  /** The rotations listed by sorting the last column: row t[x], started one byte earlier. */
  ghost function Resorted(b: seq<byte>, p: seq<int>, t: seq<int>): (q: seq<int>)
    requires IsPerm(p, |b|) && IsPerm(t, |b|)
    ensures |q| == |b|
  {
    seq(|b|, x requires 0 <= x < |b| => Back(|b|, p[t[x]], 1))
  }

  lemma ResortedIsPerm(b: seq<byte>, p: seq<int>, t: seq<int>)
    requires IsPerm(p, |b|) && IsPerm(t, |b|)
    ensures IsPerm(Resorted(b, p, t), |b|)
  {
    var q, n := Resorted(b, p, t), |b|;
    forall x, y | 0 <= x < y < n ensures q[x] != q[y] {
      BackAdv(n, p[t[x]], 1);
      BackAdv(n, p[t[y]], 1);
      assert t[x] != t[y];
      assert if t[x] < t[y] then p[t[x]] != p[t[y]] else p[t[y]] != p[t[x]];
    }
  }

  lemma ResortedOrder(b: seq<byte>, p: seq<int>, t: seq<int>, x: int, y: int)
    requires InRotationOrder(b, p) && IsTInverse(LastColumn(b, p), t) && IsPerm(t, |b|)
    requires 0 <= x < y < |b|
    ensures Cmp(b, Resorted(b, p, t)[x], Resorted(b, p, t)[y], |b|) <= 0
  {
    hide Cmp, IsTInverse, Place, Adv, InRotationOrder;
    OrderIsPerm(b, p);
    var n, c := |b|, LastColumn(b, p);
    var i, j := t[x], t[y];
    TInverseAt(c, t, x);
    TInverseAt(c, t, y);
    PlaceOrder(c, j, i);
    RowOrder(b, p, i, j);
    var u, v := Back(n, p[i], 1), Back(n, p[j], 1);
    CmpSplit(b, u, v, 1, n - 1);
    CmpOne(b, u, v);
    if c[i] == c[j] {
      assert i < j;
      BackAdv(n, p[i], 1);
      BackAdv(n, p[j], 1);
      CmpSplit(b, p[i], p[j], n - 1, 1);
    }
  }

  lemma OrderIsPerm(b: seq<byte>, p: seq<int>)
    requires InRotationOrder(b, p)
    ensures IsPerm(p, |b|)
  {
  }

  lemma RowOrder(b: seq<byte>, p: seq<int>, i: int, j: int)
    requires InRotationOrder(b, p) && 0 <= i < |b| && 0 <= j < |b|
    ensures 0 <= p[i] < |b| && 0 <= p[j] < |b|
    ensures i < j ==> Cmp(b, p[i], p[j], |b|) <= 0
  {
  }

  /** Following t from row x leads to the row of the next rotation, as a string. */
  lemma RowStep(b: seq<byte>, p: seq<int>, t: seq<int>, x: int)
    requires InRotationOrder(b, p) && IsTInverse(LastColumn(b, p), t) && 0 <= x < |b|
    ensures 0 <= t[x] < |b|
    ensures Cmp(b, p[x], Back(|b|, p[t[x]], 1), |b|) == 0
    ensures Cmp(b, Adv(|b|, p[x], 1), p[t[x]], |b|) == 0
  {
    TInverseIsPerm(LastColumn(b, p), t);
    var n, q := |b|, Resorted(b, p, t);
    ResortedIsPerm(b, p, t);
    forall x, y | 0 <= x < y < n ensures Cmp(b, q[x], q[y], n) <= 0 {
      ResortedOrder(b, p, t, x, y);
    }
    SortedAgree(b, p, q, x);
    NextEqual(b, p[x], q[x]);
    BackAdv(n, p[t[x]], 1);
  }

  /** Equal rotations stay equal one step further on. */
  lemma NextEqual(b: seq<byte>, i: int, j: int)
    requires 0 <= i < |b| && 0 <= j < |b| && Cmp(b, i, j, |b|) == 0
    ensures b[i] == b[j] && Cmp(b, Adv(|b|, i, 1), Adv(|b|, j, 1), |b|) == 0
  {
    CmpBeyond(b, i, j, |b| + 1);
    CmpSplit(b, i, j, 1, |b|);
    CmpOne(b, i, j);
  }

  // ---------- The walk ----------

  /** Row reached from `o` after k steps along `t`. */
  ghost function Iter(t: seq<int>, o: int, k: nat): (x: int)
    requires 0 <= o < |t| && forall i :: 0 <= i < |t| ==> 0 <= t[i] < |t|
    ensures 0 <= x < |t|
  {
    if k == 0 then o else t[Iter(t, o, k - 1)]
  }

  /** The k-th byte the decoder fetches, for any k: it may run past the end of the block. */
  ghost function Fetched(c: seq<byte>, t: seq<int>, o: int, k: nat): byte
    requires IsTInverse(c, t) && 0 <= o < |c|
  {
    TInverseIsPerm(c, t);
    c[Iter(t, o, k + 1)]
  }

  lemma {:induction false} RowReached(b: seq<byte>, p: seq<int>, t: seq<int>, o: int, k: nat)
    requires InRotationOrder(b, p) && IsTInverse(LastColumn(b, p), t)
    requires 0 <= o < |b| && p[o] == 0
    ensures IsPerm(t, |b|)
    ensures Cmp(b, Adv(|b|, 0, k), p[Iter(t, o, k)], |b|) == 0
  {
    hide Cmp, IsTInverse, Adv, InRotationOrder, LastColumn;
    OrderIsPerm(b, p);
    TInverseIsPerm(LastColumn(b, p), t);
    var n := |b|;
    if k == 0 {
      AdvSmall(n, 0, 0);
      CmpFlip(b, 0, 0, n);
    } else {
      RowReached(b, p, t, o, k - 1);
      var x := Iter(t, o, k - 1);
      RowStep(b, p, t, x);
      NextEqual(b, Adv(n, 0, k - 1), p[x]);
      AdvAdd(n, 0, k - 1, 1);
      CmpEqualTransitive(b, Adv(n, 0, k), Adv(n, p[x], 1), p[t[x]]);
    }
  }

  lemma CmpEqualTransitive(b: seq<byte>, i: int, j: int, l: int)
    requires 0 <= i < |b| && 0 <= j < |b| && 0 <= l < |b|
    requires Cmp(b, i, j, |b|) == 0 && Cmp(b, j, l, |b|) == 0
    ensures Cmp(b, i, l, |b|) == 0
  {
    CmpTransitive(b, i, j, l, |b|);
    CmpFlip(b, i, j, |b|);
    CmpFlip(b, j, l, |b|);
    CmpTransitive(b, l, j, i, |b|);
    CmpFlip(b, i, l, |b|);
  }

  /** Round trip of the transform: for every block, periodic ones included, every order of its
      equal rotations, and any row holding rotation 0, the bytes fetched are those of the
      block, over and over. */
  lemma RoundTrip(b: seq<byte>, p: seq<int>, t: seq<int>, o: int, k: nat)
    requires InRotationOrder(b, p) && IsTInverse(LastColumn(b, p), t)
    requires 0 <= o < |b| && p[o] == 0
    ensures Fetched(LastColumn(b, p), t, o, k) == b[Adv(|b|, 0, k)]
  {
    RowReached(b, p, t, o, k);
    var x := Iter(t, o, k);
    RowStep(b, p, t, x);
    NextEqual(b, Adv(|b|, 0, k), p[x]);
    NextEqual(b, p[x], Back(|b|, p[t[x]], 1));
  }
}
