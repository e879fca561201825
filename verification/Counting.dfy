/** Counting sort: how many keys are equal to, or below, a value, and the place of each item.
    The block sorter's radix passes and the decoder's inverse transform all rest on this. */
module Counting {
  import opened Rotations

  ghost function CountEq(c: seq<int>, v: int): (k: nat)
    ensures k <= |c|
  {
    if c == [] then 0 else CountEq(c[..|c| - 1], v) + if c[|c| - 1] == v then 1 else 0
  }

  ghost function CountLess(c: seq<int>, v: int): (k: nat)
    ensures k <= |c|
  {
    if c == [] then 0 else CountLess(c[..|c| - 1], v) + if c[|c| - 1] < v then 1 else 0
  }

  lemma {:induction false} CountNext(c: seq<int>, v: int)
    ensures CountLess(c, v + 1) == CountLess(c, v) + CountEq(c, v)
  {
    if c != [] {
      CountNext(c[..|c| - 1], v);
    }
  }

  lemma {:induction false} CountMonotone(c: seq<int>, u: int, v: int)
    requires u <= v
    ensures CountLess(c, u) <= CountLess(c, v)
  {
    if c != [] {
      CountMonotone(c[..|c| - 1], u, v);
    }
  }

  lemma {:induction false} CountAll(c: seq<int>, lo: int, hi: int)
    requires forall i :: 0 <= i < |c| ==> lo <= c[i] < hi
    ensures CountLess(c, lo) == 0 && CountLess(c, hi) == |c|
  {
    if c != [] {
      CountAll(c[..|c| - 1], lo, hi);
    }
  }

  lemma {:induction false} CountPrefix(c: seq<int>, i: nat, j: nat, v: int)
    requires i <= j <= |c|
    ensures CountEq(c[..i], v) <= CountEq(c[..j], v)
    decreases j
  {
    if i < j {
      CountPrefix(c, i, j - 1, v);
      assert c[..j][..j - 1] == c[..j - 1];
    }
  }

  lemma CountStep(c: seq<int>, i: nat, v: int)
    requires i < |c|
    ensures CountEq(c[..i + 1], v) == CountEq(c[..i], v) + if c[i] == v then 1 else 0
  {
    assert c[..i + 1][..i] == c[..i];
  }

  /** Where a stable counting sort puts item i. */
  ghost function Place(c: seq<int>, i: nat): (p: nat)
    requires i < |c|
    ensures CountLess(c, c[i]) <= p < CountLess(c, c[i] + 1)
    ensures p < |c|
  {
    CountNext(c, c[i]);
    CountStep(c, i, c[i]);
    CountPrefix(c, i + 1, |c|, c[i]);
    assert c[..|c|] == c;
    CountLess(c, c[i]) + CountEq(c[..i], c[i])
  }

  /** Where a counting sort that fills each bucket from the top puts item i. */
  ghost function PlaceDown(c: seq<int>, i: nat): (p: nat)
    requires i < |c|
    ensures CountLess(c, c[i]) <= p < CountLess(c, c[i] + 1)
    ensures p < |c|
  {
    CountNext(c, c[i]);
    CountStep(c, i, c[i]);
    CountPrefix(c, i + 1, |c|, c[i]);
    assert c[..|c|] == c;
    CountLess(c, c[i] + 1) - 1 - CountEq(c[..i], c[i])
  }

  lemma PlaceOrder(c: seq<int>, i: nat, j: nat)
    requires i < |c| && j < |c|
    ensures c[i] < c[j] ==> Place(c, i) < Place(c, j) && PlaceDown(c, i) < PlaceDown(c, j)
    ensures c[i] == c[j] && i < j ==> Place(c, i) < Place(c, j) && PlaceDown(c, j) < PlaceDown(c, i)
  {
    if c[i] < c[j] {
      CountMonotone(c, c[i] + 1, c[j]);
    } else if c[i] == c[j] && i < j {
      CountStep(c, i, c[i]);
      CountPrefix(c, i + 1, j, c[i]);
    }
  }

  lemma {:induction false} CountSame(c: seq<int>, v: int)
    requires forall k :: 0 <= k < |c| ==> c[k] == v
    ensures CountEq(c, v) == |c|
  {
    if c != [] {
      CountSame(c[..|c| - 1], v);
    }
  }

  /** Where equal items go: the two sorts keep and reverse their order. */
  lemma PlacesOfSame(c: seq<int>, v: int, i: nat)
    requires i < |c| && forall k :: 0 <= k < |c| ==> c[k] == v
    ensures Place(c, i) == i && PlaceDown(c, i) == |c| - 1 - i
  {
    hide CountEq, CountLess;
    CountAll(c, v, v + 1);
    CountSame(c[..i], v);
  }

  lemma PlaceInjective(c: seq<int>, i: nat, j: nat)
    requires i < |c| && j < |c| && i != j
    ensures Place(c, i) != Place(c, j) && PlaceDown(c, i) != PlaceDown(c, j)
  {
    PlaceOrder(c, i, j);
    PlaceOrder(c, j, i);
  }

  /** Every slot is the place of exactly one item. */
  lemma PlaceOnto(c: seq<int>, x: int) returns (i: nat)
    requires 0 <= x < |c|
    ensures i < |c| && Place(c, i) == x
  {
    var p := seq(|c|, i requires 0 <= i < |c| => Place(c, i));
    forall i, j | 0 <= i < j < |c| ensures p[i] != p[j] {
      PlaceInjective(c, i, j);
    }
    i := PermOnto(p, |c|, x);
  }

  lemma PlaceDownOnto(c: seq<int>, x: int) returns (i: nat)
    requires 0 <= x < |c|
    ensures i < |c| && PlaceDown(c, i) == x
  {
    var p := seq(|c|, i requires 0 <= i < |c| => PlaceDown(c, i));
    forall i, j | 0 <= i < j < |c| ensures p[i] != p[j] {
      PlaceInjective(c, i, j);
    }
    i := PermOnto(p, |c|, x);
  }

  // ---------- Counts of a permuted list ----------

  lemma {:induction false} CountConcat(c: seq<int>, d: seq<int>, v: int)
    ensures CountEq(c + d, v) == CountEq(c, v) + CountEq(d, v)
  {
    if d == [] {
      assert c + d == c;
    } else {
      CountConcat(c, d[..|d| - 1], v);
      assert (c + d)[..|c + d| - 1] == c + d[..|d| - 1];
    }
  }

  ghost function Permuted(c: seq<int>, p: seq<int>): (d: seq<int>)
    requires IsPerm(p, |c|)
  {
    seq(|c|, x requires 0 <= x < |c| => c[p[x]])
  }

  ghost function Without(p: seq<int>, k: int): (q: seq<int>)
    requires 0 <= k < |p|
    ensures |q| == |p| - 1
    ensures forall x :: 0 <= x < |q| ==> q[x] == p[if x < k then x else x + 1]
  {
    p[..k] + p[k + 1..]
  }

  lemma WithoutTop(p: seq<int>, n: nat, k: int)
    requires IsPerm(p, n) && 0 <= k < n && p[k] == n - 1
    ensures IsPerm(Without(p, k), n - 1)
  {
    var q := Without(p, k);
    forall i | 0 <= i < n - 1 ensures 0 <= q[i] < n - 1 {
      var i' := if i < k then i else i + 1;
      assert if i' < k then p[i'] != p[k] else p[k] != p[i'];
    }
  }

  lemma PermutedWithout(c: seq<int>, p: seq<int>, k: int)
    requires IsPerm(p, |c|) && 0 <= k < |c| && p[k] == |c| - 1
    requires IsPerm(Without(p, k), |c| - 1)
    ensures Permuted(c, p) == Permuted(c, p)[..k] + [c[|c| - 1]] + Permuted(c, p)[k + 1..]
    ensures Permuted(c[..|c| - 1], Without(p, k)) == Permuted(c, p)[..k] + Permuted(c, p)[k + 1..]
  {
  }

  /** Permuting a list keeps every count. */
  lemma {:induction false} PermutedCounts(c: seq<int>, p: seq<int>, v: int)
    requires IsPerm(p, |c|)
    ensures CountEq(Permuted(c, p), v) == CountEq(c, v)
    decreases |c|
  {
    if c != [] {
      var n, last, c' := |c|, c[|c| - 1], c[..|c| - 1];
      var k := PermOnto(p, n, n - 1);
      WithoutTop(p, n, k);
      PermutedWithout(c, p, k);
      PermutedCounts(c', Without(p, k), v);
      var d := Permuted(c, p);
      CountConcat(d[..k] + [last], d[k + 1..], v);
      CountConcat(d[..k], [last], v);
      CountConcat(d[..k], d[k + 1..], v);
      CountConcat(c', [last], v);
      assert c == c' + [last];
    }
  }

  /** In a sorted list all occurrences of smaller keys come first. */
  lemma {:induction false} SortedCounts(d: seq<int>, i: nat, v: int)
    requires forall x, y :: 0 <= x < y < |d| ==> d[x] <= d[y]
    requires i <= |d| && (i < |d| ==> v < d[i])
    ensures CountEq(d[..i], v) == CountEq(d, v)
    decreases |d|
  {
    if i == |d| {
      assert d[..i] == d;
    } else {
      assert d[..|d| - 1][..i] == d[..i];
      SortedCounts(d[..|d| - 1], i, v);
    }
  }
}
