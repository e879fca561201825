/** The forest that Huffman's algorithm keeps, described leaf by leaf: which root each leaf
    hangs from and how deep.  What one merge does to the Kraft sums, the cost, the depth bound,
    and the comparison with every other prefix code. */
module HuffmanForest {
  import opened Powers
  import opened PrefixCodes

  /** All depths stay below this; used as the unit of the Kraft sums. */
  const TOP: nat := 64

  // ---------- Sums over the leaves of one root ----------

  ghost function Mass(x: seq<nat>, root: seq<int>, r: int): (m: nat)
    requires |x| == |root|
  {
    if x == [] then 0
    else Mass(x[..|x| - 1], root[..|x| - 1], r) + if root[|x| - 1] == r then x[|x| - 1] else 0
  }

  ghost function Total(x: seq<nat>): (t: nat) {
    if x == [] then 0 else Total(x[..|x| - 1]) + x[|x| - 1]
  }

  lemma {:induction false} MassAtMostTotal(x: seq<nat>, root: seq<int>, r: int)
    requires |x| == |root|
    ensures Mass(x, root, r) <= Total(x)
  {
    if x != [] {
      MassAtMostTotal(x[..|x| - 1], root[..|x| - 1], r);
    }
  }

  /** Relabelling: the leaves of roots s and t now hang from `new_`. */
  ghost function Rehung(root: seq<int>, s: int, t: int, new_: int): (root': seq<int>)
    ensures |root'| == |root|
    ensures forall i :: 0 <= i < |root| ==> root'[i] == if root[i] == s || root[i] == t then new_ else root[i]
  {
    seq(|root|, i requires 0 <= i < |root| => if root[i] == s || root[i] == t then new_ else root[i])
  }

  ghost function Deepened(dep: seq<nat>, root: seq<int>, s: int, t: int): (dep': seq<nat>)
    requires |dep| == |root|
    ensures |dep'| == |dep|
    ensures forall i :: 0 <= i < |dep| ==> dep'[i] == if root[i] == s || root[i] == t then dep[i] + 1 else dep[i]
  {
    seq(|dep|, i requires 0 <= i < |dep| => if root[i] == s || root[i] == t then dep[i] + 1 else dep[i])
  }

  lemma {:induction false} MassRehung(x: seq<nat>, root: seq<int>, s: int, t: int, new_: int, r: int)
    requires |x| == |root| && s != t && (forall i :: 0 <= i < |root| ==> root[i] != new_)
    ensures r != s && r != t && r != new_ ==> Mass(x, Rehung(root, s, t, new_), r) == Mass(x, root, r)
    ensures Mass(x, Rehung(root, s, t, new_), new_) == Mass(x, root, s) + Mass(x, root, t)
  {
    if x != [] {
      var n := |x| - 1;
      MassRehung(x[..n], root[..n], s, t, new_, r);
      assert Rehung(root, s, t, new_)[..n] == Rehung(root[..n], s, t, new_);
    }
  }

  /** The Kraft sum over the leaves of one root. */
  ghost function KraftMass(dep: seq<nat>, root: seq<int>, r: int): (k: nat)
    requires |dep| == |root| && Bounded(dep, TOP)
  {
    if dep == [] then 0
    else
      var last := |dep| - 1;
      KraftMass(dep[..last], root[..last], r) + if root[last] == r then Pow2(TOP - dep[last]) else 0
  }

  lemma {:induction false} KraftMassDeepened(dep: seq<nat>, root: seq<int>, s: int, t: int, new_: int, r: int)
    requires |dep| == |root| && Bounded(dep, TOP) && Bounded(Deepened(dep, root, s, t), TOP)
    requires s != t && (forall i :: 0 <= i < |root| ==> root[i] != new_)
    ensures 2 * KraftMass(Deepened(dep, root, s, t), Rehung(root, s, t, new_), new_)
         == KraftMass(dep, root, s) + KraftMass(dep, root, t)
    ensures r != s && r != t && r != new_ ==>
      KraftMass(Deepened(dep, root, s, t), Rehung(root, s, t, new_), r) == KraftMass(dep, root, r)
  {
    hide Pow2;
    if dep != [] {
      var n := |dep| - 1;
      var dep', root' := Deepened(dep, root, s, t), Rehung(root, s, t, new_);
      assert dep'[..n] == Deepened(dep[..n], root[..n], s, t);
      assert root'[..n] == Rehung(root[..n], s, t, new_);
      KraftMassDeepened(dep[..n], root[..n], s, t, new_, r);
      if root[n] == s || root[n] == t {
        HalfTerm(dep[n]);
      }
    }
  }

  lemma HalfTerm(d: nat)
    requires d + 1 <= TOP
    ensures 2 * Pow2(TOP - (d + 1)) == Pow2(TOP - d)
  {
  }

  lemma {:induction false} KraftMassOfAll(dep: seq<nat>, root: seq<int>, r: int)
    requires |dep| == |root| && Bounded(dep, TOP) && forall i :: 0 <= i < |dep| ==> root[i] == r
    ensures KraftMass(dep, root, r) == Kraft(dep, TOP)
  {
    if dep != [] {
      KraftMassOfAll(dep[..|dep| - 1], root[..|dep| - 1], r);
    }
  }

  lemma {:induction false} KraftMassNone(dep: seq<nat>, root: seq<int>, r: int)
    requires |dep| == |root| && Bounded(dep, TOP) && forall i :: 0 <= i < |dep| ==> root[i] != r
    ensures KraftMass(dep, root, r) == 0
  {
    if dep != [] {
      KraftMassNone(dep[..|dep| - 1], root[..|dep| - 1], r);
    }
  }

  /** Every leaf under s or t costs its weight once more. */
  lemma {:induction false} CostDeepened(w: seq<nat>, dep: seq<nat>, root: seq<int>, s: int, t: int)
    requires |w| == |dep| == |root| && s != t
    ensures Cost(w, Deepened(dep, root, s, t)) == Cost(w, dep) + Mass(w, root, s) + Mass(w, root, t)
  {
    if w != [] {
      var n := |w| - 1;
      CostDeepened(w[..n], dep[..n], root[..n], s, t);
      assert Deepened(dep, root, s, t)[..n] == Deepened(dep[..n], root[..n], s, t);
      assert w[n] * (dep[n] + 1) == w[n] * dep[n] + w[n];
    }
  }

  // ---------- Depth against weight ----------

  /** The least weight of a tree of height h: 1, 2, 3, 5, 8, ... */
  ghost function Fib(h: nat): (f: nat)
    ensures 1 <= f
  {
    if h == 0 then 1 else if h == 1 then 2 else Fib(h - 1) + Fib(h - 2)
  }

  lemma {:induction false} FibMonotone(i: nat, j: nat)
    requires i <= j
    ensures Fib(i) <= Fib(j)
  {
    if i < j {
      FibMonotone(i, j - 1);
    }
  }

  lemma FibValues()
    ensures Fib(13) == 610 && Fib(33) == 9227465
  {
    assert Fib(2) == 3 && Fib(3) == 5 && Fib(4) == 8 && Fib(5) == 13 && Fib(6) == 21 && Fib(7) == 34;
    assert Fib(8) == 55 && Fib(9) == 89 && Fib(10) == 144 && Fib(11) == 233 && Fib(12) == 377 && Fib(13) == 610;
    assert Fib(14) == 987 && Fib(15) == 1597 && Fib(16) == 2584 && Fib(17) == 4181 && Fib(18) == 6765;
    assert Fib(19) == 10946 && Fib(20) == 17711 && Fib(21) == 28657 && Fib(22) == 46368 && Fib(23) == 75025;
    assert Fib(24) == 121393 && Fib(25) == 196418 && Fib(26) == 317811 && Fib(27) == 514229;
    assert Fib(28) == 832040 && Fib(29) == 1346269 && Fib(30) == 2178309 && Fib(31) == 3524578;
  }

  /** A weight below 2^23 keeps the depth in its byte with room to spare. */
  lemma DepthFromWeight(h: nat, m: nat)
    requires Fib(h) <= m < 0x80_0000
    ensures h <= 32
    ensures m <= 516 ==> h <= 12
  {
    hide Fib;
    FibValues();
    if h >= 33 {
      FibMonotone(33, h);
    } else if h >= 13 {
      FibMonotone(13, h);
    }
  }

  // ---------- Comparison with every other code ----------

  /** Any code for the original items yields a code for the current roots that is cheaper by
      what has been merged so far. */
  ghost predicate Reduces(w: seq<nat>, now: seq<nat>, merged: nat) {
    forall len: seq<nat>, top: nat :: |len| == |w| && IsCode(len, top) ==>
      exists len': seq<nat> :: |len'| == |now| && IsCode(len', top) && Cost(now, len') + merged <= Cost(w, len)
  }

  lemma ReducesStart(w: seq<nat>)
    ensures Reduces(w, w, 0)
  {
  }

  lemma ReducesMerge(w: seq<nat>, rest: seq<nat>, x: nat, y: nat, merged: nat)
    requires Reduces(w, rest + [x, y], merged)
    requires y <= x && forall i :: 0 <= i < |rest| ==> x <= rest[i]
    ensures Reduces(w, rest + [x + y], merged + x + y)
  {
    forall len: seq<nat>, top: nat | |len| == |w| && IsCode(len, top)
      ensures exists len': seq<nat> ::
        (|len'| == |rest + [x + y]| && IsCode(len', top)
         && Cost(rest + [x + y], len') + (merged + x + y) <= Cost(w, len))
    {
      var len1: seq<nat> :| |len1| == |rest + [x, y]| && IsCode(len1, top)
        && Cost(rest + [x, y], len1) + merged <= Cost(w, len);
      var len' := MergeTwo(rest, x, y, len1, top);
    }
  }

  /** Lengths follow their items when the items are reordered. */
  lemma {:induction false} Reorder(a: seq<nat>, b: seq<nat>, len: seq<nat>, top: nat) returns (len': seq<nat>)
    requires multiset(a) == multiset(b) && |len| == |a| && Bounded(len, top)
    ensures |len'| == |b| && Bounded(len', top)
    ensures Kraft(len', top) == Kraft(len, top) && Cost(b, len') == Cost(a, len)
    decreases |a|
  {
    hide Kraft, Cost, Pow2;
    SameSize(a, b);
    if b == [] {
      len' := [];
      assert len == [];
    } else {
      var n := |b| - 1;
      var v := b[n];
      var k := SameItem(a, b, n);
      var a', l' := a[..k] + a[k + 1..], len[..k] + len[k + 1..];
      TakeOut(a, len, top, k);
      var r := Reorder(a', b[..n], l', top);
      len' := r + [len[k]];
      KraftOne(len[k], top);
      CostOne(v, len[k]);
      KraftConcat(r, [len[k]], top);
      assert b == b[..n] + [v];
      CostConcat(b[..n], r, [v], [len[k]]);
    }
  }

  lemma SameSize(a: seq<nat>, b: seq<nat>)
    requires multiset(a) == multiset(b)
    ensures |a| == |b|
  {
    assert |multiset(a)| == |a| && |multiset(b)| == |b|;
  }

  /** The last item of b, found in a; without it the others agree. */
  lemma SameItem(a: seq<nat>, b: seq<nat>, n: nat) returns (k: nat)
    requires multiset(a) == multiset(b) && |b| == n + 1
    ensures k < |a| && a[k] == b[n] && multiset(a[..k] + a[k + 1..]) == multiset(b[..n])
  {
    var v := b[n];
    assert b == b[..n] + [v];
    assert v in multiset(a);
    k :| k < |a| && a[k] == v;
    MultisetWithout(a, k);
    assert multiset(b) == multiset(b[..n]) + multiset{v};
    assert multiset(a[..k] + a[k + 1..]) == multiset(a) - multiset{v};
    assert multiset(b[..n]) == multiset(b) - multiset{v};
  }

  lemma MultisetWithout(a: seq<nat>, k: nat)
    requires k < |a|
    ensures multiset(a) == multiset(a[..k] + a[k + 1..]) + multiset{a[k]}
  {
    assert a == a[..k] + [a[k]] + a[k + 1..];
  }

  lemma TakeOut(a: seq<nat>, len: seq<nat>, top: nat, k: nat)
    requires |a| == |len| && Bounded(len, top) && k < |a|
    ensures var a', l' := a[..k] + a[k + 1..], len[..k] + len[k + 1..];
      Bounded(l', top) && Kraft(len, top) == Kraft(l', top) + Pow2(top - len[k])
      && Cost(a, len) == Cost(a', l') + a[k] * len[k]
  {
    hide Kraft, Cost, Pow2;
    assert a == a[..k] + [a[k]] + a[k + 1..] && len == len[..k] + [len[k]] + len[k + 1..];
    KraftOne(len[k], top);
    CostOne(a[k], len[k]);
    KraftConcat(len[..k], [len[k]], top);
    KraftConcat(len[..k] + [len[k]], len[k + 1..], top);
    KraftConcat(len[..k], len[k + 1..], top);
    CostConcat(a[..k], len[..k], [a[k]], [len[k]]);
    CostConcat(a[..k] + [a[k]], len[..k] + [len[k]], a[k + 1..], len[k + 1..]);
    CostConcat(a[..k], len[..k], a[k + 1..], len[k + 1..]);
  }

  lemma ReducesReordered(w: seq<nat>, a: seq<nat>, b: seq<nat>, merged: nat)
    requires Reduces(w, a, merged) && multiset(a) == multiset(b)
    ensures Reduces(w, b, merged)
  {
    forall len: seq<nat>, top: nat | |len| == |w| && IsCode(len, top)
      ensures exists len': seq<nat> :: |len'| == |b| && IsCode(len', top) && Cost(b, len') + merged <= Cost(w, len)
    {
      var len1: seq<nat> :| |len1| == |a| && IsCode(len1, top) && Cost(a, len1) + merged <= Cost(w, len);
      var len' := Reorder(a, b, len1, top);
    }
  }
}
