/** The invariant of the merging loop of BZ2_hbMakeCodeLengths (dep/bzip2/huffman.c:62-144): the
    forest together with the arrays that hold it, and what one merge does to them. */
module HuffmanMerge {
  import opened Powers
  import opened PrefixCodes
  import opened HuffmanForest
  import opened HuffmanHeap

  // ---------- The forest and the arrays that hold it ----------

  /** Leaf i hangs from node root[i] at depth dep[i]; node r has height hts[r], and its taller
      child weighed child[r]; `merged` is the sum of all merged weights. */
  datatype Shape = Shape(root: seq<int>, dep: seq<nat>, hts: seq<nat>, child: seq<nat>, merged: nat)

  ghost predicate Sized(w: seq<nat>, g: Shape, wt: seq<int>) {
    && |g.root| == |g.dep| == |w|
    && |g.hts| == |g.child| == |wt|
  }

  /** A root: its packed weight, its depth bound, and its leaves' Kraft sum of one. */
  ghost predicate GoodRoot(w: seq<nat>, g: Shape, wt: seq<int>, r: int) {
    && Sized(w, g, wt) && Bounded(g.dep, TOP)
    && 1 <= r < |wt|
    && wt[r] == 256 * Mass(w, g.root, r) + g.hts[r]
    && Fib(g.hts[r]) <= Mass(w, g.root, r)
    && (1 <= g.hts[r] ==> Fib(g.hts[r] - 1) <= g.child[r])
    && KraftMass(g.dep, g.root, r) == Pow2(TOP)
  }

  /** Any other root weighs at least as much as the children of r did. */
  ghost predicate Later(w: seq<nat>, g: Shape, r: int, u: int) {
    && |g.root| == |w| && 0 <= r < |g.hts| == |g.child|
    && (1 <= g.hts[r] && u != r ==> g.child[r] <= Mass(w, g.root, u))
  }

  ghost function Weights(w: seq<nat>, root: seq<int>, roots: seq<int>): (s: seq<nat>)
    requires |root| == |w|
    ensures |s| == |roots| && forall k :: 0 <= k < |roots| ==> s[k] == Mass(w, root, roots[k])
  {
    seq(|roots|, k requires 0 <= k < |roots| => Mass(w, root, roots[k]))
  }

  ghost predicate Forest(w: seq<nat>, g: Shape, wt: seq<int>, roots: seq<int>, nodes: int) {
    && Sized(w, g, wt) && Bounded(g.dep, TOP) && Total(w) < 0x80_0000 && nodes < |wt|
    && (forall i :: 0 <= i < |w| ==> g.root[i] in roots)
    && (forall i :: 0 <= i < |w| ==> 0 <= g.root[i] < |wt| && g.dep[i] <= g.hts[g.root[i]])
    && (forall j, k :: 0 <= j < k < |roots| ==> roots[j] != roots[k])
    && (forall k :: 0 <= k < |roots| ==> roots[k] <= nodes && GoodRoot(w, g, wt, roots[k]))
    && (forall j, k :: 0 <= j < |roots| && 0 <= k < |roots| ==> Later(w, g, roots[j], roots[k]))
    && Cost(w, g.dep) == g.merged
    && Reduces(w, Weights(w, g.root, roots), g.merged)
  }

  /** The height of a root fits its byte with much to spare. */
  lemma HeightBound(w: seq<nat>, g: Shape, wt: seq<int>, r: int)
    requires Sized(w, g, wt) && Bounded(g.dep, TOP) && Total(w) < 0x80_0000 && GoodRoot(w, g, wt, r)
    ensures g.hts[r] <= 32 && 1 <= Mass(w, g.root, r) < 0x80_0000
    ensures Total(w) <= 516 ==> g.hts[r] <= 12
    ensures wt[r] / 256 == Mass(w, g.root, r) && wt[r] % 256 == g.hts[r]
  {
    hide Fib, Mass, Total;
    MassAtMostTotal(w, g.root, r);
    FibPositive(g.hts[r]);
    DepthFromWeight(g.hts[r], Mass(w, g.root, r));
  }

  lemma RootRange(w: seq<nat>, g: Shape, wt: seq<int>, r: int)
    requires Sized(w, g, wt) && Bounded(g.dep, TOP) && GoodRoot(w, g, wt, r)
    ensures 1 <= r < |wt|
  {
  }

  lemma FibPositive(h: nat)
    ensures 1 <= Fib(h)
  {
  }

  // ---------- Reordering the roots ----------

  lemma SameElements(a: seq<int>, b: seq<int>, x: int)
    requires multiset(a) == multiset(b) && x in a
    ensures x in b
  {
    assert x in multiset(b);
  }

  lemma {:induction false} WeightsReordered(w: seq<nat>, root: seq<int>, a: seq<int>, b: seq<int>)
    requires |root| == |w| && multiset(a) == multiset(b)
    ensures multiset(Weights(w, root, a)) == multiset(Weights(w, root, b))
    decreases |a|
  {
    hide Mass, Weights;
    assert |multiset(a)| == |a| && |multiset(b)| == |b|;
    if b == [] {
      assert a == b;
    } else {
      var n := |b| - 1;
      SameElements(b, a, b[n]);
      var k :| 0 <= k < |a| && a[k] == b[n];
      Without(a, k);
      Without(b, n);
      assert b[..n] + b[n + 1..] == b[..n];
      WeightsReordered(w, root, a[..k] + a[k + 1..], b[..n]);
      WeightsWithout(w, root, a, k);
      WeightsWithout(w, root, b, n);
    }
  }

  lemma Without(a: seq<int>, k: nat)
    requires k < |a|
    ensures multiset(a[..k] + a[k + 1..]) == multiset(a) - multiset{a[k]}
  {
    assert a == a[..k] + [a[k]] + a[k + 1..];
  }

  lemma WeightsWithout(w: seq<nat>, root: seq<int>, a: seq<int>, k: nat)
    requires |root| == |w| && k < |a|
    ensures multiset(Weights(w, root, a))
         == multiset(Weights(w, root, a[..k] + a[k + 1..])) + multiset{Mass(w, root, a[k])}
  {
    hide Mass;
    var s := Weights(w, root, a);
    assert Weights(w, root, a[..k] + a[k + 1..]) == s[..k] + s[k + 1..];
    MultisetWithout(s, k);
  }

  lemma DistinctReordered(a: seq<int>, b: seq<int>)
    requires multiset(a) == multiset(b)
    requires forall j, k :: 0 <= j < k < |a| ==> a[j] != a[k]
    ensures forall j, k :: 0 <= j < k < |b| ==> b[j] != b[k]
  {
    forall j, k | 0 <= j < k < |b| ensures b[j] != b[k] {
      if b[j] == b[k] {
        TwoOf(b, j, k);
        AtMostOne(a, b[j]);
      }
    }
  }

  lemma TwoOf(b: seq<int>, j: int, k: int)
    requires 0 <= j < k < |b| && b[j] == b[k]
    ensures multiset(b)[b[j]] >= 2
  {
    assert b == b[..k] + [b[k]] + b[k + 1..];
    assert b[j] in b[..k];
    assert multiset(b) == multiset(b[..k]) + multiset{b[k]} + multiset(b[k + 1..]);
  }

  lemma {:induction false} AtMostOne(a: seq<int>, x: int)
    requires forall j, k :: 0 <= j < k < |a| ==> a[j] != a[k]
    ensures multiset(a)[x] <= 1
  {
    if a != [] {
      var n := |a| - 1;
      AtMostOne(a[..n], x);
      assert a == a[..n] + [a[n]];
      assert a[n] !in a[..n];
    }
  }

  lemma ForestReordered(w: seq<nat>, g: Shape, wt: seq<int>, roots: seq<int>, roots': seq<int>, nodes: int)
    requires Forest(w, g, wt, roots, nodes) && multiset(roots) == multiset(roots')
    ensures Forest(w, g, wt, roots', nodes)
  {
    hide GoodRoot, Later, Mass, Reduces, Cost, Total;
    DistinctReordered(roots, roots');
    WeightsReordered(w, g.root, roots, roots');
    ReducesReordered(w, Weights(w, g.root, roots), Weights(w, g.root, roots'), g.merged);
    forall i | 0 <= i < |w| ensures g.root[i] in roots' {
      SameElements(roots, roots', g.root[i]);
    }
    forall k | 0 <= k < |roots'|
      ensures roots'[k] <= nodes && GoodRoot(w, g, wt, roots'[k]) && 1 <= roots'[k] < |wt|
    {
      SameElements(roots', roots, roots'[k]);
      RootRange(w, g, wt, roots'[k]);
    }
    forall j, k | 0 <= j < |roots'| && 0 <= k < |roots'| ensures Later(w, g, roots'[j], roots'[k]) {
      SameElements(roots', roots, roots'[j]);
      SameElements(roots', roots, roots'[k]);
    }
  }

  // ---------- One merge ----------

  /** ADDWEIGHTS: weights add, depths take the larger plus one.  The inclusive or of the source
      joins disjoint bit fields. */
  function AddWeights(zw1: int, zw2: int): int {
    (zw1 / 256 + zw2 / 256) * 256 + (1 + if zw1 % 256 > zw2 % 256 then zw1 % 256 else zw2 % 256)
  }

  /** The shape after roots s and t become the children of `node`. */
  ghost function Merged(w: seq<nat>, g: Shape, s: int, t: int, node: int): Shape
    requires |g.root| == |g.dep| == |w| && 0 <= node < |g.hts| == |g.child| && 0 <= s < |g.hts| && 0 <= t < |g.hts|
  {
    var h := if g.hts[s] > g.hts[t] then g.hts[s] else g.hts[t];
    var c := if g.hts[s] > g.hts[t] then Mass(w, g.root, s) else Mass(w, g.root, t);
    Shape(Rehung(g.root, s, t, node), Deepened(g.dep, g.root, s, t), g.hts[node := h + 1], g.child[node := c],
          g.merged + Mass(w, g.root, s) + Mass(w, g.root, t))
  }

  /** The two lightest roots, t the lightest, and a fresh node. */
  ghost predicate MayMerge(w: seq<nat>, g: Shape, wt: seq<int>, rest: seq<int>, s: int, t: int, node: int) {
    && Forest(w, g, wt, rest + [s, t], node - 1) && 1 <= node < |wt|
    && 1 <= s < |wt| && 1 <= t < |wt|
    && wt[t] <= wt[s] && NoneLighter(wt, wt[s], rest)
  }

  lemma MergeBasics(w: seq<nat>, g: Shape, wt: seq<int>, rest: seq<int>, s: int, t: int, node: int)
    requires MayMerge(w, g, wt, rest, s, t, node)
    ensures Sized(w, g, wt) && Bounded(g.dep, TOP) && Total(w) < 0x80_0000
    ensures GoodRoot(w, g, wt, s) && GoodRoot(w, g, wt, t) && s != t && s < node && t < node
    ensures Later(w, g, s, t) && Later(w, g, t, s)
    ensures forall k :: 0 <= k < |rest| ==> 0 <= rest[k] < |wt|
    ensures forall k :: 0 <= k < |rest| ==> GoodRoot(w, g, wt, rest[k]) && rest[k] < node && rest[k] != s && rest[k] != t
    ensures forall k :: 0 <= k < |rest| ==> Later(w, g, rest[k], s) && Later(w, g, rest[k], t)
    ensures forall j, k :: 0 <= j < |rest| && 0 <= k < |rest| ==> Later(w, g, rest[j], rest[k])
    ensures forall i :: 0 <= i < |w| ==> g.root[i] < node
  {
    hide GoodRoot, Later, Mass, Reduces, Cost, Total;
    var roots := rest + [s, t];
    assert forall k :: 0 <= k < |rest| ==> roots[k] == rest[k];
    assert roots[|rest|] == s && roots[|rest| + 1] == t;
    forall k | 0 <= k < |rest|
      ensures GoodRoot(w, g, wt, rest[k]) && rest[k] < node && rest[k] != s && rest[k] != t
      ensures Later(w, g, rest[k], s) && Later(w, g, rest[k], t)
    {
      assert GoodRoot(w, g, wt, roots[k]);
    }
    forall i | 0 <= i < |w| ensures g.root[i] < node {
      var k :| 0 <= k < |roots| && roots[k] == g.root[i];
    }
  }

  /** Weights of the three kinds of root after the merge. */
  lemma MergeMass(w: seq<nat>, g: Shape, s: int, t: int, node: int, r: int)
    requires |g.root| == |w| && s != t && forall i :: 0 <= i < |w| ==> g.root[i] < node
    ensures Mass(w, Rehung(g.root, s, t, node), node) == Mass(w, g.root, s) + Mass(w, g.root, t)
    ensures r != s && r != t && r != node ==> Mass(w, Rehung(g.root, s, t, node), r) == Mass(w, g.root, r)
  {
    MassRehung(w, g.root, s, t, node, r);
  }

  /** The new root meets the depth bound: the heart of the Fibonacci argument. */
  lemma NewRootBound(w: seq<nat>, g: Shape, wt: seq<int>, s: int, t: int)
    requires Sized(w, g, wt) && Bounded(g.dep, TOP)
    requires GoodRoot(w, g, wt, s) && GoodRoot(w, g, wt, t) && s != t
    requires Later(w, g, s, t) && Later(w, g, t, s)
    ensures var h := if g.hts[s] > g.hts[t] then g.hts[s] else g.hts[t];
      Fib(h + 1) <= Mass(w, g.root, s) + Mass(w, g.root, t)
      && Fib(h) <= (if g.hts[s] > g.hts[t] then Mass(w, g.root, s) else Mass(w, g.root, t))
  {
    hide Mass, KraftMass;
    FibPositive(g.hts[s]);
    FibPositive(g.hts[t]);
    FibUnfold(if g.hts[s] > g.hts[t] then g.hts[s] else g.hts[t]);
  }

  lemma FibUnfold(h: nat)
    ensures Fib(h + 1) == if h == 0 then 2 else Fib(h) + Fib(h - 1)
  {
  }

  lemma MergeRoots(w: seq<nat>, g: Shape, wt: seq<int>, rest: seq<int>, s: int, t: int, node: int)
    requires MayMerge(w, g, wt, rest, s, t, node)
    ensures Sized(w, g, wt) && Bounded(g.dep, TOP)
    ensures var g', wt' := Merged(w, g, s, t, node), wt[node := AddWeights(wt[s], wt[t])];
      && Sized(w, g', wt') && Bounded(g'.dep, TOP)
      && GoodRoot(w, g', wt', node)
      && g'.hts[node] <= 32 && 0 < wt'[node] < 0x8000_0000
      && (forall k :: 0 <= k < |rest| ==> GoodRoot(w, g', wt', rest[k]))
  {
    hide Mass, KraftMass, Later, Fib, Pow2, Reduces, Cost, Total;
    MergeBasics(w, g, wt, rest, s, t, node);
    HeightBound(w, g, wt, s);
    HeightBound(w, g, wt, t);
    DeepenedBounded(w, g, wt, rest, s, t, node);
    var g', wt' := Merged(w, g, s, t, node), wt[node := AddWeights(wt[s], wt[t])];
    MergeMass(w, g, s, t, node, node);
    KraftMassDeepened(g.dep, g.root, s, t, node, node);
    NewRootBound(w, g, wt, s, t);
    assert GoodRoot(w, g', wt', node);
    MassAtMostTotal(w, g'.root, node);
    DepthFromWeight(g'.hts[node], Mass(w, g'.root, node));
    forall k | 0 <= k < |rest| ensures GoodRoot(w, g', wt', rest[k]) {
      MergeMass(w, g, s, t, node, rest[k]);
      KraftMassDeepened(g.dep, g.root, s, t, node, rest[k]);
    }
  }

  lemma DeepenedBounded(w: seq<nat>, g: Shape, wt: seq<int>, rest: seq<int>, s: int, t: int, node: int)
    requires MayMerge(w, g, wt, rest, s, t, node)
    ensures |g.dep| == |g.root| && Bounded(Deepened(g.dep, g.root, s, t), TOP)
    ensures forall i :: 0 <= i < |w| ==>
      Deepened(g.dep, g.root, s, t)[i] <= g.hts[g.root[i]] + (if g.root[i] == s || g.root[i] == t then 1 else 0)
  {
    hide Mass, KraftMass, Later, Reduces, Cost, Total;
    MergeBasics(w, g, wt, rest, s, t, node);
    HeightBound(w, g, wt, s);
    HeightBound(w, g, wt, t);
  }

  lemma MergeLater(w: seq<nat>, g: Shape, wt: seq<int>, rest: seq<int>, s: int, t: int, node: int)
    requires MayMerge(w, g, wt, rest, s, t, node)
    ensures Sized(w, g, wt)
    ensures var g' := Merged(w, g, s, t, node);
      && |g'.root| == |w| && |g'.hts| == |g'.child| == |wt|
      && (forall k :: 0 <= k < |rest| ==> 0 <= rest[k] < |wt|)
      && (forall k :: 0 <= k < |rest| ==> Later(w, g', node, rest[k]) && Later(w, g', rest[k], node))
      && (forall j, k :: 0 <= j < |rest| && 0 <= k < |rest| ==> Later(w, g', rest[j], rest[k]))
  {
    hide Mass, KraftMass, Reduces, Cost, Total, Fib;
    MergeBasics(w, g, wt, rest, s, t, node);
    HeightBound(w, g, wt, s);
    HeightBound(w, g, wt, t);
    var g' := Merged(w, g, s, t, node);
    MergeMass(w, g, s, t, node, node);
    forall k | 0 <= k < |rest|
      ensures Later(w, g', node, rest[k]) && Later(w, g', rest[k], node)
      ensures Mass(w, g'.root, rest[k]) == Mass(w, g.root, rest[k])
    {
      MergeMass(w, g, s, t, node, rest[k]);
      HeightBound(w, g, wt, rest[k]);
    }
  }

  lemma MergeCost(w: seq<nat>, g: Shape, wt: seq<int>, rest: seq<int>, s: int, t: int, node: int)
    requires MayMerge(w, g, wt, rest, s, t, node)
    ensures Sized(w, g, wt)
    ensures var g' := Merged(w, g, s, t, node);
      Cost(w, g'.dep) == g'.merged && Reduces(w, Weights(w, g'.root, rest + [node]), g'.merged)
  {
    hide Mass, KraftMass, Later, Reduces, Cost, Total, Fib;
    MergeBasics(w, g, wt, rest, s, t, node);
    HeightBound(w, g, wt, s);
    HeightBound(w, g, wt, t);
    var g' := Merged(w, g, s, t, node);
    CostDeepened(w, g.dep, g.root, s, t);
    var x, y := Mass(w, g.root, s), Mass(w, g.root, t);
    var old_ := Weights(w, g.root, rest);
    assert Weights(w, g.root, rest + [s, t]) == old_ + [x, y];
    MergeMass(w, g, s, t, node, node);
    forall k | 0 <= k < |rest| ensures x <= old_[k] && Mass(w, g'.root, rest[k]) == old_[k] {
      MergeMass(w, g, s, t, node, rest[k]);
      HeightBound(w, g, wt, rest[k]);
    }
    assert Weights(w, g'.root, rest + [node]) == old_ + [x + y];
    ReducesMerge(w, old_, x, y, g.merged);
  }

  lemma ForestMerged(w: seq<nat>, g: Shape, wt: seq<int>, rest: seq<int>, s: int, t: int, node: int)
    requires MayMerge(w, g, wt, rest, s, t, node)
    ensures Sized(w, g, wt)
    ensures Forest(w, Merged(w, g, s, t, node), wt[node := AddWeights(wt[s], wt[t])], rest + [node], node)
    ensures 0 < AddWeights(wt[s], wt[t]) < 0x8000_0000
  {
    hide GoodRoot, Mass, KraftMass, Later, Reduces, Cost, Total, Fib;
    MergeBasics(w, g, wt, rest, s, t, node);
    MergeRoots(w, g, wt, rest, s, t, node);
    MergeLater(w, g, wt, rest, s, t, node);
    MergeCost(w, g, wt, rest, s, t, node);
    DeepenedBounded(w, g, wt, rest, s, t, node);
    var g', wt' := Merged(w, g, s, t, node), wt[node := AddWeights(wt[s], wt[t])];
    var roots, roots' := rest + [s, t], rest + [node];
    assert roots'[|rest|] == node;
    forall k | 0 <= k < |roots'| ensures roots'[k] <= node && GoodRoot(w, g', wt', roots'[k]) {
      assert k < |rest| ==> roots'[k] == rest[k];
    }
    forall j, k | 0 <= j < k < |roots'| ensures roots'[j] != roots'[k] {
      assert roots'[j] == roots[j] == rest[j];
      assert k < |rest| ==> roots'[k] == roots[k];
    }
    assert wt'[node] == AddWeights(wt[s], wt[t]);
    forall i | 0 <= i < |w|
      ensures g'.root[i] in roots' && 0 <= g'.root[i] < |wt'| && g'.dep[i] <= g'.hts[g'.root[i]]
    {
      assert g.root[i] in roots;
      var k :| 0 <= k < |roots| && roots[k] == g.root[i];
      if k < |rest| {
        assert roots'[k] == g.root[i];
      }
    }
    forall j, k | 0 <= j < |roots'| && 0 <= k < |roots'| ensures Later(w, g', roots'[j], roots'[k]) {
      if j == |rest| && k == |rest| {
        LaterSelf(w, g', node);
      }
    }
  }

  lemma LaterSelf(w: seq<nat>, g: Shape, r: int)
    requires |g.root| == |w| && 0 <= r < |g.hts| == |g.child|
    ensures Later(w, g, r, r)
  {
  }

  // ---------- Following the parents ----------

  /** From node k, d parent links lead to node r, which has no parent. */
  ghost predicate Chain(parent: seq<int>, k: int, r: int, d: nat)
    decreases d
  {
    && 0 <= k < |parent|
    && if d == 0 then k == r && parent[k] < 0
       else k < parent[k] && Chain(parent, parent[k], r, d - 1)
  }

  lemma {:induction false} ChainRoot(parent: seq<int>, k: int, r: int, d: nat)
    requires Chain(parent, k, r, d)
    ensures 0 <= r < |parent| && parent[r] < 0 && k <= r
    decreases d
  {
    if d > 0 {
      ChainRoot(parent, parent[k], r, d - 1);
    }
  }

  /** Giving roots s and t the parent `node` lengthens the chains that end in them. */
  lemma {:induction false} ChainMerged(parent: seq<int>, k: int, r: int, d: nat, s: int, t: int, node: int)
    requires Chain(parent, k, r, d) && 0 <= s < node && 0 <= t < node < |parent|
    requires parent[s] < 0 && parent[t] < 0 && r < node
    ensures var parent' := parent[s := node][t := node][node := -1];
      if r == s || r == t then Chain(parent', k, node, d + 1) else Chain(parent', k, r, d)
    decreases d
  {
    var parent' := parent[s := node][t := node][node := -1];
    ChainRoot(parent, k, r, d);
    if d > 0 {
      ChainMerged(parent, parent[k], r, d - 1, s, t, node);
    } else if r == s || r == t {
      assert Chain(parent', node, node, 0);
    }
  }

  ghost predicate Chains(parent: seq<int>, g: Shape) {
    && |g.root| == |g.dep|
    && forall i :: 0 <= i < |g.root| ==> Chain(parent, i + 1, g.root[i], g.dep[i])
  }

  /** parent[n1] = parent[n2] = node; parent[node] = -1. */
  ghost function Linked(parent: seq<int>, s: int, t: int, node: int): (p: seq<int>)
    requires 0 <= s < |parent| && 0 <= t < |parent| && 0 <= node < |parent|
  {
    parent[s := node][t := node][node := -1]
  }

  lemma ChainsMerged(w: seq<nat>, g: Shape, wt: seq<int>, rest: seq<int>, s: int, t: int, node: int, parent: seq<int>)
    requires MayMerge(w, g, wt, rest, s, t, node) && Chains(parent, g)
    requires 0 <= s < node && 0 <= t < node < |parent| && parent[s] < 0 && parent[t] < 0
    ensures Sized(w, g, wt)
    ensures Chains(Linked(parent, s, t, node), Merged(w, g, s, t, node))
  {
    hide GoodRoot, Later, Mass, Reduces, Cost, Total, Chain;
    MergeBasics(w, g, wt, rest, s, t, node);
    var g' := Merged(w, g, s, t, node);
    forall i | 0 <= i < |g.root| ensures Chain(Linked(parent, s, t, node), i + 1, g'.root[i], g'.dep[i]) {
      ChainMerged(parent, i + 1, g.root[i], g.dep[i], s, t, node);
    }
  }

  // ---------- The first forest ----------

  ghost function LeafIds(n: nat): (s: seq<int>)
    ensures |s| == n && forall k :: 0 <= k < n ==> s[k] == k + 1
  {
    seq(n, k => k + 1)
  }

  ghost function LeafShape(n: nat, size: nat): Shape {
    Shape(LeafIds(n), seq(n, i => 0), seq(size, i => 0), seq(size, i => 0), 0)
  }

  lemma {:induction false} LeafMass(x: seq<nat>, k: nat, i: nat)
    requires i < |x| && k == i + 1
    ensures Mass(x, LeafIds(|x|), k) == x[i]
  {
    var n := |x| - 1;
    assert LeafIds(|x|)[..n] == LeafIds(n);
    if i < n {
      LeafMass(x[..n], k, i);
    } else {
      NoMass(x[..n], LeafIds(n), k);
    }
  }

  lemma {:induction false} NoMass(x: seq<nat>, root: seq<int>, r: int)
    requires |x| == |root| && forall i :: 0 <= i < |root| ==> root[i] != r
    ensures Mass(x, root, r) == 0
  {
    if x != [] {
      NoMass(x[..|x| - 1], root[..|x| - 1], r);
    }
  }

  lemma {:induction false} LeafKraft(n: nat, i: nat)
    requires i < n
    ensures KraftMass(seq(n, i => 0), LeafIds(n), i + 1) == Pow2(TOP)
  {
    hide Pow2;
    var zeros: seq<nat> := seq(n, i => 0);
    assert LeafIds(n)[..n - 1] == LeafIds(n - 1);
    assert zeros[..n - 1] == seq(n - 1, i => 0);
    if i < n - 1 {
      LeafKraft(n - 1, i);
    } else {
      KraftMassNone(seq(n - 1, i => 0), LeafIds(n - 1), i + 1);
    }
  }

  lemma {:induction false} ZeroCost(w: seq<nat>, len: seq<nat>)
    requires |w| == |len| && forall i :: 0 <= i < |len| ==> len[i] == 0
    ensures Cost(w, len) == 0
  {
    if w != [] {
      ZeroCost(w[..|w| - 1], len[..|len| - 1]);
    }
  }

  lemma LeafForest(w: seq<nat>, wt: seq<int>)
    requires |w| < |wt| && Total(w) < 0x80_0000
    requires forall i :: 0 <= i < |w| ==> 1 <= w[i] && wt[i + 1] == 256 * w[i]
    ensures Forest(w, LeafShape(|w|, |wt|), wt, LeafIds(|w|), |w|)
  {
    hide Mass, Total, KraftMass, Pow2, Cost, Reduces;
    var g, roots := LeafShape(|w|, |wt|), LeafIds(|w|);
    forall k | 0 <= k < |roots| ensures GoodRoot(w, g, wt, roots[k]) {
      LeafMass(w, k + 1, k);
      LeafKraft(|w|, k);
      assert wt[k + 1] == 256 * w[k];
    }
    ZeroCost(w, g.dep);
    forall k | 0 <= k < |w| ensures Weights(w, g.root, roots)[k] == w[k] {
      LeafMass(w, k + 1, k);
    }
    assert Weights(w, g.root, roots) == w;
    ReducesStart(w);
    forall i | 0 <= i < |w| ensures g.root[i] in roots {
      assert roots[i] == g.root[i];
    }
  }

  // ---------- The last forest ----------

  /** No prefix code for these weights is cheaper. */
  ghost predicate Optimal(w: seq<nat>, len: seq<nat>) {
    |len| == |w| && forall other: seq<nat>, top: nat :: |other| == |w| && IsCode(other, top) ==>
      Cost(w, len) <= Cost(w, other)
  }

  lemma LastForest(w: seq<nat>, g: Shape, wt: seq<int>, r: int, nodes: int)
    requires Forest(w, g, wt, [r], nodes)
    ensures Kraft(g.dep, TOP) == Pow2(TOP)
    ensures Optimal(w, g.dep)
    ensures forall i :: 0 <= i < |w| ==> g.root[i] == r && g.dep[i] <= 32
    ensures Total(w) <= 516 ==> forall i :: 0 <= i < |w| ==> g.dep[i] <= 12
    ensures forall i :: 0 <= i < |w| ==> Fib(g.dep[i]) <= Total(w)
  {
    hide Mass, Total, Pow2, Cost, Fib;
    assert GoodRoot(w, g, wt, [r][0]);
    HeightBound(w, g, wt, r);
    MassAtMostTotal(w, g.root, r);
    forall i | 0 <= i < |w| ensures Fib(g.dep[i]) <= Total(w) {
      assert g.root[i] in [r];
      FibMonotone(g.dep[i], g.hts[r]);
    }
    assert forall i :: 0 <= i < |w| ==> g.root[i] in [r] && g.root[i] == r;
    KraftMassOfAll(g.dep, g.root, r);
    forall other: seq<nat>, top: nat | |other| == |w| && IsCode(other, top)
      ensures Cost(w, g.dep) <= Cost(w, other)
    {
      var len': seq<nat> :| |len'| == |Weights(w, g.root, [r])| && IsCode(len', top)
        && Cost(Weights(w, g.root, [r]), len') + g.merged <= Cost(w, other);
    }
  }
}
