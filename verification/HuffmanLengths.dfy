/** BZ2_hbMakeCodeLengths (dep/bzip2/huffman.c:62-144). */
module HuffmanLengths {
  import opened Powers
  import opened PrefixCodes
  import opened HuffmanForest
  import opened HuffmanHeap
  import opened HuffmanMerge

  /** The arrays between merges. */
  ghost predicate Merging(w: seq<nat>, g: Shape, heap: seq<int>, nHeap: int, weight: seq<int>, parent: seq<int>, nNodes: int) {
    && |heap| == 260 && |weight| == |parent| == 516
    && Named(heap, weight, nHeap) && IsHeap(heap, weight, nHeap)
    && 1 <= |w| <= 258 && 1 <= nHeap && nNodes + nHeap == 2 * |w| && |w| <= nNodes
    && Forest(w, g, weight, Content(heap, nHeap), nNodes)
    && Chains(parent, g)
    && (forall j :: 1 <= j <= nHeap ==> parent[heap[j]] < 0)
  }

  lemma MergingFacts(w: seq<nat>, g: Shape, heap: seq<int>, nHeap: int, weight: seq<int>, parent: seq<int>, nNodes: int)
    requires Merging(w, g, heap, nHeap, weight, parent, nNodes)
    ensures |heap| == 260 && |weight| == |parent| == 516 && 1 <= |w| <= 258
    ensures Named(heap, weight, nHeap) && IsHeap(heap, weight, nHeap)
    ensures 1 <= nHeap && nNodes + nHeap == 2 * |w| && |w| <= nNodes
  {
  }

  /** The nodes left in the heap are roots other than n1 and n2. */
  ghost predicate Loose(rest: seq<int>, n1: int, n2: int, nNodes: int, parent: seq<int>) {
    forall k :: 0 <= k < |rest| ==>
      1 <= rest[k] <= nNodes && rest[k] != n1 && rest[k] != n2 && rest[k] < |parent| && parent[rest[k]] < 0
  }

  /** Two nodes n1 and n2 taken off the heap, lightest first, leaving `h2`. */
  lemma MergingPopped(w: seq<nat>, g: Shape, heap: seq<int>, nHeap: int, weight: seq<int>, parent: seq<int>, nNodes: int,
                      h1: seq<int>, n1: int, h2: seq<int>, n2: int)
    requires Merging(w, g, heap, nHeap, weight, parent, nNodes) && 2 <= nHeap && |h1| == |h2| == 260
    requires multiset(Content(heap, nHeap)) == multiset(Content(h1, nHeap - 1)) + multiset{n1}
    requires multiset(Content(h1, nHeap - 1)) == multiset(Content(h2, nHeap - 2)) + multiset{n2}
    requires 1 <= n1 < 516 && NoneLighter(weight, weight[n1], Content(h1, nHeap - 1))
    requires 1 <= n2 < 516 && NoneLighter(weight, weight[n2], Content(h2, nHeap - 2))
    ensures MayMerge(w, g, weight, Content(h2, nHeap - 2), n2, n1, nNodes + 1)
    ensures n1 != n2 && n1 <= nNodes && n2 <= nNodes && parent[n1] < 0 && parent[n2] < 0
    ensures Loose(Content(h2, nHeap - 2), n1, n2, nNodes, parent)
  {
    hide Reduces, Cost, Total, GoodRoot, Later, IsHeap, Chains, Loose, Mass, Fib, Forest, Merging;
    MergingFacts(w, g, heap, nHeap, weight, parent, nNodes);
    var c0, c1, c2 := Content(heap, nHeap), Content(h1, nHeap - 1), Content(h2, nHeap - 2);
    var c := c2 + [n2, n1];
    assert multiset(c) == multiset(c2) + multiset{n2} + multiset{n1};
    MergingRoots(w, g, heap, nHeap, weight, parent, nNodes, c);
    NoneLighterAt(weight, weight[n1], c1, n2);
    assert c[|c2|] == n2 && c[|c2| + 1] == n1;
    MergingLoose(c2, n1, n2, nNodes, parent);
  }

  lemma MergingRoots(w: seq<nat>, g: Shape, heap: seq<int>, nHeap: int, weight: seq<int>, parent: seq<int>, nNodes: int,
                     c: seq<int>)
    requires Merging(w, g, heap, nHeap, weight, parent, nNodes) && multiset(c) == multiset(Content(heap, nHeap))
    ensures Forest(w, g, weight, c, nNodes) && |weight| == |parent| == 516
    ensures nNodes + 1 < 516 || nHeap < 2
    ensures forall k :: 0 <= k < |c| ==> 1 <= c[k] <= nNodes && c[k] < 516 && parent[c[k]] < 0
    ensures forall j, k :: 0 <= j < k < |c| ==> c[j] != c[k]
  {
    hide Reduces, Cost, Total, GoodRoot, Later, IsHeap, Chains, Mass, Fib;
    var c0 := Content(heap, nHeap);
    ForestReordered(w, g, weight, c0, c, nNodes);
    forall k | 0 <= k < |c| ensures 1 <= c[k] <= nNodes && c[k] < 516 && parent[c[k]] < 0 {
      SameElements(c, c0, c[k]);
      var m :| 0 <= m < |c0| && c0[m] == c[k];
      assert heap[m + 1] == c[k];
    }
  }

  lemma MergingLoose(c2: seq<int>, n1: int, n2: int, nNodes: int, parent: seq<int>)
    requires var c := c2 + [n2, n1];
      && (forall k :: 0 <= k < |c| ==> 1 <= c[k] <= nNodes && c[k] < |parent| && parent[c[k]] < 0)
      && (forall j, k :: 0 <= j < k < |c| ==> c[j] != c[k])
    ensures Loose(c2, n1, n2, nNodes, parent) && n1 != n2
  {
    var c := c2 + [n2, n1];
    assert c[|c2|] == n2 && c[|c2| + 1] == n1;
    forall k | 0 <= k < |c2|
      ensures 1 <= c2[k] <= nNodes && c2[k] != n1 && c2[k] != n2 && c2[k] < |parent| && parent[c2[k]] < 0
    {
      assert c[k] == c2[k];
    }
  }

  lemma NoneLighterAt(wt: seq<int>, x: int, c: seq<int>, r: int)
    requires NoneLighter(wt, x, c) && multiset(c)[r] >= 1
    ensures 0 <= r < |wt| && x <= wt[r]
  {
    assert r in c;
  }

  /** Giving a weight to a node outside the heap leaves the heap a heap. */
  lemma HeapUnaffected(h: seq<int>, wt: seq<int>, n: int, node: int, v: int)
    requires Named(h, wt, n) && IsHeap(h, wt, n) && 1 <= node < |wt|
    requires forall j :: 1 <= j <= n ==> h[j] != node
    ensures Named(h, wt[node := v], n) && IsHeap(h, wt[node := v], n)
  {
    var wt' := wt[node := v];
    forall j | 2 <= j <= n ensures Below(h, wt', n, j) {
      assert Below(h, wt, n, j);
    }
  }

  /** The merge done in the arrays, the new node pushed. */
  lemma MergingNext(w: seq<nat>, g: Shape, weight: seq<int>, parent: seq<int>, nNodes: int,
                    h2: seq<int>, nRest: int, n1: int, n2: int, h3: seq<int>)
    requires |h2| == |h3| == 260 && |weight| == |parent| == 516 && 0 <= nRest < 258
    requires MayMerge(w, g, weight, Content(h2, nRest), n2, n1, nNodes + 1) && Chains(parent, g)
    requires 1 <= |w| <= 258 && nNodes + nRest + 2 == 2 * |w| && |w| <= nNodes
    requires 1 <= n1 <= nNodes && 1 <= n2 <= nNodes && n1 != n2 && nNodes + 1 < 516
    requires parent[n1] < 0 && parent[n2] < 0
    requires Loose(Content(h2, nRest), n1, n2, nNodes, parent)
    requires var wt' := weight[nNodes + 1 := AddWeights(weight[n2], weight[n1])];
      Named(h3, wt', nRest + 1) && IsHeap(h3, wt', nRest + 1)
    requires multiset(Content(h3, nRest + 1)) == multiset(Content(h2, nRest)) + multiset{nNodes + 1}
    ensures |g.hts| == |g.child| == 516 && |g.root| == |g.dep| == |w|
    ensures Merging(w, Merged(w, g, n2, n1, nNodes + 1), h3, nRest + 1,
                    weight[nNodes + 1 := AddWeights(weight[n2], weight[n1])], Linked(parent, n2, n1, nNodes + 1), nNodes + 1)
  {
    hide Reduces, Cost, Total, GoodRoot, Later, IsHeap, Chains, MayMerge, Forest, Chain;
    var node := nNodes + 1;
    var c2, c3 := Content(h2, nRest), Content(h3, nRest + 1);
    ForestMerged(w, g, weight, c2, n2, n1, node);
    ChainsMerged(w, g, weight, c2, n2, n1, node, parent);
    var wt', p' := weight[node := AddWeights(weight[n2], weight[n1])], Linked(parent, n2, n1, node);
    assert multiset(c2 + [node]) == multiset(c2) + multiset{node};
    ForestReordered(w, Merged(w, g, n2, n1, node), wt', c2 + [node], c3, node);
    forall j | 1 <= j <= nRest + 1 ensures p'[h3[j]] < 0 {
      assert h3[j] == c3[j - 1];
      SameElements(c3, c2 + [node], h3[j]);
      var k :| 0 <= k < |c2 + [node]| && (c2 + [node])[k] == h3[j];
      assert k < nRest ==> c2[k] == h3[j];
    }
  }

  /** One round of the merging loop. */
  method MergeOnce(heap: array<int>, weight: array<int>, parent: array<int>, nHeap: int, nNodes: int,
                   ghost w: seq<nat>, ghost g: Shape) returns (ghost g': Shape)
    requires heap != weight && heap != parent && weight != parent
    requires Merging(w, g, heap[..], nHeap, weight[..], parent[..], nNodes) && 2 <= nHeap
    modifies heap, weight, parent
    ensures Merging(w, g', heap[..], nHeap - 1, weight[..], parent[..], nNodes + 1)
    ensures weight[..|w| + 1] == old(weight[..|w| + 1])
  {
    hide *;
    ghost var h0, wt, p := heap[..], weight[..], parent[..];
    MergingFacts(w, g, h0, nHeap, wt, p, nNodes);
    MergingShape(w, g, h0, nHeap, wt, p, nNodes);
    var n1 := Pop(heap, weight, nHeap);
    ghost var h1 := heap[..];
    var n2 := Pop(heap, weight, nHeap - 1);
    ghost var h2 := heap[..];
    MergingPopped(w, g, h0, nHeap, wt, p, nNodes, h1, n1, h2, n2);
    NotInHeap(h2, wt, nHeap - 2, n1, n2, nNodes, p);
    ForestMerged(w, g, wt, Content(h2, nHeap - 2), n2, n1, nNodes + 1);
    Join(weight, parent, n1, n2, nNodes + 1);
    HeapUnaffected(h2, wt, nHeap - 2, nNodes + 1, AddWeights(wt[n2], wt[n1]));
    Push(heap, weight, nHeap - 2, nNodes + 1);
    MergingNext(w, g, wt, p, nNodes, h2, nHeap - 2, n1, n2, heap[..]);
    g' := Merged(w, g, n2, n1, nNodes + 1);
  }

  /** The two nodes get a common parent of their joint weight. */
  method Join(weight: array<int>, parent: array<int>, n1: int, n2: int, node: int)
    requires weight != parent && weight.Length == parent.Length
    requires 0 <= n1 < node && 0 <= n2 < node && node < weight.Length
    modifies weight, parent
    ensures parent[..] == Linked(old(parent[..]), n2, n1, node)
    ensures weight[..] == old(weight[..])[node := AddWeights(old(weight[n2]), old(weight[n1]))]
  {
    parent[n1] := node;
    parent[n2] := node;
    weight[node] := AddWeights(weight[n1], weight[n2]);
    parent[node] := -1;
  }

  lemma NotInHeap(h: seq<int>, wt: seq<int>, n: int, n1: int, n2: int, nNodes: int, parent: seq<int>)
    requires Named(h, wt, n) && Loose(Content(h, n), n1, n2, nNodes, parent)
    ensures forall j :: 1 <= j <= n ==> h[j] != nNodes + 1
  {
    forall j | 1 <= j <= n ensures h[j] != nNodes + 1 {
      assert h[j] == Content(h, n)[j - 1];
    }
  }

  lemma MergingShape(w: seq<nat>, g: Shape, heap: seq<int>, nHeap: int, weight: seq<int>, parent: seq<int>, nNodes: int)
    requires Merging(w, g, heap, nHeap, weight, parent, nNodes)
    ensures Chains(parent, g) && |g.hts| == |g.child| == 516 && |g.root| == |g.dep| == |w|
  {
  }

  // ---------- Before and after the merging ----------

  /** Leaf i weighs w[i], shifted past the depth byte. */
  ghost predicate Weighed(weight: seq<int>, w: seq<nat>) {
    |w| < |weight| && forall i :: 0 <= i < |w| ==> 1 <= w[i] && weight[i + 1] == 256 * w[i]
  }

  ghost predicate Filled(w: seq<nat>, heap: seq<int>, weight: seq<int>, parent: seq<int>, n: int) {
    && |heap| == 260 && |weight| == |parent| == 516
    && Named(heap, weight, n) && IsHeap(heap, weight, n) && n <= |w|
    && multiset(Content(heap, n)) == multiset(LeafIds(n))
    && forall k :: 0 <= k <= n ==> parent[k] < 0
  }

  lemma FilledAll(w: seq<nat>, heap: seq<int>, weight: seq<int>, parent: seq<int>)
    requires 1 <= |w| <= 258 && Total(w) < 0x80_0000 && Weighed(weight, w)
    requires Filled(w, heap, weight, parent, |w|)
    ensures Merging(w, LeafShape(|w|, 516), heap, |w|, weight, parent, |w|)
  {
    hide Forest, Total, IsHeap;
    LeafForest(w, weight);
    ForestReordered(w, LeafShape(|w|, 516), weight, LeafIds(|w|), Content(heap, |w|), |w|);
    forall j | 1 <= j <= |w| ensures parent[heap[j]] < 0 {
      var c := Content(heap, |w|);
      assert heap[j] == c[j - 1];
      SameElements(c, LeafIds(|w|), heap[j]);
    }
  }

  /** The single nodes put on the heap, one by one. */
  method BuildHeap(heap: array<int>, weight: array<int>, parent: array<int>, alphaSize: int, ghost w: seq<nat>)
    requires heap != weight && heap != parent && weight != parent
    requires heap.Length == 260 && weight.Length == parent.Length == 516
    requires 1 <= alphaSize == |w| <= 258 && Total(w) < 0x80_0000 && Weighed(weight[..], w)
    modifies heap, weight, parent
    ensures Weighed(weight[..], w)
    ensures Merging(w, LeafShape(|w|, 516), heap[..], alphaSize, weight[..], parent[..], alphaSize)
  {
    hide Total, IsHeap, Merging;
    heap[0], weight[0], parent[0] := 0, 0, -2;
    assert IsHeap(heap[..], weight[..], 0) by { EmptyHeap(heap[..], weight[..]); }
    assert Content(heap[..], 0) == LeafIds(0);
    var i := 1;
    while i <= alphaSize
      invariant 1 <= i <= alphaSize + 1
      invariant Weighed(weight[..], w)
      invariant Filled(w, heap[..], weight[..], parent[..], i - 1)
    {
      parent[i] := -1;
      assert weight[i] == 256 * w[i - 1];
      ghost var p := parent[..];
      Push(heap, weight, i - 1, i);
      assert LeafIds(i) == LeafIds(i - 1) + [i];
      assert parent[..] == p;
      i := i + 1;
    }
    FilledAll(w, heap[..], weight[..], parent[..]);
  }

  lemma EmptyHeap(h: seq<int>, wt: seq<int>)
    requires Named(h, wt, 0)
    ensures IsHeap(h, wt, 0)
  {
  }

  /** The depth of leaf k, counted along the parents. */
  method Depth(parent: array<int>, leaf: int, ghost r: int, ghost d: nat) returns (j: nat)
    requires Chain(parent[..], leaf, r, d)
    ensures j == d
  {
    j := 0;
    var k := leaf;
    while parent[k] >= 0
      invariant j <= d && Chain(parent[..], k, r, d - j)
      decreases d - j
    {
      k := parent[k];
      j := j + 1;
    }
  }

  method ReadLengths(len: array<nat>, parent: array<int>, alphaSize: nat, maxLen: nat, ghost g: Shape)
    returns (tooLong: bool)
    requires alphaSize == |g.dep| <= len.Length && Chains(parent[..], g)
    modifies len
    ensures len[..alphaSize] == g.dep && len[alphaSize..] == old(len[alphaSize..])
    ensures tooLong <==> exists i :: 0 <= i < |g.dep| && g.dep[i] > maxLen
  {
    hide Chain;
    tooLong := false;
    var i := 1;
    ghost var l0 := len[..];
    while i <= alphaSize
      invariant 1 <= i <= alphaSize + 1
      invariant len[..i - 1] == g.dep[..i - 1]
      invariant len[i - 1..] == l0[i - 1..]
      invariant tooLong <==> exists k :: 0 <= k < i - 1 && g.dep[k] > maxLen
    {
      var j := Depth(parent, i, g.root[i - 1], g.dep[i - 1]);
      len[i - 1] := j;
      if j > maxLen {
        tooLong := true;
      }
      i := i + 1;
    }
  }

  // ---------- Rescaling ----------

  /** j -> 1 + j / 2 on every weight. */
  ghost function Halved(w: seq<nat>): (h: seq<nat>)
    ensures |h| == |w| && forall i :: 0 <= i < |w| ==> h[i] == 1 + w[i] / 2
  {
    seq(|w|, i requires 0 <= i < |w| => 1 + w[i] / 2)
  }

  ghost function Rescaled(w: seq<nat>, passes: nat): (r: seq<nat>)
    ensures |r| == |w|
  {
    if passes == 0 then w else Halved(Rescaled(w, passes - 1))
  }

  /** Rescaling shrinks every total above twice the number of symbols. */
  lemma {:induction false} HalvedTotal(w: seq<nat>)
    ensures 2 * Total(Halved(w)) <= Total(w) + 2 * |w|
    ensures Total(w) > 2 * |w| ==> Total(Halved(w)) < Total(w)
  {
    if w != [] {
      HalvedTotal(w[..|w| - 1]);
      assert Halved(w)[..|w| - 1] == Halved(w[..|w| - 1]);
    }
  }

  method Halve(weight: array<int>, alphaSize: nat, ghost w: seq<nat>)
    requires alphaSize == |w| && weight.Length == 516 && Weighed(weight[..], w)
    modifies weight
    ensures Weighed(weight[..], Halved(w))
  {
    var i := 1;
    while i <= alphaSize
      invariant 1 <= i <= alphaSize + 1
      invariant forall k :: 1 <= k < i ==> weight[k] == 256 * Halved(w)[k - 1]
      invariant forall k :: i <= k <= alphaSize ==> weight[k] == 256 * w[k - 1]
    {
      var j := weight[i] / 256;
      j := 1 + j / 2;
      weight[i] := j * 256;
      i := i + 1;
    }
  }

  // ---------- The lengths ----------

  lemma {:induction false} KraftScale(len: seq<nat>, a: nat, b: nat)
    requires Bounded(len, a) && Bounded(len, b)
    ensures Kraft(len, a) * Pow2(b) == Kraft(len, b) * Pow2(a)
  {
    hide Pow2;
    if len != [] {
      var n := |len| - 1;
      KraftScale(len[..n], a, b);
      Pow2Add(a - len[n], b);
      Pow2Add(b - len[n], a);
      assert a - len[n] + b == b - len[n] + a;
      Distribute(Kraft(len[..n], a), Pow2(a - len[n]), Pow2(b));
      Distribute(Kraft(len[..n], b), Pow2(b - len[n]), Pow2(a));
    }
  }

  lemma FullKraft(len: seq<nat>, top: nat)
    requires Bounded(len, TOP) && Bounded(len, top) && Kraft(len, TOP) == Pow2(TOP)
    ensures Kraft(len, top) == Pow2(top)
  {
    hide Pow2, Kraft;
    KraftScale(len, TOP, top);
    Cancel(Kraft(len, top), Pow2(top), Pow2(TOP));
  }

  lemma Cancel(a: int, b: int, p: int)
    requires p > 0 && p * b == a * p
    ensures a == b
  {
    assert p * (b - a) == 0;
  }

  /** Among two or more symbols of a full code, none has length 0. */
  lemma {:induction false} NoneEmpty(len: seq<nat>, top: nat, i: nat)
    requires Bounded(len, top) && i < |len|
    ensures Kraft(len, top) >= Pow2(top - len[i])
    ensures |len| >= 2 ==> Kraft(len, top) > Pow2(top - len[i])
  {
    hide Pow2;
    var n := |len| - 1;
    if i < n {
      NoneEmpty(len[..n], top, i);
    } else if n >= 1 {
      NoneEmpty(len[..n], top, 0);
    }
  }

  /** What the last forest says about the lengths just read. */
  lemma LengthsRead(w: seq<nat>, g: Shape, heap: seq<int>, weight: seq<int>, parent: seq<int>, nNodes: int, maxLen: nat)
    requires Merging(w, g, heap, 1, weight, parent, nNodes) && 2 <= |w|
    ensures |g.dep| == |w| && Chains(parent, g) && Optimal(w, g.dep)
    ensures Bounded(g.dep, maxLen) ==> Kraft(g.dep, maxLen) == Pow2(maxLen)
    ensures forall i :: 0 <= i < |w| ==> 1 <= g.dep[i] <= 32 && Fib(g.dep[i]) <= Total(w)
    ensures Total(w) <= 2 * 258 ==> forall i :: 0 <= i < |w| ==> g.dep[i] <= 12
  {
    hide Optimal, Kraft, Pow2, Fib, Total, Reduces, Cost, GoodRoot, Later, IsHeap;
    var c := Content(heap, 1);
    assert c == [c[0]];
    LastForest(w, g, weight, c[0], nNodes);
    if Bounded(g.dep, maxLen) {
      FullKraft(g.dep, maxLen);
    }
    forall i | 0 <= i < |w| ensures 1 <= g.dep[i] {
      NoneEmpty(g.dep, TOP, i);
    }
  }

  /** Frequencies with 1 in place of 0. */
  ghost function Floored(freq: seq<nat>): (w: seq<nat>)
    ensures |w| == |freq|
    ensures forall i :: 0 <= i < |freq| ==> w[i] == if freq[i] == 0 then 1 else freq[i]
  {
    seq(|freq|, i requires 0 <= i < |freq| => if freq[i] == 0 then 1 else freq[i])
  }

  method Weigh(weight: array<int>, freq: array<nat>, alphaSize: nat)
    requires weight.Length == 516 && alphaSize <= freq.Length && alphaSize <= 258
    modifies weight
    ensures Weighed(weight[..], Floored(freq[..alphaSize]))
  {
    var i := 0;
    while i < alphaSize
      invariant i <= alphaSize
      invariant forall k :: 0 <= k < i ==> weight[k + 1] == 256 * Floored(freq[..alphaSize])[k]
    {
      weight[i + 1] := (if freq[i] == 0 then 1 else freq[i]) * 256;
      i := i + 1;
    }
  }

  /** One tree for the weights w. */
  method BuildTree(heap: array<int>, weight: array<int>, parent: array<int>, alphaSize: int, ghost w: seq<nat>)
    returns (ghost g: Shape)
    requires heap != weight && heap != parent && weight != parent
    requires heap.Length == 260 && weight.Length == parent.Length == 516
    requires 1 <= alphaSize == |w| <= 258 && Total(w) < 0x80_0000 && Weighed(weight[..], w)
    modifies heap, weight, parent
    ensures Weighed(weight[..], w)
    ensures Merging(w, g, heap[..], 1, weight[..], parent[..], 2 * alphaSize - 1)
  {
    hide *;
    BuildHeap(heap, weight, parent, alphaSize, w);
    var nNodes, nHeap := alphaSize, alphaSize;
    assert nHeap < 260;  // 2001
    g := LeafShape(|w|, 516);
    while nHeap > 1
      invariant 1 <= nHeap && nNodes + nHeap == 2 * alphaSize
      invariant Merging(w, g, heap[..], nHeap, weight[..], parent[..], nNodes)
      invariant Weighed(weight[..], w)
      decreases nHeap
    {
      ghost var wt := weight[..];
      g := MergeOnce(heap, weight, parent, nHeap, nNodes, w, g);
      WeighedKept(wt, weight[..], w);
      nNodes, nHeap := nNodes + 1, nHeap - 1;
    }
    assert nNodes < 516;  // 2002
  }

  lemma WeighedKept(a: seq<int>, b: seq<int>, w: seq<nat>)
    requires |a| == |b| && Weighed(a, w) && a[..|w| + 1] == b[..|w| + 1]
    ensures Weighed(b, w)
  {
    forall i | 0 <= i < |w| ensures 1 <= w[i] && b[i + 1] == 256 * w[i] {
      assert a[..|w| + 1][i + 1] == b[..|w| + 1][i + 1];
    }
  }

  /** Some cheapest code for these weights has a length over maxLen. */
  ghost predicate TooDeep(w: seq<nat>, maxLen: nat) {
    exists dep: seq<nat> :: Optimal(w, dep) && exists i :: 0 <= i < |dep| && dep[i] > maxLen
  }

  /** Lengths of at most maxLen that make a full prefix code, and a cheapest one for the
      frequencies as rescaled; each rescaling only while a cheapest code is too long, and the total has
      reached the Fibonacci number that it needs. */
  method MakeCodeLengths(len: array<nat>, freq: array<nat>, alphaSize: nat, maxLen: nat)
    returns (ghost passes: nat)
    requires 2 <= alphaSize <= 258 && alphaSize <= len.Length && alphaSize <= freq.Length && 12 <= maxLen
    requires len != freq && Total(Floored(freq[..alphaSize])) < 0x80_0000
    modifies len
    ensures forall i :: 0 <= i < alphaSize ==> 1 <= len[i] <= maxLen
    ensures Bounded(len[..alphaSize], maxLen) && Kraft(len[..alphaSize], maxLen) == Pow2(maxLen)
    ensures Optimal(Rescaled(Floored(freq[..alphaSize]), passes), len[..alphaSize])
    ensures forall k: nat :: k < passes ==> Fib(maxLen + 1) <= Total(Rescaled(Floored(freq[..alphaSize]), k))
    ensures forall k: nat :: k < passes ==> TooDeep(Rescaled(Floored(freq[..alphaSize]), k), maxLen)
    ensures len[alphaSize..] == old(len[alphaSize..])
  {
    hide *;
    var heap := new int[260];
    var weight := new int[516];
    var parent := new int[516];
    ghost var w0 := Floored(freq[..alphaSize]);
    Weigh(weight, freq, alphaSize);
    passes := 0;
    ghost var w := w0;
    RescaledNone(w0);
    while true
      invariant fresh(heap) && fresh(weight) && fresh(parent)
      invariant w == Rescaled(w0, passes) && |w| == alphaSize && Total(w) < 0x80_0000
      invariant Weighed(weight[..], w)
      invariant forall k: nat :: k < passes ==> Fib(maxLen + 1) <= Total(Rescaled(w0, k))
      invariant forall k: nat :: k < passes ==> TooDeep(Rescaled(w0, k), maxLen)
      invariant len[alphaSize..] == old(len[alphaSize..])
      decreases Total(w)
    {
      ghost var g := BuildTree(heap, weight, parent, alphaSize, w);
      LengthsRead(w, g, heap[..], weight[..], parent[..], 2 * alphaSize - 1, maxLen);
      var tooLong := ReadLengths(len, parent, alphaSize, maxLen, g);
      if !tooLong {
        BoundedIf(g.dep, maxLen);
        break;
      }
      TooLongMeans(w, g.dep, maxLen);
      HalvedTotal(w);
      Halve(weight, alphaSize, w);
      RescaledNext(w0, passes);
      w := Halved(w);
      passes := passes + 1;
    }
    assert forall i :: 0 <= i < alphaSize ==> len[i] == len[..alphaSize][i];
  }

  lemma BoundedIf(len: seq<nat>, top: nat)
    requires forall i :: 0 <= i < |len| ==> len[i] <= top
    ensures Bounded(len, top)
  {
  }

  lemma RescaledNone(w: seq<nat>)
    ensures Rescaled(w, 0) == w
  {
  }

  lemma RescaledNext(w: seq<nat>, passes: nat)
    ensures Rescaled(w, passes + 1) == Halved(Rescaled(w, passes))
  {
  }

  lemma TooDeepIs(w: seq<nat>, dep: seq<nat>, maxLen: nat)
    requires Optimal(w, dep) && exists i :: 0 <= i < |dep| && dep[i] > maxLen
    ensures TooDeep(w, maxLen)
  {
    hide Optimal;
  }

  /** A code longer than maxLen needs a large total. */
  lemma TooLongMeans(w: seq<nat>, dep: seq<nat>, maxLen: nat)
    requires |dep| == |w| <= 258 && 12 <= maxLen && Optimal(w, dep) && exists i :: 0 <= i < |dep| && dep[i] > maxLen
    requires forall i :: 0 <= i < |w| ==> Fib(dep[i]) <= Total(w)
    requires Total(w) <= 2 * 258 ==> forall i :: 0 <= i < |w| ==> dep[i] <= 12
    ensures Total(w) > 2 * |w| && Total(w) >= Fib(maxLen + 1) && TooDeep(w, maxLen)
  {
    hide *;
    TooDeepIs(w, dep, maxLen);
    var i :| 0 <= i < |dep| && dep[i] > maxLen;
    FibMonotone(maxLen + 1, dep[i]);
  }
}
