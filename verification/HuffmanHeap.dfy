/** The binary heap of node numbers inside BZ2_hbMakeCodeLengths (dep/bzip2/huffman.c:31-57).
    Entry 0 is a sentinel of weight 0. */
module HuffmanHeap {
  import opened Segments

  /** Entries 0..n name nodes, the sentinel is in place, and all other weights are positive. */
  ghost predicate Named(h: seq<int>, w: seq<int>, n: int) {
    && 0 <= n < |h| && 1 <= |w|
    && h[0] == 0 && w[0] == 0
    && (forall j :: 1 <= j <= n ==> 1 <= h[j] < |w| && w[h[j]] > 0)
  }

  /** The parent of entry j is no heavier. */
  ghost predicate Below(h: seq<int>, w: seq<int>, n: int, j: int)
    requires Named(h, w, n) && 2 <= j <= n
  {
    w[h[j / 2]] <= w[h[j]]
  }

  ghost predicate IsHeap(h: seq<int>, w: seq<int>, n: int)
    requires Named(h, w, n)
  {
    forall j :: 2 <= j <= n ==> Below(h, w, n, j)
  }

  /** The root of a heap is a minimum. */
  lemma {:induction false} RootIsLeast(h: seq<int>, w: seq<int>, n: int, j: int)
    requires Named(h, w, n) && IsHeap(h, w, n) && 1 <= j <= n
    ensures w[h[1]] <= w[h[j]]
    decreases j
  {
    if j > 1 {
      RootIsLeast(h, w, n, j / 2);
      assert Below(h, w, n, j);
    }
  }

  // ---------- Moving up ----------

  /** A heap but for entry z, which may be lighter than its parent. */
  ghost predicate AlmostUp(g: seq<int>, w: seq<int>, n: int, z: int)
    requires Named(g, w, n) && 1 <= z <= n
  {
    && (forall j :: 2 <= j <= n && j != z ==> Below(g, w, n, j))
    && (forall j :: 2 <= j <= n && j / 2 == z && 2 <= z ==> w[g[z / 2]] <= w[g[j]])
  }

  lemma UpStep(g: seq<int>, w: seq<int>, n: int, z: int)
    requires Named(g, w, n) && 2 <= z <= n && AlmostUp(g, w, n, z) && w[g[z]] < w[g[z / 2]]
    ensures var g' := Swapped(g, z, z / 2); Named(g', w, n) && AlmostUp(g', w, n, z / 2)
  {
    var g' := Swapped(g, z, z / 2);
    assert Named(g', w, n);
    forall j | 2 <= j <= n && j != z / 2 ensures Below(g', w, n, j) {
      assert j != z ==> Below(g, w, n, j);
    }
    forall j | 2 <= j <= n && j / 2 == z / 2 && 2 <= z / 2 ensures w[g'[z / 2 / 2]] <= w[g'[j]] {
      assert Below(g, w, n, z / 2);
      assert j != z ==> Below(g, w, n, j);
    }
  }

  lemma UpDone(g: seq<int>, w: seq<int>, n: int, z: int)
    requires Named(g, w, n) && 1 <= z <= n && AlmostUp(g, w, n, z) && w[g[z / 2]] <= w[g[z]]
    ensures IsHeap(g, w, n)
  {
    forall j | 2 <= j <= n ensures Below(g, w, n, j) {
    }
  }

  /** The array during a move, with `tmp` put back at z. */
  ghost predicate MovingUp(f0: seq<int>, f: seq<int>, w: seq<int>, n: int, z: int, tmp: int) {
    && |f0| == |f| && 1 <= z <= n < |f|
    && var g := f[z := tmp];
       Rearranged(f0, g, 1, n + 1) && Named(g, w, n) && AlmostUp(g, w, n, z)
  }

  lemma MovingUpFacts(f0: seq<int>, f: seq<int>, w: seq<int>, n: int, z: int, tmp: int)
    requires MovingUp(f0, f, w, n, z, tmp)
    ensures 1 <= z <= n < |f| && 0 <= f[z / 2] < |w| && 0 <= tmp < |w|
    ensures w[tmp] < w[f[z / 2]] ==> 2 <= z
  {
    var g := f[z := tmp];
    assert g[z / 2] == f[z / 2] && g[z] == tmp;
  }

  lemma HoleSwap(f: seq<int>, z: int, y: int, tmp: int)
    requires 0 <= z < |f| && 0 <= y < |f| && z != y
    ensures Swapped(f[z := tmp], z, y) == f[z := f[y]][y := tmp]
  {
  }

  lemma MovingUpStep(f0: seq<int>, f: seq<int>, w: seq<int>, n: int, z: int, tmp: int)
    requires MovingUp(f0, f, w, n, z, tmp) && 2 <= z
    requires 0 <= f[z / 2] < |w| && 0 <= tmp < |w| && w[tmp] < w[f[z / 2]]
    ensures MovingUp(f0, f[z := f[z / 2]], w, n, z / 2, tmp)
  {
    hide Rearranged, Swapped;
    var g := f[z := tmp];
    assert g[z / 2] == f[z / 2] && g[z] == tmp;
    HoleSwap(f, z, z / 2, tmp);
    SwapRearranges(g, z, z / 2, 1, n + 1);
    RearrangedTransitive(f0, g, Swapped(g, z, z / 2), 1, n + 1);
    UpStep(g, w, n, z);
  }

  lemma MovingUpEnd(f0: seq<int>, f: seq<int>, w: seq<int>, n: int, z: int, tmp: int)
    requires MovingUp(f0, f, w, n, z, tmp)
    requires 0 <= f[z / 2] < |w| && 0 <= tmp < |w| && w[f[z / 2]] <= w[tmp]
    ensures var g := f[z := tmp]; Rearranged(f0, g, 1, n + 1) && Named(g, w, n) && IsHeap(g, w, n)
  {
    var g := f[z := tmp];
    assert z / 2 != z && g[z / 2] == f[z / 2];
    UpDone(g, w, n, z);
  }

  /** UPHEAP: entry z = n joins the heap of the others. */
  method UpHeap(heap: array<int>, weight: array<int>, n: int)
    requires heap != weight && 1 <= n
    requires Named(heap[..], weight[..], n) && Named(heap[..], weight[..], n - 1)
    requires IsHeap(heap[..], weight[..], n - 1)
    modifies heap
    ensures Named(heap[..], weight[..], n) && IsHeap(heap[..], weight[..], n)
    ensures Rearranged(old(heap[..]), heap[..], 1, n + 1)
  {
    hide MovingUp, Rearranged;
    ghost var f0, w := heap[..], weight[..];
    var zz := n;
    var tmp := heap[zz];
    MovingUpStart(f0, w, n);
    MovingUpFacts(f0, heap[..], w, n, zz, tmp);
    while weight[tmp] < weight[heap[zz / 2]]
      invariant 1 <= zz <= n < heap.Length
      invariant 0 <= heap[zz / 2] < |w| && 0 <= tmp < |w|
      invariant w[tmp] < w[heap[zz / 2]] ==> 2 <= zz
      invariant MovingUp(f0, heap[..], w, n, zz, tmp)
      decreases zz
    {
      MovingUpStep(f0, heap[..], w, n, zz, tmp);
      Put(heap, zz, heap[zz / 2]);
      zz := zz / 2;
      MovingUpFacts(f0, heap[..], w, n, zz, tmp);
    }
    MovingUpEnd(f0, heap[..], w, n, zz, tmp);
    Put(heap, zz, tmp);
  }

  lemma MovingUpStart(f: seq<int>, w: seq<int>, n: int)
    requires 1 <= n && Named(f, w, n) && Named(f, w, n - 1) && IsHeap(f, w, n - 1)
    ensures MovingUp(f, f, w, n, n, f[n])
  {
    assert f[n := f[n]] == f;
    forall j | 2 <= j < n ensures Below(f, w, n, j) {
      assert Below(f, w, n - 1, j);
    }
  }

  // ---------- Moving down ----------

  /** A heap but for entry z, which may be heavier than its children. */
  ghost predicate AlmostDown(g: seq<int>, w: seq<int>, n: int, z: int)
    requires Named(g, w, n) && 1 <= z <= n
  {
    && (forall j :: 2 <= j <= n && j / 2 != z ==> Below(g, w, n, j))
    && (forall j :: 2 <= j <= n && j / 2 == z && 2 <= z ==> w[g[z / 2]] <= w[g[j]])
  }

  lemma DownStep(g: seq<int>, w: seq<int>, n: int, z: int, y: int)
    requires Named(g, w, n) && 1 <= z <= n && AlmostDown(g, w, n, z)
    requires 2 <= y <= n && y / 2 == z && w[g[y]] <= w[g[z]]
    requires forall j :: 2 <= j <= n && j / 2 == z ==> w[g[y]] <= w[g[j]]
    ensures var g' := Swapped(g, z, y); Named(g', w, n) && AlmostDown(g', w, n, y)
  {
    var g' := Swapped(g, z, y);
    assert Named(g', w, n);
    forall j | 2 <= j <= n && j / 2 != y ensures Below(g', w, n, j) {
      assert j / 2 != z ==> Below(g, w, n, j);
    }
    forall j | 2 <= j <= n && j / 2 == y && 2 <= y ensures w[g'[y / 2]] <= w[g'[j]] {
      assert Below(g, w, n, j);
    }
  }

  ghost predicate MovingDown(f0: seq<int>, f: seq<int>, w: seq<int>, n: int, z: int, tmp: int) {
    && |f0| == |f| && 1 <= z <= n < |f|
    && var g := f[z := tmp];
       Rearranged(f0, g, 1, n + 1) && Named(g, w, n) && AlmostDown(g, w, n, z)
  }

  lemma MovingDownFacts(f0: seq<int>, f: seq<int>, w: seq<int>, n: int, z: int, tmp: int)
    requires MovingDown(f0, f, w, n, z, tmp)
    ensures 1 <= z <= n < |f| && 0 <= tmp < |w|
    ensures forall j :: 1 <= j <= n && j != z ==> 0 <= f[j] < |w|
  {
    var g := f[z := tmp];
    assert forall j :: 0 <= j <= n && j != z ==> g[j] == f[j];
    assert g[z] == tmp;
  }

  lemma MovingDownNamed(f: seq<int>, w: seq<int>, n: int, z: int, tmp: int)
    requires 1 <= z <= n < |f| && Named(f[z := tmp], w, n)
    ensures var g := f[z := tmp]; g[z] == tmp && forall j :: 1 <= j <= n && j != z ==> g[j] == f[j]
  {
  }

  lemma MovingDownStep(f0: seq<int>, f: seq<int>, w: seq<int>, n: int, z: int, tmp: int, y: int)
    requires MovingDown(f0, f, w, n, z, tmp) && 2 <= y <= n && y / 2 == z
    requires 0 <= tmp < |w| && forall j :: 2 <= j <= n && j / 2 == z ==> 0 <= f[j] < |w|
    requires w[f[y]] <= w[tmp]
    requires forall j :: 2 <= j <= n && j / 2 == z ==> w[f[y]] <= w[f[j]]
    ensures MovingDown(f0, f[z := f[y]], w, n, y, tmp)
  {
    hide Rearranged, Swapped, Named, AlmostDown, MovingDown;
    MovingDownParts(f0, f, w, n, z, tmp);
    var g := f[z := tmp];
    MovingDownNamed(f, w, n, z, tmp);
    HoleSwap(f, z, y, tmp);
    SwapRearranges(g, z, y, 1, n + 1);
    RearrangedTransitive(f0, g, Swapped(g, z, y), 1, n + 1);
    forall j | 2 <= j <= n && j / 2 == z ensures w[g[y]] <= w[g[j]] {
      assert g[j] == f[j];
    }
    DownStep(g, w, n, z, y);
    MovingDownIf(f0, f[z := f[y]], w, n, y, tmp);
  }

  lemma MovingDownParts(f0: seq<int>, f: seq<int>, w: seq<int>, n: int, z: int, tmp: int)
    requires MovingDown(f0, f, w, n, z, tmp)
    ensures |f0| == |f| && 1 <= z <= n < |f|
    ensures var g := f[z := tmp]; Rearranged(f0, g, 1, n + 1) && Named(g, w, n) && AlmostDown(g, w, n, z)
  {
    hide Rearranged, Named, AlmostDown;
  }

  lemma MovingDownIf(f0: seq<int>, f: seq<int>, w: seq<int>, n: int, z: int, tmp: int)
    requires |f0| == |f| && 1 <= z <= n < |f|
    requires var g := f[z := tmp]; Rearranged(f0, g, 1, n + 1) && Named(g, w, n) && AlmostDown(g, w, n, z)
    ensures MovingDown(f0, f, w, n, z, tmp)
  {
    hide Rearranged, Named, AlmostDown;
  }

  lemma MovingDownEnd(f0: seq<int>, f: seq<int>, w: seq<int>, n: int, z: int, tmp: int)
    requires MovingDown(f0, f, w, n, z, tmp)
    requires 0 <= tmp < |w| && forall j :: 2 <= j <= n && j / 2 == z ==> 0 <= f[j] < |w| && w[tmp] <= w[f[j]]
    ensures var g := f[z := tmp]; Rearranged(f0, g, 1, n + 1) && Named(g, w, n) && IsHeap(g, w, n)
  {
    var g := f[z := tmp];
    assert forall j :: 0 <= j <= n && j != z ==> g[j] == f[j];
    forall j | 2 <= j <= n ensures Below(g, w, n, j) {
    }
  }

  lemma MovingDownStart(f: seq<int>, w: seq<int>, n: int)
    requires 1 <= n && Named(f, w, n)
    requires forall j :: 4 <= j <= n ==> Below(f, w, n, j)
    ensures MovingDown(f, f, w, n, 1, f[1])
  {
    assert f[1 := f[1]] == f;
  }

  /** DOWNHEAP(1): the root is out of order, everything below is a heap. */
  method DownHeap(heap: array<int>, weight: array<int>, n: int)
    requires heap != weight && Named(heap[..], weight[..], n)
    requires forall j :: 4 <= j <= n ==> Below(heap[..], weight[..], n, j)
    modifies heap
    ensures Named(heap[..], weight[..], n) && IsHeap(heap[..], weight[..], n)
    ensures Rearranged(old(heap[..]), heap[..], 1, n + 1)
  {
    hide MovingDown, Rearranged;
    ghost var f0, w := heap[..], weight[..];
    if n == 0 {
      RearrangedSelf(f0, 1, 1);
      return;  // the entry is stored back where it was
    }
    var zz := 1;
    var tmp := heap[zz];
    MovingDownStart(f0, w, n);
    while true
      invariant 1 <= zz <= n < heap.Length
      invariant MovingDown(f0, heap[..], w, n, zz, tmp)
      decreases n - zz
    {
      MovingDownFacts(f0, heap[..], w, n, zz, tmp);
      var yy := zz * 2;
      if yy > n {
        break;
      }
      if yy < n && weight[heap[yy + 1]] < weight[heap[yy]] {
        yy := yy + 1;
      }
      assert forall j :: 2 <= j <= n && j / 2 == zz ==> j == zz * 2 || j == zz * 2 + 1;
      if weight[tmp] < weight[heap[yy]] {
        break;
      }
      MovingDownStep(f0, heap[..], w, n, zz, tmp, yy);
      Put(heap, zz, heap[yy]);
      zz := yy;
    }
    MovingDownEnd(f0, heap[..], w, n, zz, tmp);
    Put(heap, zz, tmp);
  }

  // ---------- Taking out the lightest ----------

  /** The node numbers in the heap. */
  ghost function Content(h: seq<int>, n: int): (s: seq<int>)
    requires 0 <= n < |h|
  {
    h[1..n + 1]
  }

  /** No node listed weighs less than x. */
  ghost predicate NoneLighter(w: seq<int>, x: int, rest: seq<int>) {
    forall k :: 0 <= k < |rest| ==> 0 <= rest[k] < |w| && x <= w[rest[k]]
  }

  /** n1 = heap[1]; heap[1] = heap[nHeap]; nHeap--; DOWNHEAP(1). */
  method Pop(heap: array<int>, weight: array<int>, n: int) returns (n1: int)
    requires heap != weight && 1 <= n
    requires Named(heap[..], weight[..], n) && IsHeap(heap[..], weight[..], n)
    modifies heap
    ensures Named(heap[..], weight[..], n - 1) && IsHeap(heap[..], weight[..], n - 1)
    ensures multiset(Content(old(heap[..]), n)) == multiset(Content(heap[..], n - 1)) + multiset{n1}
    ensures 1 <= n1 < weight.Length
    ensures NoneLighter(weight[..], weight[n1], Content(heap[..], n - 1))
  {
    hide Rearranged, IsHeap, NoneLighter;
    ghost var h0, w := heap[..], weight[..];
    n1 := heap[1];
    heap[1] := heap[n];
    ghost var h1 := heap[..];
    LastToRoot(h0, h1, w, n, n - 1);
    DownHeap(heap, weight, n - 1);
    ContentRearranged(h1, heap[..], n - 1);
    PopLeast(h0, h1, w, n, Content(heap[..], n - 1));
  }

  /** Everything left in the heap was in it before, at or above the root's weight. */
  lemma PopLeast(h0: seq<int>, h1: seq<int>, w: seq<int>, n: int, rest: seq<int>)
    requires 1 <= n && Named(h0, w, n) && IsHeap(h0, w, n) && h1 == h0[1 := h0[n]]
    requires multiset(rest) == multiset(Content(h1, n - 1))
    ensures NoneLighter(w, w[h0[1]], rest)
  {
    forall k | 0 <= k < |rest| ensures 0 <= rest[k] < |w| && w[h0[1]] <= w[rest[k]] {
      var c1 := Content(h1, n - 1);
      assert rest[k] in multiset(rest);
      assert rest[k] in c1;
      var j :| 0 <= j < |c1| && c1[j] == rest[k];
      RootIsLeast(h0, w, n, if j == 0 then n else j + 1);
    }
  }

  lemma LastToRoot(h0: seq<int>, h1: seq<int>, w: seq<int>, n: int, m: int)
    requires 1 <= n && m == n - 1 && Named(h0, w, n) && IsHeap(h0, w, n) && h1 == h0[1 := h0[n]]
    ensures Named(h1, w, m)
    ensures forall j :: 4 <= j <= m ==> Below(h1, w, m, j)
    ensures multiset(Content(h0, n)) == multiset(Content(h1, m)) + multiset{h0[1]}
  {
    forall j | 4 <= j <= m ensures Below(h1, w, m, j) {
      assert Below(h0, w, n, j);
    }
    assert Content(h0, n) == [h0[1]] + h0[2..n + 1];
    if n > 1 {
      assert h0[2..n + 1] == h0[2..n] + [h0[n]];
      assert Content(h1, m) == [h0[n]] + h0[2..n];
    }
  }

  lemma ContentRearranged(f: seq<int>, g: seq<int>, n: int)
    requires 0 <= n < |f| && Rearranged(f, g, 1, n + 1)
    ensures multiset(Content(f, n)) == multiset(Content(g, n))
  {
  }

  /** nHeap++; heap[nHeap] = node; UPHEAP(nHeap). */
  method Push(heap: array<int>, weight: array<int>, n: int, node: int)
    requires heap != weight && 0 <= n < heap.Length - 1 && 1 <= node < weight.Length && weight[node] > 0
    requires Named(heap[..], weight[..], n) && IsHeap(heap[..], weight[..], n)
    modifies heap
    ensures Named(heap[..], weight[..], n + 1) && IsHeap(heap[..], weight[..], n + 1)
    ensures multiset(Content(heap[..], n + 1)) == multiset(Content(old(heap[..]), n)) + multiset{node}
  {
    ghost var h0, w := heap[..], weight[..];
    heap[n + 1] := node;
    ghost var h1 := heap[..];
    assert Content(h1, n + 1) == Content(h0, n) + [node];
    assert IsHeap(h1, w, n) by {
      forall j | 2 <= j <= n ensures Below(h1, w, n, j) {
        assert Below(h0, w, n, j);
      }
    }
    UpHeap(heap, weight, n + 1);
    ContentRearranged(h1, heap[..], n + 1);
  }
}
