/** The order in which mainSort treats the big buckets: a shell sort by size
    (dep/bzip2/blocksort.c:818-849). */
module RunningOrder {
  import opened Rotations
  import opened Segments
  import opened MainSimpleSort

  /** Each first byte's number of rotations, from the table of small bucket starts. */
  ghost function BigFreqs(f: seq<int>): (key: seq<int>)
    requires |f| == 65537
    ensures |key| == 256 && forall c :: 0 <= c < 256 ==> key[c] == f[(c + 1) * 256] - f[c * 256]
  {
    seq(256, c requires 0 <= c < 256 => f[(c + 1) * 256] - f[c * 256])
  }

  function BigFreq(ftab: array<int>, c: int): (n: int)
    requires ftab.Length == 65537 && 0 <= c < 256
    reads ftab
    ensures n == BigFreqs(ftab[..])[c]
  {
    ftab[(c + 1) * 256] - ftab[c * 256]
  }

  lemma SwappedPerm(f: seq<int>, n: nat, i: int, j: int)
    requires IsPerm(f, n) && 0 <= i < n && 0 <= j < n
    ensures IsPerm(Swapped(f, i, j), n)
  {
  }

  /** Bucket number v is on its way to `hole`, h places at a time. */
  ghost predicate Dropping(key: seq<int>, f: seq<int>, v: int, hole: int, i: int, h: int) {
    && |key| == |f| == 256 && 0 <= hole <= i < 256
    && IsPerm(f[hole := v], 256)
    && (h == 1 ==> Sinking(f[hole := v], key, 0, hole, i))
  }

  lemma DroppingStep(key: seq<int>, f: seq<int>, v: int, hole: int, i: int, h: int)
    requires Dropping(key, f, v, hole, i, h) && 1 <= h <= hole && 0 <= f[hole - h] < 256 && 0 <= v < 256
    requires key[f[hole - h]] > key[v]
    ensures Dropping(key, f[hole := f[hole - h]], v, hole - h, i, h)
  {
    hide Sinking, Swapped, IsPerm;
    var j := hole - h;
    var g := f[hole := v];
    HoleMoves(f, hole, j, v);
    SwappedPerm(g, 256, hole, j);
    PermEntries(g, key, i);
    PermEntries(Swapped(g, hole, j), key, i);
    if h == 1 {
      assert g[hole] == v && g[j] == f[j];
      SinkingStep(g, key, 0, hole, i);
    }
  }

  lemma PermEntries(f: seq<int>, key: seq<int>, i: int)
    requires IsPerm(f, 256) && |key| == 256 && i < 256
    ensures Entries(f, key, 0, i)
  {
  }

  /** The entry at i drops below larger buckets. */
  method Drop(order: array<int>, ftab: array<int>, h: int, i: int)
    requires order != ftab && order.Length == 256 && ftab.Length == 65537 && 1 <= h <= i < 256 && IsPerm(order[..], 256)
    requires h == 1 ==> forall x, y :: 0 <= x < y < i ==> InOrder(order[..], BigFreqs(ftab[..]), x, y)
    modifies order
    ensures IsPerm(order[..], 256)
    ensures h == 1 ==> forall x, y :: 0 <= x < y <= i ==> InOrder(order[..], BigFreqs(ftab[..]), x, y)
  {
    hide InOrder;
    ghost var key := BigFreqs(ftab[..]);
    var vv := order[i];
    var j := i;
    assert order[..][i := vv] == order[..];
    while true
      invariant h <= j <= i && Dropping(key, order[..], vv, j, i, h)
      decreases j
    {
      ghost var f := order[..];
      assert f[j := vv][j - h] == f[j - h] && f[j := vv][j] == vv;
      if BigFreq(ftab, order[j - h]) <= BigFreq(ftab, vv) {
        break;
      }
      DroppingStep(key, f, vv, j, i, h);
      order[j] := order[j - h];
      assert order[..] == f[j := f[j - h]];
      j := j - h;
      if j <= h - 1 {
        break;
      }
    }
    ghost var f := order[..];
    order[j] := vv;
    assert order[..] == f[j := vv];
    if h == 1 {
      assert j > 0 ==> order[j - 1] == f[j - 1];
      SinkingDone(order[..], key, 0, j, i);
    }
  }

  /** runningOrder: every first byte once, from the smallest big bucket to the largest. */
  method Order(order: array<int>, ftab: array<int>)
    requires order != ftab && order.Length == 256 && ftab.Length == 65537
    modifies order
    ensures IsPerm(order[..], 256)
    ensures forall x, y :: 0 <= x < y < 256 ==> BigFreqs(ftab[..])[order[x]] <= BigFreqs(ftab[..])[order[y]]
  {
    var i := 0;
    while i <= 255
      invariant 0 <= i <= 256 && forall x :: 0 <= x < i ==> order[x] == x
    {
      order[i] := i;
      i := i + 1;
    }
    var h := 1;
    h := 3 * h + 1;
    while h <= 256
      invariant h in {4, 13, 40, 121, 364}
      decreases 364 - h
    {
      h := 3 * h + 1;
    }
    while true
      invariant h in {4, 13, 40, 121, 364} && IsPerm(order[..], 256)
      decreases h
    {
      h := h / 3;
      i := h;
      while i <= 255
        invariant h <= i <= 256 && IsPerm(order[..], 256)
        invariant h == 1 ==> forall x, y :: 0 <= x < y < i ==> InOrder(order[..], BigFreqs(ftab[..]), x, y)
      {
        Drop(order, ftab, h, i);
        i := i + 1;
      }
      if h == 1 {
        break;
      }
    }
    forall x, y | 0 <= x < y < 256 ensures BigFreqs(ftab[..])[order[x]] <= BigFreqs(ftab[..])[order[y]] {
      assert InOrder(order[..], BigFreqs(ftab[..]), x, y);
    }
  }
}
