/** Which length vectors belong to prefix codes, and why merging the two lightest items is
    never worse than anything else. */
module PrefixCodes {
  import opened Powers

  /** Every length is at most `top`. */
  ghost predicate Bounded(len: seq<nat>, top: nat) {
    forall i :: 0 <= i < |len| ==> len[i] <= top
  }

  /** The Kraft sum, in units of 2^-top. */
  ghost function Kraft(len: seq<nat>, top: nat): (k: nat)
    requires Bounded(len, top)
  {
    if len == [] then 0 else Kraft(len[..|len| - 1], top) + Pow2(top - len[|len| - 1])
  }

  /** The lengths of some prefix code: the Kraft sum is at most one. */
  ghost predicate IsCode(len: seq<nat>, top: nat) {
    Bounded(len, top) && Kraft(len, top) <= Pow2(top)
  }

  /** Weighted length. */
  ghost function Cost(w: seq<nat>, len: seq<nat>): (c: nat)
    requires |w| == |len|
  {
    if w == [] then 0 else Cost(w[..|w| - 1], len[..|len| - 1]) + w[|w| - 1] * len[|len| - 1]
  }

  // ---------- Appending and exchanging ----------

  lemma {:induction false} KraftConcat(a: seq<nat>, b: seq<nat>, top: nat)
    requires Bounded(a, top) && Bounded(b, top)
    ensures Bounded(a + b, top) && Kraft(a + b, top) == Kraft(a, top) + Kraft(b, top)
  {
    if b == [] {
      assert a + b == a;
    } else {
      KraftConcat(a, b[..|b| - 1], top);
      assert (a + b)[..|a + b| - 1] == a + b[..|b| - 1];
    }
  }

  lemma {:induction false} CostConcat(w: seq<nat>, a: seq<nat>, v: seq<nat>, b: seq<nat>)
    requires |w| == |a| && |v| == |b|
    ensures Cost(w + v, a + b) == Cost(w, a) + Cost(v, b)
  {
    if b == [] {
      assert a + b == a && w + v == w;
    } else {
      CostConcat(w, a, v[..|v| - 1], b[..|b| - 1]);
      assert (a + b)[..|a + b| - 1] == a + b[..|b| - 1];
      assert (w + v)[..|w + v| - 1] == w + v[..|v| - 1];
    }
  }

  lemma KraftOne(x: nat, top: nat)
    requires x <= top
    ensures Bounded([x], top) && Kraft([x], top) == Pow2(top - x)
  {
    assert [x][..0] == [];
  }

  lemma CostOne(w: nat, x: nat)
    ensures Cost([w], [x]) == w * x
  {
    assert [w][..0] == [] && [x][..0] == [];
  }

  /** Replacing one entry changes the sums by the difference. */
  lemma {:induction false} Replace(w: seq<nat>, len: seq<nat>, top: nat, i: nat, x: nat)
    requires |w| == |len| && Bounded(len, top) && i < |len| && x <= top
    ensures Bounded(len[i := x], top)
    ensures Kraft(len[i := x], top) + Pow2(top - len[i]) == Kraft(len, top) + Pow2(top - x)
    ensures Cost(w, len[i := x]) + w[i] * len[i] == Cost(w, len) + w[i] * x
  {
    var n := |len|;
    if i == n - 1 {
      assert len[i := x][..n - 1] == len[..n - 1];
    } else {
      Replace(w[..n - 1], len[..n - 1], top, i, x);
      assert len[i := x][..n - 1] == len[..n - 1][i := x];
    }
  }

  /** Exchanging a longer code onto a lighter item does not raise the cost. */
  lemma Exchange(w: seq<nat>, len: seq<nat>, top: nat, i: nat, j: nat) returns (len': seq<nat>)
    requires |w| == |len| && Bounded(len, top) && i < |len| && j < |len|
    requires w[j] <= w[i] && len[j] <= len[i]
    ensures |len'| == |len| && len' == len[i := len[j]][j := len[i]]
    ensures Bounded(len', top) && Kraft(len', top) == Kraft(len, top)
    ensures Cost(w, len') <= Cost(w, len)
  {
    hide Kraft, Cost;
    len' := len[i := len[j]][j := len[i]];
    if i == j {
      assert len' == len;
    } else {
      Replace(w, len, top, i, len[j]);
      Replace(w, len[i := len[j]], top, j, len[i]);
      Rearrangement(w[i], w[j], len[i], len[j]);
    }
  }

  lemma Rearrangement(a: nat, b: nat, x: nat, y: nat)
    requires b <= a && y <= x
    ensures a * y + b * x <= a * x + b * y
  {
    assert a * x + b * y - (a * y + b * x) == (a - b) * (x - y);
    assert (a - b) * (x - y) >= 0;
  }

  lemma {:induction false} LongestIndex(len: seq<nat>) returns (m: nat)
    requires len != []
    ensures m < |len| && forall i :: 0 <= i < |len| ==> len[i] <= len[m]
  {
    m := 0;
    var k := 1;
    while k < |len|
      invariant 1 <= k <= |len| && m < k
      invariant forall i :: 0 <= i < k ==> len[i] <= len[m]
    {
      if len[m] < len[k] {
        m := k;
      }
      k := k + 1;
    }
  }

  // ---------- Shortening a lone longest code ----------

  lemma {:induction false} KraftMultiple(len: seq<nat>, top: nat, b: nat) returns (q: nat)
    requires b <= top && Bounded(len, b)
    ensures Bounded(len, top) && Kraft(len, top) == q * Pow2(top - b)
  {
    hide Pow2;
    if len == [] {
      q := 0;
    } else {
      var x := len[|len| - 1];
      var q' := KraftMultiple(len[..|len| - 1], top, b);
      Pow2Add(b - x, top - b);
      assert b - x + (top - b) == top - x;
      q := q' + Pow2(b - x);
      Distribute(q', Pow2(b - x), Pow2(top - b));
    }
  }

  /** If all but one length are at most b, the last may be shortened to b as well. */
  lemma Shorten(len: seq<nat>, a: nat, b: nat, top: nat)
    requires b <= a <= top && Bounded(len, b)
    requires Bounded(len, top) && Kraft(len, top) + Pow2(top - a) <= Pow2(top)
    ensures Kraft(len, top) + Pow2(top - b) <= Pow2(top)
  {
    var u := Pow2(top - b);
    var q := KraftMultiple(len, top, b);
    Pow2Add(b, top - b);
    var n := Pow2(b);
    assert q * u < n * u;
    if q >= n {
      MulMonotone(n, q, u);
    }
    MulMonotone(q + 1, n, u);
    assert (q + 1) * u == q * u + u;
  }

  // ---------- One merge ----------

  /** From any code for rest + [x, y], with y and x the two lightest, a code for rest + [x+y]
      that saves at least x + y. */
  lemma MergeTwo(rest: seq<nat>, x: nat, y: nat, len: seq<nat>, top: nat) returns (len': seq<nat>)
    requires y <= x && forall i :: 0 <= i < |rest| ==> x <= rest[i]
    requires |len| == |rest| + 2 && IsCode(len, top)
    ensures |len'| == |rest| + 1 && IsCode(len', top)
    ensures Cost(rest + [x + y], len') + x + y <= Cost(rest + [x, y], len)
  {
    var n := |len|;
    var w := rest + [x, y];
    var m := LongestIndex(len);
    var l1 := Exchange(w, len, top, m, n - 1);
    var m2 := LongestIndex(l1[..n - 1]);
    var l2 := Exchange(w, l1, top, m2, n - 2);
    var a, b := l2[n - 1], l2[n - 2];
    assert forall i :: 0 <= i < n - 1 ==> l2[i] <= b;
    assert b <= a;
    len' := FinishMerge(rest, x, y, l2, a, b, top);
  }

  lemma FinishMerge(rest: seq<nat>, x: nat, y: nat, l2: seq<nat>, a: nat, b: nat, top: nat) returns (len': seq<nat>)
    requires |l2| == |rest| + 2 && IsCode(l2, top)
    requires a == l2[|l2| - 1] && b == l2[|l2| - 2] && b <= a
    requires forall i :: 0 <= i < |l2| - 1 ==> l2[i] <= b
    ensures |len'| == |rest| + 1 && IsCode(len', top)
    ensures Cost(rest + [x + y], len') + x + y <= Cost(rest + [x, y], l2)
  {
    hide Kraft, Cost, Pow2;
    var head := l2[..|l2| - 2];
    assert l2 == head + [b] + [a];
    assert Bounded(head + [b], b);
    KraftOne(a, top);
    KraftOne(b, top);
    KraftConcat(head, [b], top);
    KraftConcat(head + [b], [a], top);
    Shorten(head + [b], a, b, top);
    Halve(b, top);
    KraftOne(b - 1, top);
    KraftConcat(head, [b - 1], top);
    len' := head + [b - 1];
    MergedCost(rest, x, y, head, a, b);
  }

  /** Two codes of length b make up one of length b - 1. */
  lemma Halve(b: nat, top: nat)
    requires b <= top && 2 * Pow2(top - b) <= Pow2(top)
    ensures 1 <= b && Pow2(top - (b - 1)) == 2 * Pow2(top - b)
  {
  }

  lemma MergedCost(rest: seq<nat>, x: nat, y: nat, head: seq<nat>, a: nat, b: nat)
    requires |head| == |rest| && 1 <= b <= a
    ensures Cost(rest + [x + y], head + [b - 1]) + x + y <= Cost(rest + [x, y], head + [b] + [a])
  {
    hide Cost;
    CostOne(x, b);
    CostOne(y, a);
    CostOne(x + y, b - 1);
    assert rest + [x, y] == rest + [x] + [y];
    CostConcat(rest, head, [x], [b]);
    CostConcat(rest + [x], head + [b], [y], [a]);
    CostConcat(rest, head, [x + y], [b - 1]);
    MergeArithmetic(x, y, a, b);
  }

  lemma MergeArithmetic(x: nat, y: nat, a: nat, b: nat)
    requires 1 <= b <= a
    ensures (x + y) * (b - 1) + x + y <= x * b + y * a
  {
    assert (x + y) * (b - 1) + x + y == (x + y) * b == x * b + y * b;
    MulMonotone(b, a, y);
  }
}
