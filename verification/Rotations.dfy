/** Bytes, permutations, and the order of the rotations of a block.

    Everything the block sorter and its inverse promise is stated over the rotation
    strings of the block, not over indices: a periodic block has several equal rotations. */
module Rotations {

  type byte = x: int | 0 <= x < 256

  /** The signed 32-bit numbers of the source. */
  const INT_MAX := 0x7fff_ffff

  type Int32 = x: int | -0x8000_0000 <= x <= 0x7fff_ffff

  // ---------- Permutations of 0..n-1 ----------

  ghost predicate IsPerm(p: seq<int>, n: nat) {
    && |p| == n
    && (forall i :: 0 <= i < n ==> 0 <= p[i] < n)
    && (forall i, j :: 0 <= i < j < n ==> p[i] != p[j])
  }

  ghost function Range(n: nat): (s: set<int>)
    ensures forall x :: x in s <==> 0 <= x < n
    ensures |s| == n
  {
    if n == 0 then {} else Range(n - 1) + {n - 1}
  }

  ghost function Elements(p: seq<int>): (s: set<int>)
    ensures forall x :: x in s <==> x in p
  {
    set x | x in p
  }

  lemma DistinctCardinality(p: seq<int>)
    requires forall i, j :: 0 <= i < j < |p| ==> p[i] != p[j]
    ensures |Elements(p)| == |p|
  {
    if p != [] {
      var q := p[..|p| - 1];
      DistinctCardinality(q);
      assert Elements(p) == Elements(q) + {p[|p| - 1]};
      assert p[|p| - 1] !in q;
    }
  }

  lemma SubsetCardinality(a: set<int>, b: set<int>)
    requires a <= b
    ensures |a| <= |b|
  {
    assert b == a + (b - a);
    assert |a + (b - a)| == |a| + |b - a|;
  }

  lemma SubsetSameSize(a: set<int>, b: set<int>, v: int)
    requires a <= b && |a| == |b| && v in b
    ensures v in a
  {
    if v !in a {
      SubsetCardinality(a, b - {v});
    }
  }

  /** A permutation of 0..n-1 hits every value. */
  lemma PermOnto(p: seq<int>, n: nat, v: int) returns (i: nat)
    requires IsPerm(p, n) && 0 <= v < n
    ensures i < n && p[i] == v
  {
    DistinctCardinality(p);
    SubsetSameSize(Elements(p), Range(n), v);
    i :| 0 <= i < |p| && p[i] == v;
  }

  // ---------- Rotations ----------

  /** The position `h` characters after `i`, cyclically. */
  function Adv(n: nat, i: int, h: nat): (r: nat)
    requires 0 <= i && 0 < n
    ensures r < n
  {
    (i + h) % n
  }

  lemma ModUnique(x: int, n: int, q: int, r: int)
    requires 0 < n && 0 <= r < n && x == q * n + r
    ensures x % n == r && x / n == q
  {
    var q', r' := x / n, x % n;
    assert x == q' * n + r' && 0 <= r' < n;
    if q > q' {
      MulGap(q', q, n);
    } else if q < q' {
      MulGap(q, q', n);
    }
  }

  lemma MulGap(a: int, b: int, n: int)
    requires a < b && 0 < n
    ensures a * n + n <= b * n
  {
    var k := b - a - 1;
    assert b == a + 1 + k;
    assert b * n == a * n + n + k * n;
    assert k * n >= 0;
  }

  lemma AdvAdd(n: nat, i: int, g: nat, h: nat)
    requires 0 <= i && 0 < n
    ensures Adv(n, Adv(n, i, g), h) == Adv(n, i, g + h)
  {
    var q, r := (i + g) / n, (i + g) % n;
    var q', r' := (r + h) / n, (r + h) % n;
    assert i + g + h == (q + q') * n + r' by {
      assert i + g == q * n + r && r + h == q' * n + r';
      assert (q + q') * n == q * n + q' * n;
    }
    ModUnique(i + g + h, n, q + q', r');
  }

  lemma AdvSmall(n: nat, i: int, h: nat)
    requires 0 <= i < n && h <= n
    ensures Adv(n, i, h) == if i + h < n then i + h else i + h - n
  {
    if i + h < n {
      ModUnique(i + h, n, 0, i + h);
    } else {
      ModUnique(i + h, n, 1, i + h - n);
    }
  }

  /** The first `k` characters read cyclically from position `i`. */
  function Text(b: seq<byte>, i: int, k: nat): (s: seq<byte>)
    requires 0 <= i < |b|
    ensures |s| == k
    decreases k
  {
    if k == 0 then [] else [b[i]] + Text(b, Adv(|b|, i, 1), k - 1)
  }

  /** Rotation `i` of the block, as a string. */
  function Rotation(b: seq<byte>, i: int): (s: seq<byte>)
    requires 0 <= i < |b|
  {
    b[i..] + b[..i]
  }

  lemma {:induction false} TextAt(b: seq<byte>, i: int, k: nat, t: nat)
    requires 0 <= i < |b| && t < k
    ensures Text(b, i, k)[t] == b[Adv(|b|, i, t)]
    decreases k
  {
    if t == 0 {
      AdvSmall(|b|, i, 0);
    } else {
      TextAt(b, Adv(|b|, i, 1), k - 1, t - 1);
      AdvAdd(|b|, i, 1, t - 1);
    }
  }

  lemma TextIsRotation(b: seq<byte>, i: int)
    requires 0 <= i < |b|
    ensures Text(b, i, |b|) == Rotation(b, i)
  {
    forall t | 0 <= t < |b| ensures Text(b, i, |b|)[t] == Rotation(b, i)[t] {
      TextAt(b, i, |b|, t);
      AdvSmall(|b|, i, t);
    }
  }

  lemma {:induction false} TextSplit(b: seq<byte>, i: int, g: nat, h: nat)
    requires 0 <= i < |b|
    ensures Text(b, i, g + h) == Text(b, i, g) + Text(b, Adv(|b|, i, g), h)
    decreases g
  {
    if g == 0 {
      AdvSmall(|b|, i, 0);
    } else {
      TextSplit(b, Adv(|b|, i, 1), g - 1, h);
      AdvAdd(|b|, i, 1, g - 1);
      assert [b[i]] + (Text(b, Adv(|b|, i, 1), g - 1) + Text(b, Adv(|b|, i, g), h))
          == [b[i]] + Text(b, Adv(|b|, i, 1), g - 1) + Text(b, Adv(|b|, i, g), h);
    }
  }

  // ---------- Lexicographic order ----------

  /** Three-way comparison of two strings of the same length; only its sign matters. */
  function Lex(s: seq<byte>, t: seq<byte>): int
    requires |s| == |t|
  {
    if s == [] then 0
    else if s[0] != t[0] then s[0] - t[0]
    else Lex(s[1..], t[1..])
  }

  lemma {:induction false} LexFlip(s: seq<byte>, t: seq<byte>)
    requires |s| == |t|
    ensures Lex(s, t) == -Lex(t, s)
  {
    if s != [] {
      LexFlip(s[1..], t[1..]);
    }
  }

  lemma {:induction false} LexTransitive(s: seq<byte>, t: seq<byte>, u: seq<byte>)
    requires |s| == |t| == |u|
    requires Lex(s, t) <= 0 && Lex(t, u) <= 0
    ensures Lex(s, u) <= 0
    ensures Lex(s, t) < 0 || Lex(t, u) < 0 ==> Lex(s, u) < 0
  {
    if s != [] && s[0] == t[0] == u[0] {
      LexTransitive(s[1..], t[1..], u[1..]);
    }
  }

  lemma {:induction false} LexConcat(s: seq<byte>, t: seq<byte>, s': seq<byte>, t': seq<byte>)
    requires |s| == |t| && |s'| == |t'|
    ensures Lex(s + s', t + t') == if Lex(s, t) != 0 then Lex(s, t) else Lex(s', t')
  {
    if s == [] {
      assert s + s' == s' && t + t' == t';
    } else {
      LexConcat(s[1..], t[1..], s', t');
      assert (s + s')[1..] == s[1..] + s' && (t + t')[1..] == t[1..] + t';
    }
  }

  /** Comparison of the first `k` characters of the rotations at `i` and `j`. */
  ghost function Cmp(b: seq<byte>, i: int, j: int, k: nat): int
    requires 0 <= i < |b| && 0 <= j < |b|
  {
    Lex(Text(b, i, k), Text(b, j, k))
  }

  /** Prefix doubling: the first g+h characters compare by the first g, then the next h. */
  lemma CmpSplit(b: seq<byte>, i: int, j: int, g: nat, h: nat)
    requires 0 <= i < |b| && 0 <= j < |b|
    ensures Cmp(b, i, j, g + h)
         == if Cmp(b, i, j, g) != 0 then Cmp(b, i, j, g)
            else Cmp(b, Adv(|b|, i, g), Adv(|b|, j, g), h)
  {
    TextSplit(b, i, g, h);
    TextSplit(b, j, g, h);
    LexConcat(Text(b, i, g), Text(b, j, g), Text(b, Adv(|b|, i, g), h), Text(b, Adv(|b|, j, g), h));
  }

  lemma CmpFlip(b: seq<byte>, i: int, j: int, k: nat)
    requires 0 <= i < |b| && 0 <= j < |b|
    ensures Cmp(b, i, j, k) == -Cmp(b, j, i, k)
  {
    LexFlip(Text(b, i, k), Text(b, j, k));
  }

  lemma CmpTransitive(b: seq<byte>, i: int, j: int, l: int, k: nat)
    requires 0 <= i < |b| && 0 <= j < |b| && 0 <= l < |b|
    requires Cmp(b, i, j, k) <= 0 && Cmp(b, j, l, k) <= 0
    ensures Cmp(b, i, l, k) <= 0
    ensures Cmp(b, i, j, k) < 0 || Cmp(b, j, l, k) < 0 ==> Cmp(b, i, l, k) < 0
  {
    LexTransitive(Text(b, i, k), Text(b, j, k), Text(b, l, k));
  }

  lemma CmpOne(b: seq<byte>, i: int, j: int)
    requires 0 <= i < |b| && 0 <= j < |b|
    ensures Cmp(b, i, j, 1) < 0 <==> b[i] < b[j]
    ensures Cmp(b, i, j, 1) == 0 <==> b[i] == b[j]
  {
    var s, t := Text(b, i, 1), Text(b, j, 1);
    assert s[0] == b[i] && t[0] == b[j];
    assert Lex(s[1..], t[1..]) == 0;
  }

  /** Comparing more characters than the block has tells nothing new. */
  lemma CmpBeyond(b: seq<byte>, i: int, j: int, k: nat)
    requires 0 <= i < |b| && 0 <= j < |b| && |b| <= k
    ensures Cmp(b, i, j, k) == Cmp(b, i, j, |b|)
    decreases k
  {
    var n := |b|;
    CmpSplit(b, i, j, n, k - n);
    if Cmp(b, i, j, n) == 0 {
      AdvSmall(n, i, n);
      AdvSmall(n, j, n);
      if k - n >= n {
        CmpBeyond(b, i, j, k - n);
      } else {
        CmpSplit(b, i, j, k - n, n - (k - n));
      }
    }
  }

  /** `p` lists the rotations of `b` in lexicographic order (equal ones in any order). */
  ghost predicate InRotationOrder(b: seq<byte>, p: seq<int>) {
    && IsPerm(p, |b|)
    && forall x, y :: 0 <= x < y < |b| ==> Cmp(b, p[x], p[y], |b|) <= 0
  }
}
