/** The run-length layer between input bytes and block bytes: four equal bytes are followed by
    a count of up to 251 more (dep/bzip2/bzlib.c:206-277, 510-767). */
module RunLength {
  import opened Rotations

  function Repeat(x: byte, k: nat): (s: seq<byte>)
    ensures |s| == k && forall i :: 0 <= i < k ==> s[i] == x
  {
    seq(k, i => x)
  }

  lemma RepeatSplit(x: byte, j: nat, k: nat)
    ensures Repeat(x, j + k) == Repeat(x, j) + Repeat(x, k)
  {
  }

  // ---------- What a block of bytes expands to ----------

  datatype Expansion = Expansion(bytes: seq<byte>, corrupt: bool)

  /** How many equal bytes a block starts with, four at most. */
  function Lead(s: seq<byte>): (k: nat)
    requires s != []
    ensures 1 <= k <= 4 && k <= |s|
    ensures forall i :: 0 <= i < k ==> s[i] == s[0]
    ensures k < 4 && k < |s| ==> s[k] != s[0]
  {
    if |s| == 1 || s[1] != s[0] then 1
    else if |s| == 2 || s[2] != s[0] then 2
    else if |s| == 3 || s[3] != s[0] then 3
    else 4
  }

  /** The bytes a block stands for.  It is corrupt exactly when it ends between four equal
      bytes and their count. */
  function UnRle(s: seq<byte>): Expansion
    decreases |s|
  {
    if s == [] then Expansion([], false)
    else
      var k := Lead(s);
      if k < 4 then Prepend(s[0], k, UnRle(s[k..]))
      else if |s| == 4 then Expansion(Repeat(s[0], 4), true)
      else Prepend(s[0], s[4] as int + 4, UnRle(s[5..]))
  }

  function Prepend(x: byte, k: nat, e: Expansion): Expansion {
    Expansion(Repeat(x, k) + e.bytes, e.corrupt)
  }

  // ---------- One run, as the encoder writes it ----------

  /** add_pair_to_block for a run of 1..255. */
  function Pair(ch: byte, len: nat): (s: seq<byte>)
    requires 1 <= len <= 255
  {
    if len < 4 then Repeat(ch, len) else Repeat(ch, 4) + [len - 4]
  }

  /** A run decodes to itself, provided a short one is followed by a different byte. */
  lemma PairDecodes(ch: byte, len: nat, rest: seq<byte>)
    requires 1 <= len <= 255
    requires len < 4 && rest != [] ==> rest[0] != ch
    ensures UnRle(Pair(ch, len) + rest) == Prepend(ch, len, UnRle(rest))
  {
    var s := Pair(ch, len) + rest;
    if len < 4 {
      assert Lead(s) == len;
      assert s[len..] == rest;
    } else {
      assert Lead(s) == 4 && s[4] == len - 4;
      assert s[5..] == rest;
    }
  }

  // ---------- The reader's view: a stream with look-ahead ----------

  /** The decoder has fetched `u` bytes, the last of them the first of the next run.  The
      stream holds the n bytes of the block and two more that a reader may run into. */
  ghost predicate Stream(d: seq<byte>, n: nat) { |d| == n + 2 }

  /** Length of the next run and the number of bytes fetched after it. */
  ghost function NextRun(d: seq<byte>, n: nat, u: nat): (r: (nat, nat))
    requires Stream(d, n) && 1 <= u <= n
    ensures u < r.1 <= n + 2 && 1 <= r.0
  {
    if u + 1 == n + 1 || d[u] != d[u - 1] then (1, u + 1)
    else if u + 2 == n + 1 || d[u + 1] != d[u - 1] then (2, u + 2)
    else if u + 3 == n + 1 || d[u + 2] != d[u - 1] then (3, u + 3)
    else (d[u + 3] as int + 4, u + 5)
  }

  /** What is still to come when u bytes have been fetched. */
  ghost function Coming(d: seq<byte>, n: nat, u: nat): Expansion
    requires Stream(d, n) && 1 <= u <= n + 2
    decreases n + 2 - u
  {
    if u > n + 1 then Expansion([], true)
    else if u == n + 1 then Expansion([], false)
    else Prepend(d[u - 1], NextRun(d, n, u).0, Coming(d, n, NextRun(d, n, u).1))
  }

  /** The reader's view is the block's expansion; only on a corrupt block, whose last count is
      missing, may bytes past its end be taken for one. */
  lemma {:induction false} ComingIsUnRle(d: seq<byte>, n: nat, u: nat)
    requires Stream(d, n) && 1 <= u <= n + 1
    ensures Coming(d, n, u).corrupt == UnRle(d[u - 1..n]).corrupt
    ensures !UnRle(d[u - 1..n]).corrupt ==> Coming(d, n, u) == UnRle(d[u - 1..n])
    ensures UnRle(d[u - 1..n]).bytes <= Coming(d, n, u).bytes
    decreases n + 2 - u
  {
    hide NextRun, Lead, Repeat;
    if u <= n {
      var s := d[u - 1..n];
      var r := NextRun(d, n, u);
      RunMatches(d, n, u);
      if Lead(s) < 4 {
        assert s[Lead(s)..] == d[r.1 - 1..n];
        ComingIsUnRle(d, n, r.1);
      } else if |s| == 4 {
        RepeatSplit(s[0], 4, r.0 - 4);
        assert Coming(d, n, u + 5) == Expansion([], true);
      } else {
        assert s[5..] == d[r.1 - 1..n];
        ComingIsUnRle(d, n, r.1);
      }
    }
  }

  lemma RunMatches(d: seq<byte>, n: nat, u: nat)
    requires Stream(d, n) && 1 <= u <= n
    ensures var s, r := d[u - 1..n], NextRun(d, n, u);
      && s[0] == d[u - 1] && |s| == n + 1 - u
      && (Lead(s) < 4 ==> r == (Lead(s), u + Lead(s)))
      && (Lead(s) == 4 ==> 4 <= r.0 && r.1 == u + 5)
      && (Lead(s) == 4 && |s| > 4 ==> r.0 == s[4] as int + 4)
  {
  }
}
