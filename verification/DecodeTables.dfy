/** The decoder's tables for one coding table: lengths, limit, base, perm and minLens[t]
    (dep/bzip2/decompress.c:316-335, 84-97). */
module DecodeTables {
  import opened Counting
  import opened CanonicalCodes
  import opened BlockParser

  // ---------- Least and greatest lengths ----------

  lemma LeastIs(l: seq<nat>, m: nat)
    requires l != [] && m in l && forall i :: 0 <= i < |l| ==> m <= l[i]
    ensures Least(l) == m
  {
    hide Least;
  }

  lemma GreatestIs(l: seq<nat>, m: nat)
    requires l != [] && m in l && forall i :: 0 <= i < |l| ==> l[i] <= m
    ensures Greatest(l) == m
  {
    hide Greatest;
  }

  // ---------- Looking a code up ----------

  /** Where the search for a code stands: zn bits, beyond the codes that are shorter. */
  ghost predicate Reached(l: seq<nat>, zn: nat, zvec: nat)
    requires Lengths(l)
  {
    && Least(l) <= zn <= LONGEST + 1
    && (zn > Least(l) ==> TableOf(l).limit[zn - 1] < zvec / 2)
  }

  lemma ReachedBeyond(l: seq<nat>, zn: nat, zvec: nat)
    requires Lengths(l) && Reached(l, zn, zvec)
    ensures zn <= Greatest(l) ==> Beyond(l, zn, zvec)
    ensures zn > Greatest(l) ==> zvec >= 1
  {
    hide FirstCode, CountEq, CountLess, Least, Greatest, LastCode;
    TableOfIsTables(l);
    var hi := Greatest(l);
    if zn == Least(l) {
      NoShorter(l, Least(l), zn);
      assert FirstCode(l, zn) == 0;
    } else {
      var z, b := zvec / 2, zvec % 2 == 1;
      if zn <= hi {
        BeyondNext(l, zn - 1, z, b);
      } else if zn - 1 == hi {
        LastCodeIsNatural(l, Least(l), hi);
      }
    }
  }

  /** Any tables made for a length vector answer like the ones that define its meaning. */
  lemma LookupAgrees(l: seq<nat>, t: Tables, zn: nat, zvec: nat)
    requires Lengths(l) && TablesFor(l, Greatest(l), t) && Reached(l, zn, zvec) && zn <= LONGEST
    requires t.minLen == Least(l)
    ensures |t.limit| == |t.base| == |t.perm| == MAX_ALPHA
    ensures zvec <= t.limit[zn] <==> zvec <= TableOf(l).limit[zn]
    ensures zvec <= t.limit[zn] ==>
      && zvec - t.base[zn] == zvec - TableOf(l).base[zn] && 0 <= zvec - t.base[zn] < |l|
      && t.perm[zvec - t.base[zn]] == TableOf(l).perm[zvec - t.base[zn]] && 0 <= t.perm[zvec - t.base[zn]] < |l|
  {
    hide FirstCode, CountEq, CountLess, Least, Greatest, LastCode, Reached, TableOf, Beyond, Code;
    TableOfIsTables(l);
    ReachedBeyond(l, zn, zvec);
    ReachedRange(l, zn, zvec);
    var hi := Greatest(l);
    if zn <= hi {
      if zvec <= t.limit[zn] {
        var i := Hit(l, hi, t, zn, zvec);
        var j := Hit(l, hi, TableOf(l), zn, zvec);
        if i < j { SameLengthApart(l, i, j); } else if j < i { SameLengthApart(l, j, i); }
      }
    }
  }

  lemma ReachedRange(l: seq<nat>, zn: nat, zvec: nat)
    requires Lengths(l) && Reached(l, zn, zvec)
    ensures Least(l) <= zn
  {
  }

  // ---------- The arrays ----------

  class CodeTable {
    const len: array<nat>
    const limit: array<int>
    const base: array<int>
    const perm: array<int>
    var minLen: nat
    ghost const Repr: set<object>

    ghost predicate Valid() {
      && Repr == {this, len as object, limit as object, base as object, perm as object}
      && limit != base && limit != perm && base != perm
      && len as object !in {limit as object, base as object, perm as object}
      && len.Length == limit.Length == base.Length == perm.Length == MAX_ALPHA
    }

    /** The tables are those of this length vector. */
    ghost predicate Ready(l: seq<nat>)
      reads this`minLen, len, limit, base, perm
    {
      && Valid() && Lengths(l) && len[..|l|] == l && minLen == Least(l)
      && TablesFor(l, Greatest(l), Tables(minLen, limit[..], base[..], perm[..]))
    }

    constructor ()
      ensures Valid() && fresh(Repr)
    {
      var l := new nat[MAX_ALPHA];
      var m, b, p := new int[MAX_ALPHA], new int[MAX_ALPHA], new int[MAX_ALPHA];
      len, limit, base, perm, minLen := l, m, b, p, 0;
      Repr := {this, l as object, m as object, b as object, p as object};
    }

    /** The shortest and longest code, then BZ2_hbCreateDecodeTables. */
    method Build(alphaSize: nat)
      requires Valid() && alphaSize <= MAX_ALPHA && Lengths(len[..alphaSize])
      modifies this`minLen, limit, base, perm
      ensures Ready(len[..alphaSize])
    {
      hide TablesFor, Least, Greatest;
      ghost var l := len[..alphaSize];
      var lo, hi := 32, 0;
      var i := 0;
      while i < alphaSize
        invariant 0 <= i <= alphaSize && lo <= 32
        invariant if i == 0 then lo == 32 && hi == 0 else lo in l && hi in l
        invariant forall k :: 0 <= k < i ==> lo <= len[k] <= hi
      {
        assert len[i] == l[i];
        if len[i] > hi {
          hi := len[i];
        }
        if len[i] < lo {
          lo := len[i];
        }
        i := i + 1;
      }
      LeastIs(l, lo);
      GreatestIs(l, hi);
      CreateDecodeTables(limit, base, perm, len, lo, hi, alphaSize);
      minLen := lo;
    }
  }

  method NewTables(n: nat) returns (ts: seq<CodeTable>, ghost repr: set<object>)
    ensures |ts| == n && fresh(repr)
    ensures forall k :: 0 <= k < n ==> ts[k].Valid() && ts[k].Repr <= repr
    ensures forall k, l :: 0 <= k < l < n ==> ts[k].Repr !! ts[l].Repr
  {
    ts, repr := [], {};
    while |ts| < n
      invariant |ts| <= n && fresh(repr)
      invariant forall k :: 0 <= k < |ts| ==> ts[k].Valid() && ts[k].Repr <= repr
      invariant forall k, l :: 0 <= k < l < |ts| ==> ts[k].Repr !! ts[l].Repr
    {
      var t := new CodeTable();
      ts, repr := ts + [t], repr + t.Repr;
    }
  }
}
