/** The refinement passes of sendMTFValues (dep/bzip2/compress.c:297-439): each group of fifty
    symbols takes the table that codes it cheapest, and the tables are made anew from the
    symbols they got. */
module TableChoice {
  import opened Powers
  import opened CanonicalCodes
  import opened BlockFormat
  import opened PrefixCodes
  import opened HuffmanForest
  import opened HuffmanLengths
  import opened HuffmanMerge
  import MtfEncoder
  import BlockWriter

  // ---------- Frequencies ----------

  lemma {:induction false} TotalPut(s: seq<nat>, v: nat, x: nat)
    requires v < |s|
    ensures Total(s[v := x]) + s[v] == Total(s) + x
  {
    var n := |s| - 1;
    if v < n {
      TotalPut(s[..n], v, x);
      assert s[v := x][..n] == s[..n][v := x];
    } else {
      assert s[v := x][..n] == s[..n];
    }
  }

  lemma {:induction false} TotalFloored(freq: seq<nat>)
    ensures Total(Floored(freq)) <= Total(freq) + |freq|
  {
    if freq != [] {
      var n := |freq| - 1;
      TotalFloored(freq[..n]);
      assert Floored(freq)[..n] == Floored(freq[..n]);
    }
  }

  lemma {:induction false} TotalZero(s: seq<nat>)
    requires forall i :: 0 <= i < |s| ==> s[i] == 0
    ensures Total(s) == 0
  {
    if s != [] {
      TotalZero(s[..|s| - 1]);
    }
  }

  // ---------- Costs ----------

  /** The bits it takes to code symbols lo..hi-1 with these lengths. */
  ghost function GroupCost(len: seq<nat>, syms: seq<int>, lo: nat, hi: nat): (c: nat)
    requires lo <= hi <= |syms| && Symbols(syms, |len|)
  {
    if lo == hi then 0 else GroupCost(len, syms, lo, hi - 1) + len[syms[hi - 1]]
  }

  ghost predicate Symbols(syms: seq<int>, alphaSize: nat) {
    forall i :: 0 <= i < |syms| ==> 0 <= syms[i] < alphaSize
  }

  /** Lengths that a 16-bit group cost can hold. */
  ghost predicate Short(len: seq<array<nat>>, alphaSize: nat)
    requires Rows(len) && alphaSize <= MAX_ALPHA
    reads set t | 0 <= t < |len| :: len[t]
  {
    forall t, v :: 0 <= t < |len| && 0 <= v < alphaSize ==> len[t][v] <= LONGEST
  }

  /** The arrays of the tables. */
  ghost predicate Rows(a: seq<array<nat>>) {
    2 <= |a| <= 6 && forall t :: 0 <= t < |a| ==> a[t].Length == MAX_ALPHA
  }

  lemma WiderSymbols(syms: seq<int>, n: nat, m: nat)
    requires Symbols(syms, n) && n <= m
    ensures Symbols(syms, m)
  {
  }

  method CostOf(len: array<nat>, mtfv: array<int>, nMTF: nat, gs: nat, ge: nat, alphaSize: nat) returns (cost: nat)
    requires gs <= ge < nMTF <= 2 * mtfv.Length && len.Length == MAX_ALPHA && alphaSize <= MAX_ALPHA
    requires Symbols(MtfEncoder.Halves(mtfv[..], nMTF), alphaSize)
      && Symbols(MtfEncoder.Halves(mtfv[..], nMTF), MAX_ALPHA)
    requires ge < gs + GROUP && forall v :: 0 <= v < alphaSize ==> len[v] <= LONGEST
    ensures cost == GroupCost(len[..], MtfEncoder.Halves(mtfv[..], nMTF), gs, ge + 1)
    ensures cost < 0x1_0000
  {
    cost := 0;
    var i := gs;
    while i <= ge
      invariant gs <= i <= ge + 1 && cost <= LONGEST * (i - gs)
      invariant cost == GroupCost(len[..], MtfEncoder.Halves(mtfv[..], nMTF), gs, i)
    {
      var icv := BlockWriter.Half(mtfv, i, nMTF);
      cost := cost + len[icv];
      i := i + 1;
    }
  }

  /** The first table that codes symbols gs..ge at the least cost. */
  method Cheapest(len: seq<array<nat>>, mtfv: array<int>, nMTF: nat, gs: nat, ge: nat, alphaSize: nat) returns (bt: nat)
    requires Rows(len) && gs <= ge < nMTF <= 2 * mtfv.Length && alphaSize <= MAX_ALPHA
    requires Symbols(MtfEncoder.Halves(mtfv[..], nMTF), alphaSize) && ge < gs + GROUP && Short(len, alphaSize)
    ensures bt < |len| && Symbols(MtfEncoder.Halves(mtfv[..], nMTF), MAX_ALPHA)
    ensures forall t :: 0 <= t < |len| ==>
      GroupCost(len[bt][..], MtfEncoder.Halves(mtfv[..], nMTF), gs, ge + 1)
      <= GroupCost(len[t][..], MtfEncoder.Halves(mtfv[..], nMTF), gs, ge + 1)
  {
    hide GroupCost, Symbols;
    WiderSymbols(MtfEncoder.Halves(mtfv[..], nMTF), alphaSize, MAX_ALPHA);
    var bc := CostOf(len[0], mtfv, nMTF, gs, ge, alphaSize);
    bt := 0;
    var t := 1;
    while t < |len|
      invariant 1 <= t <= |len| && bt < t
      invariant bc == GroupCost(len[bt][..], MtfEncoder.Halves(mtfv[..], nMTF), gs, ge + 1)
      invariant forall k :: 0 <= k < t ==> bc <= GroupCost(len[k][..], MtfEncoder.Halves(mtfv[..], nMTF), gs, ge + 1)
    {
      var cost := CostOf(len[t], mtfv, nMTF, gs, ge, alphaSize);
      if cost < bc {
        bc, bt := cost, t;
      }
      t := t + 1;
    }
  }

  // ---------- One pass ----------

  /** The positions below n that hold symbol v and are in a group of table t. */
  ghost function Positions(sel: seq<nat>, syms: seq<int>, t: nat, v: nat, n: nat): (s: set<nat>)
    requires n <= |syms| && n <= GROUP * |sel|
  {
    set i: nat | i < n && sel[i / GROUP] == t && syms[i] == v
  }

  /** How often each symbol occurs under table t among the first n. */
  ghost function Uses(sel: seq<nat>, syms: seq<int>, t: nat, alphaSize: nat, n: nat): (freq: seq<nat>)
    requires n <= |syms| && n <= GROUP * |sel|
    ensures |freq| == alphaSize
    ensures forall v :: 0 <= v < alphaSize ==> freq[v] == |Positions(sel, syms, t, v, n)|
  {
    seq(alphaSize, v requires 0 <= v < alphaSize => |Positions(sel, syms, t, v, n)|)
  }

  lemma PositionsNext(sel: seq<nat>, syms: seq<int>, t: nat, v: nat, n: nat)
    requires n < |syms| && n < GROUP * |sel|
    ensures |Positions(sel, syms, t, v, n + 1)| ==
      |Positions(sel, syms, t, v, n)| + if sel[n / GROUP] == t && syms[n] == v then 1 else 0
  {
    var p, q := Positions(sel, syms, t, v, n), Positions(sel, syms, t, v, n + 1);
    if sel[n / GROUP] == t && syms[n] == v {
      assert q == p + {n};
    } else {
      assert q == p;
    }
  }

  lemma UsesNext(sel: seq<nat>, syms: seq<int>, t: nat, alphaSize: nat, n: nat)
    requires n < |syms| && n < GROUP * |sel| && 0 <= syms[n] < alphaSize
    ensures var f := Uses(sel, syms, t, alphaSize, n);
      Uses(sel, syms, t, alphaSize, n + 1) == if sel[n / GROUP] == t then f[syms[n] := f[syms[n]] + 1] else f
  {
    hide Positions;
    forall v | 0 <= v < alphaSize
      ensures |Positions(sel, syms, t, v, n + 1)| ==
        |Positions(sel, syms, t, v, n)| + if sel[n / GROUP] == t && syms[n] == v then 1 else 0
    {
      PositionsNext(sel, syms, t, v, n);
    }
  }

  lemma UsesNone(sel: seq<nat>, syms: seq<int>, t: nat, alphaSize: nat)
    ensures forall v :: 0 <= v < alphaSize ==> Uses(sel, syms, t, alphaSize, 0)[v] == 0
  {
    forall v | 0 <= v < alphaSize ensures |Positions(sel, syms, t, v, 0)| == 0 {
      assert Positions(sel, syms, t, v, 0) == {};
    }
  }

  /** Only the groups so far matter. */
  lemma UsesPrefix(sel: seq<nat>, other: seq<nat>, syms: seq<int>, t: nat, alphaSize: nat, n: nat)
    requires n <= |syms| && n <= GROUP * |sel| && n <= GROUP * |other|
    requires forall g :: 0 <= g < |sel| && g < |other| && GROUP * g < n ==> sel[g] == other[g]
    ensures Uses(sel, syms, t, alphaSize, n) == Uses(other, syms, t, alphaSize, n)
  {
    forall v | 0 <= v < alphaSize ensures Positions(sel, syms, t, v, n) == Positions(other, syms, t, v, n) {
      forall i: nat | i < n ensures sel[i / GROUP] == other[i / GROUP] {
        assert GROUP * (i / GROUP) < n;
      }
    }
  }

  lemma {:induction false} UsesTotal(sel: seq<nat>, syms: seq<int>, t: nat, alphaSize: nat, n: nat)
    requires n <= |syms| && n <= GROUP * |sel| && Symbols(syms, alphaSize)
    ensures Total(Uses(sel, syms, t, alphaSize, n)) <= n
  {
    hide Uses, Total;
    if n == 0 {
      UsesNone(sel, syms, t, alphaSize);
      TotalZero(Uses(sel, syms, t, alphaSize, 0));
    } else {
      UsesTotal(sel, syms, t, alphaSize, n - 1);
      UsesNext(sel, syms, t, alphaSize, n - 1);
      var f := Uses(sel, syms, t, alphaSize, n - 1);
      TotalPut(f, syms[n - 1], f[syms[n - 1]] + 1);
    }
  }

  /** Every table's row holds how often each symbol occurs under it among the first n. */
  ghost predicate Counted(rfreq: seq<array<nat>>, alphaSize: nat, sel: seq<nat>, syms: seq<int>, n: nat)
    requires Rows(rfreq) && alphaSize <= MAX_ALPHA && n <= |syms| && n <= GROUP * |sel|
    reads set t | 0 <= t < |rfreq| :: rfreq[t]
  {
    forall t :: 0 <= t < |rfreq| ==> rfreq[t][..alphaSize] == Uses(sel, syms, t, alphaSize, n)
  }

  method ZeroRow(a: array<nat>, alphaSize: nat)
    requires a.Length == MAX_ALPHA && alphaSize <= MAX_ALPHA
    modifies a
    ensures forall v :: 0 <= v < alphaSize ==> a[v] == 0
  {
    var v := 0;
    while v < alphaSize
      invariant v <= alphaSize
      invariant forall k :: 0 <= k < v ==> a[k] == 0
    {
      a[v] := 0;
      v := v + 1;
    }
  }

  method ZeroRows(rfreq: seq<array<nat>>, alphaSize: nat, ghost sel: seq<nat>, ghost syms: seq<int>)
    requires Rows(rfreq) && alphaSize <= MAX_ALPHA
    requires forall t, u :: 0 <= t < u < |rfreq| ==> rfreq[t] != rfreq[u]
    modifies set t | 0 <= t < |rfreq| :: rfreq[t]
    ensures Counted(rfreq, alphaSize, sel, syms, 0)
  {
    hide Uses;
    var t := 0;
    while t < |rfreq|
      invariant t <= |rfreq|
      invariant forall k, v :: 0 <= k < t && 0 <= v < alphaSize ==> rfreq[k][v] == 0
    {
      ZeroRow(rfreq[t], alphaSize);
      t := t + 1;
    }
    forall k | 0 <= k < |rfreq| ensures rfreq[k][..alphaSize] == Uses(sel, syms, k, alphaSize, 0) {
      UsesNone(sel, syms, k, alphaSize);
    }
  }

  /** Symbol i of the block, which is in a group of table bt. */
  method CountOne(rfreq: seq<array<nat>>, bt: nat, v: nat, alphaSize: nat, ghost sel: seq<nat>, ghost syms: seq<int>,
                  ghost i: nat)
    requires Rows(rfreq) && bt < |rfreq| && v < alphaSize <= MAX_ALPHA && i < |syms| && i < GROUP * |sel|
    requires forall t, u :: 0 <= t < u < |rfreq| ==> rfreq[t] != rfreq[u]
    requires syms[i] == v && sel[i / GROUP] == bt && Counted(rfreq, alphaSize, sel, syms, i)
    modifies rfreq[bt]
    ensures Counted(rfreq, alphaSize, sel, syms, i + 1)
  {
    hide Uses;
    ghost var s := rfreq[bt][..alphaSize];
    rfreq[bt][v] := rfreq[bt][v] + 1;
    assert rfreq[bt][..alphaSize] == s[v := s[v] + 1];
    forall t | 0 <= t < |rfreq| ensures rfreq[t][..alphaSize] == Uses(sel, syms, t, alphaSize, i + 1) {
      UsesNext(sel, syms, t, alphaSize, i);
      if t != bt {
        assert rfreq[t] != rfreq[bt];
        assert rfreq[t][..alphaSize] == old(rfreq[t][..alphaSize]);
      }
    }
  }

  ghost function Values(len: seq<array<nat>>): (lens: seq<seq<nat>>)
    requires Rows(len)
    reads set t | 0 <= t < |len| :: len[t]
    ensures |lens| == |len| && forall t :: 0 <= t < |len| ==> lens[t] == len[t][..]
  {
    seq(|len|, t requires 0 <= t < |len| reads set u | 0 <= u < |len| :: len[u] => len[t][..])
  }

  /** No table codes group i cheaper than table bt. */
  ghost predicate Best(lens: seq<seq<nat>>, syms: seq<int>, i: nat, bt: nat)
    requires GROUP * i < |syms| && forall t :: 0 <= t < |lens| ==> Symbols(syms, |lens[t]|)
  {
    var hi := if GROUP * i + GROUP < |syms| then GROUP * i + GROUP else |syms|;
    && bt < |lens|
    && forall t :: 0 <= t < |lens| ==>
      GroupCost(lens[bt], syms, GROUP * i, hi) <= GroupCost(lens[t], syms, GROUP * i, hi)
  }

  /** Each of the first n groups has its cheapest table. */
  ghost predicate Chosen(selector: seq<nat>, n: nat, lens: seq<seq<nat>>, syms: seq<int>)
    requires forall t :: 0 <= t < |lens| ==> Symbols(syms, |lens[t]|)
  {
    && n <= |selector| && GROUP * (n - 1) < |syms|
    && forall i :: 0 <= i < n ==> Best(lens, syms, i, selector[i])
  }

  lemma AllSymbols(lens: seq<seq<nat>>, syms: seq<int>, alphaSize: nat)
    requires Symbols(syms, alphaSize) && alphaSize <= MAX_ALPHA && forall t :: 0 <= t < |lens| ==> |lens[t]| == MAX_ALPHA
    ensures forall t :: 0 <= t < |lens| ==> Symbols(syms, |lens[t]|)
  {
  }

  /** The frequencies of one group's symbols, under its table. */
  method CountGroup(mtfv: array<int>, nMTF: nat, rfreq: seq<array<nat>>, bt: nat, gs: nat, ge: nat, alphaSize: nat,
                    ghost sel: seq<nat>)
    requires Rows(rfreq) && bt < |rfreq| && alphaSize <= MAX_ALPHA && gs <= ge < nMTF <= 2 * mtfv.Length
    requires forall t, u :: 0 <= t < u < |rfreq| ==> rfreq[t] != rfreq[u]
    requires nMTF <= GROUP * |sel| && gs % GROUP == 0 && ge < gs + GROUP && sel[gs / GROUP] == bt
    requires Symbols(MtfEncoder.Halves(mtfv[..], nMTF), alphaSize)
    requires Counted(rfreq, alphaSize, sel, MtfEncoder.Halves(mtfv[..], nMTF), gs)
    requires forall t :: 0 <= t < |rfreq| ==> rfreq[t] as object != mtfv as object
    modifies rfreq[bt]
    ensures Counted(rfreq, alphaSize, sel, MtfEncoder.Halves(mtfv[..], nMTF), ge + 1)
  {
    hide Counted, Symbols, Total;
    ghost var syms := MtfEncoder.Halves(mtfv[..], nMTF);
    var i := gs;
    while i <= ge
      invariant gs <= i <= ge + 1 && Counted(rfreq, alphaSize, sel, syms, i)
    {
      SymbolAt(syms, alphaSize, i);
      var v := BlockWriter.Half(mtfv, i, nMTF);
      assert i / GROUP == gs / GROUP;
      CountOne(rfreq, bt, v, alphaSize, sel, syms, i);
      i := i + 1;
    }
  }

  lemma ChosenNext(selector: seq<nat>, n: nat, lens: seq<seq<nat>>, syms: seq<int>, bt: nat)
    requires forall t :: 0 <= t < |lens| ==> Symbols(syms, |lens[t]|)
    requires Chosen(selector, n, lens, syms) && n < |selector| && GROUP * n < |syms| && Best(lens, syms, n, bt)
    ensures Chosen(selector[n := bt], n + 1, lens, syms)
  {
    hide Best, Symbols;
  }

  method Pass(mtfv: array<int>, nMTF: nat, len: seq<array<nat>>, rfreq: seq<array<nat>>, selector: array<nat>, alphaSize: nat)
    returns (nSelectors: nat)
    requires Rows(len) && Rows(rfreq) && |len| == |rfreq| && alphaSize <= MAX_ALPHA
    requires 1 <= nMTF <= 2 * mtfv.Length && nMTF <= GROUP * selector.Length
    requires Symbols(MtfEncoder.Halves(mtfv[..], nMTF), alphaSize)
    requires Short(len, alphaSize)
    requires forall t :: 0 <= t < |rfreq| ==> rfreq[t] != selector && rfreq[t] as object != mtfv as object
    requires selector as object != mtfv as object
    requires forall t :: 0 <= t < |len| ==> len[t] != selector && len[t] !in rfreq
    requires forall t, u :: 0 <= t < u < |rfreq| ==> rfreq[t] != rfreq[u]
    modifies selector, set t | 0 <= t < |rfreq| :: rfreq[t]
    ensures GROUP * (nSelectors - 1) < nMTF <= GROUP * nSelectors && nSelectors <= selector.Length
    ensures forall t :: 0 <= t < |len| ==> Symbols(MtfEncoder.Halves(mtfv[..], nMTF), |Values(len)[t]|)
    ensures Chosen(selector[..], nSelectors, Values(len), MtfEncoder.Halves(mtfv[..], nMTF))
    ensures Values(len) == old(Values(len))
      && MtfEncoder.Halves(mtfv[..], nMTF) == old(MtfEncoder.Halves(mtfv[..], nMTF))
    ensures Counted(rfreq, alphaSize, selector[..nSelectors], MtfEncoder.Halves(mtfv[..], nMTF), nMTF)
  {
    hide Counted, Symbols, Total, Short, GroupCost, Best;
    ghost var syms, lens := MtfEncoder.Halves(mtfv[..], nMTF), Values(len);
    AllSymbols(lens, syms, alphaSize);
    ZeroRows(rfreq, alphaSize, selector[..], syms);
    nSelectors := 0;
    var gs := 0;
    while gs < nMTF
      invariant gs <= nMTF && gs == (if GROUP * nSelectors <= nMTF then GROUP * nSelectors else nMTF)
      invariant GROUP * (nSelectors - 1) < nMTF
      invariant Chosen(selector[..], nSelectors, lens, syms)
      invariant Counted(rfreq, alphaSize, selector[..], syms, gs) && Short(len, alphaSize)
      invariant gs < nMTF ==> gs == GROUP * nSelectors
      invariant MtfEncoder.Halves(mtfv[..], nMTF) == syms && Values(len) == lens
    {
      var ge := gs + GROUP - 1;
      if ge >= nMTF {
        ge := nMTF - 1;
      }
      var bt := Cheapest(len, mtfv, nMTF, gs, ge, alphaSize);
      CheapestIsBest(lens, syms, nSelectors, bt, ge + 1);
      ChosenNext(selector[..], nSelectors, lens, syms, bt);
      ghost var before := selector[..];
      selector[nSelectors] := bt;
      StillCounted(rfreq, alphaSize, before, selector[..], syms, nSelectors, gs);
      CountGroup(mtfv, nMTF, rfreq, bt, gs, ge, alphaSize, selector[..]);
      nSelectors := nSelectors + 1;
      gs := ge + 1;
    }
    StillCounted(rfreq, alphaSize, selector[..], selector[..nSelectors], syms, nSelectors, nMTF);
  }

  /** The counts do not depend on selectors of later groups. */
  lemma StillCounted(rfreq: seq<array<nat>>, alphaSize: nat, sel: seq<nat>, other: seq<nat>, syms: seq<int>, g: nat,
                     n: nat)
    requires Rows(rfreq) && alphaSize <= MAX_ALPHA && n <= |syms| && n <= GROUP * |sel| && n <= GROUP * |other|
    requires Counted(rfreq, alphaSize, sel, syms, n) && n <= GROUP * g && g <= |sel| && g <= |other|
    requires forall k :: 0 <= k < g ==> sel[k] == other[k]
    ensures Counted(rfreq, alphaSize, other, syms, n)
  {
    hide Uses;
    forall t | 0 <= t < |rfreq| ensures rfreq[t][..alphaSize] == Uses(other, syms, t, alphaSize, n) {
      UsesPrefix(sel, other, syms, t, alphaSize, n);
    }
  }

  lemma SymbolAt(syms: seq<int>, alphaSize: nat, i: nat)
    requires Symbols(syms, alphaSize) && i < |syms|
    ensures 0 <= syms[i] < alphaSize
  {
  }

  lemma CheapestIsBest(lens: seq<seq<nat>>, syms: seq<int>, i: nat, bt: nat, hi: nat)
    requires GROUP * i < |syms| && forall t :: 0 <= t < |lens| ==> Symbols(syms, |lens[t]|)
    requires hi == (if GROUP * i + GROUP < |syms| then GROUP * i + GROUP else |syms|) && bt < |lens|
    requires forall t :: 0 <= t < |lens| ==> GroupCost(lens[bt], syms, GROUP * i, hi) <= GroupCost(lens[t], syms, GROUP * i, hi)
    ensures Best(lens, syms, i, bt)
  {
  }

  // ---------- The tables ----------

  /** A full code of at most 17 bits. */
  ghost predicate Full(len: seq<nat>) {
    && (forall i :: 0 <= i < |len| ==> 1 <= len[i] <= 17)
    && Bounded(len, 17) && Kraft(len, 17) == Pow2(17)
  }

  /** A cheapest code for these frequencies, where a symbol that does not occur counts once; or for
      what is left of them after as many halvings, each at a total from which codes of more than
      17 bits are possible. */
  ghost predicate MadeFor(len: seq<nat>, freq: seq<nat>) {
    exists passes: nat :: MadeAfter(len, freq, passes)
  }

  ghost predicate MadeAfter(len: seq<nat>, freq: seq<nat>, passes: nat) {
    && Optimal(Rescaled(Floored(freq), passes), len)
    && forall k: nat :: k < passes ==> Fib(18) <= Total(Rescaled(Floored(freq), k)) && TooDeep(Rescaled(Floored(freq), k), 17)
  }

  method Remake(len: seq<array<nat>>, rfreq: seq<array<nat>>, alphaSize: nat, ghost sel: seq<nat>, ghost syms: seq<int>)
    requires Rows(len) && Rows(rfreq) && |len| == |rfreq| && 3 <= alphaSize <= MAX_ALPHA
    requires forall t :: 0 <= t < |len| ==> len[t] !in rfreq
    requires forall t, u :: 0 <= t < u < |len| ==> len[t] != len[u]
    requires |syms| <= GROUP * |sel| && |syms| <= 900001 && Symbols(syms, alphaSize)
    requires Counted(rfreq, alphaSize, sel, syms, |syms|)
    modifies set t | 0 <= t < |len| :: len[t]
    ensures forall t :: 0 <= t < |len| ==> Full(len[t][..alphaSize])
    ensures forall t :: 0 <= t < |len| ==> MadeFor(len[t][..alphaSize], Uses(sel, syms, t, alphaSize, |syms|))
  {
    hide Total, Full, Kraft, Pow2, Optimal, Rescaled, Floored, Uses, Symbols, MadeFor, Fib;
    var t := 0;
    while t < |len|
      invariant t <= |len| && Counted(rfreq, alphaSize, sel, syms, |syms|)
      invariant forall k :: 0 <= k < t ==> Full(len[k][..alphaSize])
      invariant forall k :: 0 <= k < t ==> MadeFor(len[k][..alphaSize], Uses(sel, syms, k, alphaSize, |syms|))
    {
      ghost var freq := rfreq[t][..alphaSize];
      UsesTotal(sel, syms, t, alphaSize, |syms|);
      TotalFloored(freq);
      ghost var passes := MakeCodeLengths(len[t], rfreq[t], alphaSize, 17);
      FullIf(len[t][..alphaSize]);
      MadeIf(len[t][..alphaSize], freq, passes);
      forall k | 0 <= k < t
        ensures Full(len[k][..alphaSize]) && MadeFor(len[k][..alphaSize], Uses(sel, syms, k, alphaSize, |syms|))
      {
        assert len[k] != len[t];
      }
      t := t + 1;
    }
  }

  lemma MadeIf(len: seq<nat>, freq: seq<nat>, passes: nat)
    requires Optimal(Rescaled(Floored(freq), passes), len)
    requires forall k: nat :: k < passes ==> Fib(18) <= Total(Rescaled(Floored(freq), k))
    requires forall k: nat :: k < passes ==> TooDeep(Rescaled(Floored(freq), k), 17)
    ensures MadeFor(len, freq)
  {
    hide Optimal, Rescaled, Floored, Total, Fib, TooDeep;
    assert MadeAfter(len, freq, passes);
  }

  lemma FullIf(len: seq<nat>)
    requires forall i :: 0 <= i < |len| ==> 1 <= len[i] <= 17
    requires Bounded(len, 17) && Kraft(len, 17) == Pow2(17)
    ensures Full(len)
  {
  }

  /** What the decoder needs of a table holds of every full code. */
  lemma FullIsGood(len: seq<nat>, alphaSize: nat)
    requires Full(len) && |len| == alphaSize
    ensures GoodLengths(len, alphaSize)
  {
    hide Kraft, Pow2;
    KraftScale(len, 17, LONGEST);
    Pow2Add(3, 17);
    Cancel(Kraft(len, LONGEST), Pow2(LONGEST), Pow2(17));
  }

  /** The four passes, from whatever first guess the length arrays hold. */
  method ChooseTables(mtfv: array<int>, nMTF: nat, len: seq<array<nat>>, selector: array<nat>, alphaSize: nat)
    returns (nSelectors: nat)
    requires Rows(len) && 3 <= alphaSize <= MAX_ALPHA && Short(len, alphaSize)
    requires 1 <= nMTF <= 2 * mtfv.Length && nMTF <= 900001 && nMTF <= GROUP * selector.Length
    requires Symbols(MtfEncoder.Halves(mtfv[..], nMTF), alphaSize)
    requires selector as object != mtfv as object
    requires forall t :: 0 <= t < |len| ==> len[t] != selector && len[t] as object != mtfv as object
    requires forall t, u :: 0 <= t < u < |len| ==> len[t] != len[u]
    modifies selector, set t | 0 <= t < |len| :: len[t]
    ensures GROUP * (nSelectors - 1) < nMTF <= GROUP * nSelectors && nSelectors <= selector.Length
    ensures forall i :: 0 <= i < nSelectors ==> selector[i] < |len|
    ensures forall t :: 0 <= t < |len| ==> Full(len[t][..alphaSize])
    ensures MtfEncoder.Halves(mtfv[..], nMTF) == old(MtfEncoder.Halves(mtfv[..], nMTF))
    ensures forall t :: 0 <= t < |len| ==>
      MadeFor(len[t][..alphaSize], Uses(selector[..nSelectors], MtfEncoder.Halves(mtfv[..], nMTF), t, alphaSize, nMTF))
  {
    hide Symbols, Full, GroupCost, Counted, MadeFor, Uses;
    ghost var syms := MtfEncoder.Halves(mtfv[..], nMTF);
    var rows := NewRows(|len|);
    nSelectors := 0;
    var iter := 0;
    while iter < 4
      invariant iter <= 4
      invariant forall t :: 0 <= t < |rows| ==> fresh(rows[t])
      invariant Symbols(MtfEncoder.Halves(mtfv[..], nMTF), alphaSize) && Short(len, alphaSize)
      invariant iter > 0 ==> GROUP * (nSelectors - 1) < nMTF <= GROUP * nSelectors && nSelectors <= selector.Length
      invariant iter > 0 ==> forall i :: 0 <= i < nSelectors ==> selector[i] < |len|
      invariant iter > 0 ==> forall t :: 0 <= t < |len| ==> Full(len[t][..alphaSize])
      invariant MtfEncoder.Halves(mtfv[..], nMTF) == syms && |rows| == |len| && Rows(rows)
      invariant forall t, u :: 0 <= t < u < |rows| ==> rows[t] != rows[u]
      invariant iter > 0 ==> forall t :: 0 <= t < |len| ==>
        MadeFor(len[t][..alphaSize], Uses(selector[..nSelectors], syms, t, alphaSize, nMTF))
    {
      nSelectors := Pass(mtfv, nMTF, len, rows, selector, alphaSize);
      forall i | 0 <= i < nSelectors ensures selector[i] < |len| {
        assert Best(Values(len), MtfEncoder.Halves(mtfv[..], nMTF), i, selector[..][i]);
      }
      Remake(len, rows, alphaSize, selector[..nSelectors], syms);
      FullIsShort(len, alphaSize);
      iter := iter + 1;
    }
  }

  lemma FullIsShort(len: seq<array<nat>>, alphaSize: nat)
    requires Rows(len) && alphaSize <= MAX_ALPHA && forall t :: 0 <= t < |len| ==> Full(len[t][..alphaSize])
    ensures Short(len, alphaSize)
  {
    forall t, v | 0 <= t < |len| && 0 <= v < alphaSize ensures len[t][v] <= LONGEST {
      assert len[t][..alphaSize][v] == len[t][v];
    }
  }

  method NewRows(n: nat) returns (rows: seq<array<nat>>)
    requires 2 <= n <= 6
    ensures Rows(rows) && |rows| == n
    ensures forall t :: 0 <= t < |rows| ==> fresh(rows[t])
    ensures forall t, u :: 0 <= t < u < |rows| ==> rows[t] != rows[u]
  {
    rows := [];
    while |rows| < n
      invariant |rows| <= n
      invariant forall t, u :: 0 <= t < u < |rows| ==> rows[t] != rows[u]
      invariant forall t :: 0 <= t < |rows| ==> fresh(rows[t]) && rows[t].Length == MAX_ALPHA
    {
      var a := new nat[MAX_ALPHA];
      rows := rows + [a];
    }
  }

  /** All that row a favours is below all that row b favours. */
  ghost predicate Earlier(a: array<nat>, b: array<nat>, alphaSize: nat)
    requires alphaSize <= a.Length && alphaSize <= b.Length
    reads a, b
  {
    forall v, w :: 0 <= v < alphaSize && 0 <= w < alphaSize && a[v] == 0 && b[w] == 0 ==> v < w
  }

  /** The initial tables: each favours one stretch of the alphabet that holds its share of the
      symbols, the last table the first stretch. */
  method FirstGuess(len: seq<array<nat>>, mtfFreq: array<int>, nMTF: nat, alphaSize: nat)
    requires Rows(len) && alphaSize <= MAX_ALPHA && mtfFreq.Length == MAX_ALPHA
    requires forall t :: 0 <= t < |len| ==> len[t] as object != mtfFreq as object
    requires forall t, u :: 0 <= t < u < |len| ==> len[t] != len[u]
    modifies set t | 0 <= t < |len| :: len[t]
    ensures Short(len, alphaSize)
    ensures forall t, v :: 0 <= t < |len| && 0 <= v < alphaSize ==> len[t][v] == 0 || len[t][v] == 15
    ensures forall t, u :: 0 <= t < u < |len| ==> Earlier(len[u], len[t], alphaSize)
  {
    var nPart := |len|;
    var remF := nMTF;
    var gs := 0;
    while nPart > 0
      invariant 0 <= nPart <= |len| && 0 <= gs <= alphaSize
      invariant forall t, v :: nPart <= t < |len| && 0 <= v < alphaSize ==> len[t][v] == 15 || (len[t][v] == 0 && v < gs)
      invariant forall t, u :: nPart <= t < u < |len| ==> Earlier(len[u], len[t], alphaSize)
    {
      var tFreq := remF / nPart;
      var ge := gs - 1;
      var aFreq := 0;
      while aFreq < tFreq && ge < alphaSize - 1
        invariant gs - 1 <= ge <= alphaSize - 1
        decreases alphaSize - ge
      {
        ge := ge + 1;
        aFreq := aFreq + mtfFreq[ge];
      }
      if ge > gs && nPart != |len| && nPart != 1 && (|len| - nPart) % 2 == 1 {
        aFreq := aFreq - mtfFreq[ge];
        ge := ge - 1;
      }
      FillRow(len[nPart - 1], alphaSize, gs, ge);
      nPart := nPart - 1;
      gs := ge + 1;
      remF := remF - aFreq;
    }
  }

  method FillRow(a: array<nat>, alphaSize: nat, gs: int, ge: int)
    requires alphaSize <= a.Length
    modifies a
    ensures forall v :: 0 <= v < alphaSize ==> a[v] == if gs <= v <= ge then 0 else 15
  {
    var v := 0;
    while v < alphaSize
      invariant v <= alphaSize
      invariant forall k :: 0 <= k < v ==> a[k] == if gs <= k <= ge then 0 else 15
    {
      a[v] := if v >= gs && v <= ge then 0 else 15;
      v := v + 1;
    }
  }
}
