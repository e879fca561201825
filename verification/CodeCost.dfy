/** What the coding tables of a printed block are chosen for: the bits that its symbols take
    (dep/bzip2/compress.c:388-439, 544-567). */
module CodeCost {
  import opened BlockFormat
  import opened BlockWriter
  import opened BlockCompressor
  import opened TableChoice
  import opened PrefixCodes
  import opened HuffmanMerge
  import opened HuffmanLengths
  import opened HuffmanForest
  import BitStrings
  import CanonicalCodes

  /** One more occurrence of a symbol costs its length. */
  lemma {:induction false} CostMore(w: seq<nat>, len: seq<nat>, v: nat)
    requires |w| == |len| && v < |w|
    ensures Cost(w[v := w[v] + 1], len) == Cost(w, len) + len[v]
  {
    var n := |w| - 1;
    if v < n {
      CostMore(w[..n], len[..n], v);
      assert w[v := w[v] + 1][..n] == w[..n][v := w[v] + 1];
    } else {
      assert w[v := w[v] + 1][..n] == w[..n];
      Distributed(w[v], len[v]);
    }
  }

  lemma Distributed(x: nat, y: nat)
    ensures (x + 1) * y == x * y + y
  {
  }

  lemma {:induction false} CostNone(w: seq<nat>, len: seq<nat>)
    requires |w| == |len| && forall i :: 0 <= i < |w| ==> w[i] == 0
    ensures Cost(w, len) == 0
  {
    if w != [] {
      CostNone(w[..|w| - 1], len[..|len| - 1]);
    }
  }

  /** The weighted lengths of the first k tables, each over the symbols that the first n symbols
      give it. */
  ghost function TablesCost(c: Coded, n: nat, k: nat): (cost: nat)
    requires GoodBlock(c) && n <= |c.symbols| && k <= |c.lens|
  {
    if k == 0 then 0
    else
      GoodBlockTables(c);
      TablesCost(c, n, k - 1) + Cost(Uses(c.selectors, c.symbols, k - 1, AlphaSize(c.inUse), n), c.lens[k - 1])
  }

  lemma {:induction false} TablesCostNone(c: Coded, k: nat)
    requires GoodBlock(c) && k <= |c.lens|
    ensures TablesCost(c, 0, k) == 0
  {
    hide GoodBlock, AlphaSize, Uses;
    GoodBlockTables(c);
    if k > 0 {
      TablesCostNone(c, k - 1);
      UsesNone(c.selectors, c.symbols, k - 1, AlphaSize(c.inUse));
      CostNone(Uses(c.selectors, c.symbols, k - 1, AlphaSize(c.inUse), 0), c.lens[k - 1]);
    }
  }

  lemma SymbolFacts(c: Coded, n: nat)
    requires GoodBlock(c) && n < |c.symbols|
    ensures |c.inUse| == 256 && n / GROUP < |c.selectors| && c.selectors[n / GROUP] < |c.lens|
    ensures 0 <= c.symbols[n] < AlphaSize(c.inUse) == |c.lens[c.selectors[n / GROUP]]|
  {
    hide AlphaSize;
    GoodBlockTables(c);
  }

  lemma {:induction false} TablesCostNext(c: Coded, n: nat, k: nat)
    requires GoodBlock(c) && n < |c.symbols| && k <= |c.lens|
    ensures n / GROUP < |c.selectors| && c.selectors[n / GROUP] < |c.lens|
    ensures 0 <= c.symbols[n] < |c.lens[c.selectors[n / GROUP]]|
    ensures TablesCost(c, n + 1, k) ==
      TablesCost(c, n, k) + if c.selectors[n / GROUP] < k then c.lens[c.selectors[n / GROUP]][c.symbols[n]] else 0
  {
    hide GoodBlock, AlphaSize, Uses, Cost;
    SymbolFacts(c, n);
    GoodBlockTables(c);
    if k > 0 {
      var a, f := AlphaSize(c.inUse), Uses(c.selectors, c.symbols, k - 1, AlphaSize(c.inUse), n);
      TablesCostNext(c, n, k - 1);
      RoomForSymbols(c);
      UsesNext(c.selectors, c.symbols, k - 1, a, n);
      CostMore(f, c.lens[k - 1], c.symbols[n]);
    }
  }

  lemma RoomForSymbols(c: Coded)
    requires GoodBlock(c)
    ensures |c.symbols| <= GROUP * |c.selectors|
  {
  }

  /** Each symbol takes as many bits as its length in the table of its group. */
  lemma {:induction false} CodesSpent(c: Coded, n: nat)
    requires GoodBlock(c) && n <= |c.symbols|
    ensures |Codes(c, 0)| == |Codes(c, n)| + TablesCost(c, n, |c.lens|)
    decreases n
  {
    hide GoodBlock, AlphaSize, TablesCost, Codes, CanonicalCodes.Code, BitStrings.Bits;
    if n == 0 {
      TablesCostNone(c, |c.lens|);
    } else {
      CodesSpent(c, n - 1);
      TablesCostNext(c, n - 1, |c.lens|);
      CodesUnfold(c, n - 1);
    }
  }

  /** The codes of a block take the weighted lengths of its tables, each over the symbols that its
      selectors give it: what each table is made to keep small. */
  lemma CodeBits(c: Coded)
    requires GoodBlock(c)
    ensures |Codes(c, 0)| == TablesCost(c, |c.symbols|, |c.lens|)
  {
    hide GoodBlock, TablesCost;
    CodesSpent(c, |c.symbols|);
    CodesEnd(c);
  }

  /** In a printed block no prefix code would do better for the symbols of a table, where a symbol
      that does not occur counts once, unless a cheapest code for them has a length over 17: which
      takes at least 6765 of them. */
  lemma TableIsCheapest(c: Coded, t: nat, other: seq<nat>, top: nat)
    requires TablesMade(c) && t < |c.lens| && IsCode(other, top)
    requires |other| == AlphaSize(c.inUse)
    requires var w := Floored(Uses(c.selectors, c.symbols, t, AlphaSize(c.inUse), |c.symbols|));
      !TooDeep(w, 17) || Total(w) < 6765
    ensures var w := Floored(Uses(c.selectors, c.symbols, t, AlphaSize(c.inUse), |c.symbols|));
      |c.lens[t]| == |w| == |other| && Cost(w, c.lens[t]) <= Cost(w, other)
  {
    hide Uses, AlphaSize, Total, Cost, Kraft, Floored, Fib, TooDeep;
    var freq := Uses(c.selectors, c.symbols, t, AlphaSize(c.inUse), |c.symbols|);
    assert MadeFor(c.lens[t], freq);
    var passes: nat :| MadeAfter(c.lens[t], freq, passes);
    Fibonacci();
    FirstHalving(c.lens[t], freq, passes);
    RescaledNone(Floored(freq));
  }

  lemma FirstHalving(len: seq<nat>, freq: seq<nat>, passes: nat)
    requires MadeAfter(len, freq, passes)
    ensures passes > 0 ==> Fib(18) <= Total(Floored(freq)) && TooDeep(Floored(freq), 17)
  {
    hide Optimal, Total, Floored, Rescaled, Fib, TooDeep;
    RescaledNone(Floored(freq));
  }

  lemma Fibonacci()
    ensures Fib(18) == 6765
  {
    assert Fib(6) == 21 && Fib(7) == 34;
    assert Fib(12) == 377 && Fib(13) == 610;
    assert Fib(17) == 4181;
  }
}
