/** BZ2_compressBlock's printing half and sendMTFValues after the tables are chosen
    (dep/bzip2/compress.c:441-572, 579-628). */
module BlockWriter {
  import opened Sequences
  import opened Powers
  import opened BitStrings
  import opened CanonicalCodes
  import opened BlockFormat
  import opened BitWriter
  import BlockRoundTrip
  import MoveToFront
  import MtfEncoder
  import PrefixCodes

  // ---------- Small writes ----------

  lemma FlagBits(b: bool)
    ensures Pow2(1) == 2 && Bits(Bit(b), 1) == [b]
  {
    Pow2Next(0);
    assert Bits(Bit(b) / 2, 0) == [];
  }

  /** bsW(s, 1, b). */
  method PutFlag(w: Writer, b: bool)
    requires w.Valid() && 1 <= w.Room()
    modifies w, w.zbits
    ensures w.Valid() && w.Written() == old(w.Written()) + [b] && w.Room() == old(w.Room()) - 1
  {
    hide *;
    FlagBits(b);
    w.W(1, Bit(b));
  }

  lemma ByteBits(v: nat)
    requires v < 256
    ensures v < Pow2(8) && Bytes([v]) == Bits(v, 8)
  {
    BlockRoundTrip.Pow2Byte();
    BlockRoundTrip.BytesOne(v);
  }

  /** bsPutUChar for each of several constants. */
  method PutBytes(w: Writer, s: seq<nat>)
    requires w.Valid() && 8 * |s| <= w.Room() && forall i :: 0 <= i < |s| ==> s[i] < 256
    modifies w, w.zbits
    ensures w.Valid() && w.Written() == old(w.Written()) + Bytes(s) && w.Room() == old(w.Room()) - 8 * |s|
  {
    hide w.Valid, w.Room, w.Written, Bits;
    var i := 0;
    assert w.Written() + Bytes(s[0..]) == old(w.Written()) + Bytes(s) by { assert s[0..] == s; }
    while i < |s|
      invariant i <= |s| && w.Valid() && w.Room() == old(w.Room()) - 8 * i
      invariant w.Written() + Bytes(s[i..]) == old(w.Written()) + Bytes(s)
    {
      ByteBits(s[i]);
      ghost var before, b := w.Written(), Bits(s[i], 8);
      w.W(8, s[i]);
      assert s[i..][1..] == s[i + 1..];
      assert before + (b + Bytes(s[i + 1..])) == (before + b) + Bytes(s[i + 1..]);
      i := i + 1;
    }
    assert w.Written() + [] == w.Written();
  }

  /** bsPutUInt32. */
  method PutWord(w: Writer, u: nat)
    requires w.Valid() && 32 <= w.Room() && u < 0x1_0000_0000
    modifies w, w.zbits
    ensures w.Valid() && w.Written() == old(w.Written()) + Word(u) && w.Room() == old(w.Room()) - 32
  {
    PutBytes(w, [u / 0x100_0000 % 256, u / 0x1_0000 % 256, u / 0x100 % 256, u % 256]);
  }

  // ---------- The mapping table ----------

  lemma {:induction false} UsedGroupsLength(u: seq<bool>, i: nat)
    requires |u| == 256 && i <= 16
    ensures |UsedGroups(u, i)| <= 16 * (16 - i)
    decreases 16 - i
  {
    if i < 16 {
      UsedGroupsLength(u, i + 1);
    }
  }

  /** inUse16. */
  method UsedSixteens(inUse: array<bool>) returns (inUse16: array<bool>)
    requires inUse.Length == 256
    ensures fresh(inUse16) && inUse16.Length == 16 && inUse16[..] == Used16(inUse[..])
  {
    hide GroupUsed;
    inUse16 := new bool[16];
    var i := 0;
    while i < 16
      invariant i <= 16
      invariant forall k :: 0 <= k < i ==> inUse16[k] == GroupUsed(inUse[..], k)
    {
      inUse16[i] := false;
      var j := 0;
      ghost var g := inUse[16 * i..16 * i + 16];
      while j < 16
        invariant j <= 16 && inUse16[i] == (true in g[..j])
        invariant forall k :: 0 <= k < i ==> inUse16[k] == GroupUsed(inUse[..], k)
      {
        assert g[..j + 1] == g[..j] + [g[j]] && g[j] == inUse[16 * i + j];
        if inUse[16 * i + j] {
          inUse16[i] := true;
        }
        j := j + 1;
      }
      assert g[..16] == g && g == inUse[..][16 * i..16 * i + 16];
      GroupUsedMeans(inUse[..], i);
      i := i + 1;
    }
  }

  lemma GroupUsedMeans(u: seq<bool>, i: nat)
    requires |u| == 256 && i < 16
    ensures GroupUsed(u, i) <==> true in u[16 * i..16 * i + 16]
  {
  }

  /** Flags written one by one. */
  method PutFlags(w: Writer, a: array<bool>, lo: nat, hi: nat)
    requires lo <= hi <= a.Length && a as object != w.zbits as object && a as object != w as object
    requires w.Valid() && hi - lo <= w.Room()
    modifies w, w.zbits
    ensures w.Valid() && w.Written() == old(w.Written()) + a[lo..hi] && w.Room() == old(w.Room()) - (hi - lo)
    ensures a[..] == old(a[..])
  {
    hide w.Valid, w.Room, w.Written;
    var j := lo;
    assert w.Written() + a[lo..lo] == w.Written();
    while j < hi
      invariant lo <= j <= hi && w.Valid() && w.Room() == old(w.Room()) - (j - lo)
      invariant w.Written() == old(w.Written()) + a[lo..j] && a[..] == old(a[..])
    {
      PutFlag(w, a[j]);
      assert a[lo..j + 1] == a[lo..j] + [a[j]];
      j := j + 1;
    }
  }

  method SendMapping(w: Writer, inUse: array<bool>)
    requires inUse.Length == 256 && inUse as object != w.zbits as object
    requires w.Valid() && |Mapping(inUse[..])| <= w.Room()
    modifies w, w.zbits
    ensures w.Valid() && w.Written() == old(w.Written()) + Mapping(inUse[..])
    ensures w.Room() == old(w.Room()) - |Mapping(inUse[..])| && inUse[..] == old(inUse[..])
  {
    hide w.Valid, w.Room, w.Written, UsedGroups, GroupUsed;
    ghost var u := inUse[..];
    var inUse16 := UsedSixteens(inUse);
    PutFlags(w, inUse16, 0, 16);
    assert inUse16[0..16] == Used16(u);
    var i := 0;
    ghost var before := w.Written();
    while i < 16
      invariant i <= 16 && w.Valid() && inUse[..] == u && inUse16[..] == Used16(u)
      invariant w.Room() == old(w.Room()) - |Mapping(u)| + |UsedGroups(u, i)|
      invariant w.Written() + UsedGroups(u, i) == before + UsedGroups(u, 0)
    {
      GroupsNext(u, i, w.Written());
      if inUse16[i] {
        PutFlags(w, inUse, 16 * i, 16 * i + 16);
        assert inUse[16 * i..16 * i + 16] == u[16 * i..16 * i + 16];
      }
      i := i + 1;
    }
    GroupsEnd(u);
    assert w.Written() + [] == w.Written();
    assert old(w.Written()) + Used16(u) + UsedGroups(u, 0) == old(w.Written()) + Mapping(u);
  }

  lemma GroupsEnd(u: seq<bool>)
    requires |u| == 256
    ensures UsedGroups(u, 16) == []
  {
  }

  lemma GroupsNext(u: seq<bool>, i: nat, s: seq<bool>)
    requires |u| == 256 && i < 16
    ensures if GroupUsed(u, i)
            then |UsedGroups(u, i)| == 16 + |UsedGroups(u, i + 1)|
              && s + UsedGroups(u, i) == (s + u[16 * i..16 * i + 16]) + UsedGroups(u, i + 1)
            else UsedGroups(u, i) == UsedGroups(u, i + 1)
  {
    if !GroupUsed(u, i) {
      assert [] + UsedGroups(u, i + 1) == UsedGroups(u, i + 1);
    }
  }

  // ---------- The selectors ----------

  /** One selector: its place in the list, which moves to the front. */
  method FindSelector(pos: array<nat>, nGroups: nat, sel: nat) returns (j: nat)
    requires nGroups <= pos.Length && MoveToFront.Distinct(pos[..nGroups]) && sel in pos[..nGroups]
    modifies pos
    ensures j == MoveToFront.IndexOf(old(pos[..nGroups]), sel)
    ensures pos[..nGroups] == MoveToFront.Front(old(pos[..nGroups]), j)
  {
    ghost var l := pos[..nGroups];
    ghost var p := MoveToFront.IndexOf(l, sel);
    j := 0;
    var tmp := pos[j];
    while sel != tmp
      invariant j <= p && tmp == l[j]
      invariant forall k :: 1 <= k <= j ==> pos[k] == l[k - 1]
      invariant forall k :: j < k < nGroups ==> pos[k] == l[k]
      decreases p - j
    {
      j := j + 1;
      var tmp2 := tmp;
      tmp := pos[j];
      pos[j] := tmp2;
    }
    MoveToFront.IndexOfUnique(l, sel, j);
    pos[0] := tmp;
    forall k | 0 <= k < nGroups ensures pos[..nGroups][k] == MoveToFront.Front(l, j)[k] {
      MoveToFront.FrontAt(l, j, k);
    }
  }

  ghost predicate Listed(s: seq<nat>, l: seq<int>) {
    MoveToFront.Distinct(l) && forall k :: 0 <= k < |s| ==> s[k] in l
  }

  /** The positions found so far and those still to come. */
  ghost predicate Placing(done: seq<nat>, l: seq<int>, s: seq<nat>, all: seq<nat>) {
    Listed(s, l) && done + SelectorMtf(l, s) == all
  }

  lemma PlacingNext(done: seq<nat>, l: seq<int>, s: seq<nat>, all: seq<nat>)
    requires Placing(done, l, s, all) && s != []
    ensures s[0] in l
    ensures Placing(done + [MoveToFront.IndexOf(l, s[0])], MoveToFront.Front(l, MoveToFront.IndexOf(l, s[0])), s[1..], all)
  {
    hide MoveToFront.Distinct, MoveToFront.Front, MoveToFront.IndexOf;
    var p := MoveToFront.IndexOf(l, s[0]);
    MoveToFront.FrontDistinct(l, p);
    var rest := SelectorMtf(MoveToFront.Front(l, p), s[1..]);
    assert done + ([p] + rest) == (done + [p]) + rest;
  }

  lemma PlacingFacts(done: seq<nat>, l: seq<int>, s: seq<nat>, all: seq<nat>)
    requires Placing(done, l, s, all)
    ensures MoveToFront.Distinct(l)
    ensures s != [] ==> s[0] in l
    ensures s == [] ==> done == all
  {
    hide MoveToFront.Distinct;
    assert done + [] == done;
  }

  /** The selectors' move-to-front positions. */
  method CodeSelectors(selector: array<nat>, selectorMtf: array<nat>, nSelectors: nat, nGroups: nat)
    requires selector != selectorMtf && nSelectors <= selector.Length && nSelectors <= selectorMtf.Length
    requires nGroups <= 6 && forall i :: 0 <= i < nSelectors ==> selector[i] < nGroups
    modifies selectorMtf
    ensures Placing([], MtfEncoder.Identity(nGroups), selector[..nSelectors], selectorMtf[..nSelectors])
  {
    hide Placing, MoveToFront.Distinct, MoveToFront.Front, MoveToFront.IndexOf;
    ghost var sel := selector[..nSelectors];
    var pos := new nat[6];
    var i := 0;
    while i < nGroups
      invariant i <= nGroups
      invariant forall k :: 0 <= k < i ==> pos[k] == k
    {
      pos[i] := i;
      i := i + 1;
    }
    assert pos[..nGroups] == MtfEncoder.Identity(nGroups);
    ghost var all := PlacingStart(nGroups, sel);
    i := 0;
    assert sel[0..] == sel && selectorMtf[..0] == [];
    while i < nSelectors
      invariant i <= nSelectors && fresh(pos) && pos.Length == 6
      invariant Placing(selectorMtf[..i], pos[..nGroups], sel[i..], all)
    {
      ghost var l, done := pos[..nGroups], selectorMtf[..i];
      assert sel[i..][0] == selector[i] && sel[i..][1..] == sel[i + 1..];
      PlacingFacts(done, l, sel[i..], all);
      PlacingNext(done, l, sel[i..], all);
      var j := FindSelector(pos, nGroups, selector[i]);
      selectorMtf[i] := j;
      assert selectorMtf[..i + 1] == done + [j];
      i := i + 1;
    }
    PlacingFacts(selectorMtf[..nSelectors], pos[..nGroups], sel[nSelectors..], all);
  }

  lemma PlacingStart(n: nat, sel: seq<nat>) returns (all: seq<nat>)
    requires forall i :: 0 <= i < |sel| ==> sel[i] < n
    ensures Placing([], MtfEncoder.Identity(n), sel, all)
  {
    IdentityHas(n, sel);
    all := SelectorMtf(MtfEncoder.Identity(n), sel);
    assert [] + all == all;
  }

  lemma {:induction false} UnaryLength(j: nat)
    ensures |Unary(j)| == j + 1
  {
    if j > 0 {
      UnaryLength(j - 1);
    }
  }

  method PutUnary(w: Writer, n: nat)
    requires w.Valid() && n + 1 <= w.Room()
    modifies w, w.zbits
    ensures w.Valid() && w.Written() == old(w.Written()) + Unary(n) && w.Room() == old(w.Room()) - (n + 1)
  {
    hide w.Valid, w.Room, w.Written;
    var j := 0;
    while j < n
      invariant j <= n && w.Valid() && w.Room() == old(w.Room()) - j
      invariant w.Written() + Unary(n - j) == old(w.Written()) + Unary(n)
    {
      ghost var before := w.Written();
      PutFlag(w, true);
      assert before + ([true] + Unary(n - j - 1)) == (before + [true]) + Unary(n - j - 1);
      j := j + 1;
    }
    PutFlag(w, false);
  }

  method SendSelectors(w: Writer, selector: array<nat>, selectorMtf: array<nat>, nSelectors: nat, nGroups: nat)
    requires selector != selectorMtf && nSelectors <= selector.Length && nSelectors <= selectorMtf.Length
    requires selectorMtf != w.zbits && selector != w.zbits
    requires 2 <= nGroups <= 6 && nSelectors < 0x8000
    requires forall i :: 0 <= i < nSelectors ==> selector[..nSelectors][i] < nGroups
    requires w.Valid() && |Selectors(nGroups, selector[..nSelectors])| <= w.Room()
    modifies w, w.zbits, selectorMtf
    ensures w.Valid() && w.Written() == old(w.Written()) + old(Selectors(nGroups, selector[..nSelectors]))
    ensures w.Room() == old(w.Room()) - |old(Selectors(nGroups, selector[..nSelectors]))|
    ensures selector[..] == old(selector[..])
  {
    hide w.Valid, w.Room, w.Written, Unary, Bits, SelectorMtf, MoveToFront.Distinct, Selectors, Unaries, Placing;
    ghost var sel := selector[..nSelectors];
    assert forall i :: 0 <= i < nSelectors ==> selector[i] == sel[i];
    CodeSelectors(selector, selectorMtf, nSelectors, nGroups);
    ghost var mtf := selectorMtf[..nSelectors];
    SelectorsUnfold(nGroups, sel, mtf, w.Written());
    BlockRoundTrip.Pow2Small();
    w.W(3, nGroups);
    w.W(15, nSelectors);
    var i := 0;
    ghost var start := w.Written();
    assert mtf[0..] == mtf;
    while i < nSelectors
      invariant i <= nSelectors && w.Valid() && selectorMtf[..nSelectors] == mtf && selector[..] == old(selector[..])
      invariant w.Room() == old(w.Room()) - |Selectors(nGroups, sel)| + |Unaries(mtf[i..])|
      invariant w.Written() + Unaries(mtf[i..]) == start + Unaries(mtf)
    {
      assert mtf[i] == selectorMtf[i];
      UnariesNext(mtf, i, w.Written());
      PutUnary(w, selectorMtf[i]);
      i := i + 1;
    }
    NoUnaries(mtf[nSelectors..], w.Written());
  }

  lemma SelectorsUnfold(nGroups: nat, sel: seq<nat>, mtf: seq<nat>, s: seq<bool>)
    requires forall i :: 0 <= i < |sel| ==> sel[i] < nGroups
    requires Placing([], MtfEncoder.Identity(nGroups), sel, mtf)
    ensures Selectors(nGroups, sel) == Bits(nGroups, 3) + Bits(|sel|, 15) + Unaries(mtf)
    ensures s + Selectors(nGroups, sel) == (s + Bits(nGroups, 3)) + Bits(|sel|, 15) + Unaries(mtf)
  {
    hide Unaries, Bits, SelectorMtf, MoveToFront.Distinct;
    IdentityHas(nGroups, sel);
    var m := SelectorMtf(MtfEncoder.Identity(nGroups), sel);
    assert [] + m == m;
    AssocFour(s, Bits(nGroups, 3), Bits(|sel|, 15), Unaries(mtf));
  }

  lemma NoUnaries(mtf: seq<nat>, s: seq<bool>)
    requires mtf == []
    ensures Unaries(mtf) == [] && s + Unaries(mtf) == s
  {
  }

  lemma UnariesNext(mtf: seq<nat>, i: nat, s: seq<bool>)
    requires i < |mtf|
    ensures |Unaries(mtf[i..])| == mtf[i] + 1 + |Unaries(mtf[i + 1..])|
    ensures s + Unaries(mtf[i..]) == (s + Unary(mtf[i])) + Unaries(mtf[i + 1..])
  {
    hide Unary;
    UnaryLength(mtf[i]);
    assert mtf[i..][0] == mtf[i] && mtf[i..][1..] == mtf[i + 1..];
  }

  // ---------- The code lengths ----------

  /** From length `curr` to length `to`. */
  method PutDelta(w: Writer, from: nat, to: nat)
    requires w.Valid() && |Delta(from, to)| <= w.Room()
    modifies w, w.zbits
    ensures w.Valid() && w.Written() == old(w.Written()) + Delta(from, to)
    ensures w.Room() == old(w.Room()) - |Delta(from, to)|
  {
    hide w.Valid, w.Room, w.Written, Bits;
    TwoFlags();
    var curr := from;
    while curr < to
      invariant w.Valid() && (from <= curr <= to || curr == from)
      invariant w.Room() == old(w.Room()) - |Delta(from, to)| + |Delta(curr, to)|
      invariant w.Written() + Delta(curr, to) == old(w.Written()) + Delta(from, to)
      decreases if curr < to then to - curr else 0
    {
      ghost var before := w.Written();
      w.W(2, 2);
      Assoc(before, [true, false], Delta(curr + 1, to));
      curr := curr + 1;
    }
    while curr > to
      invariant w.Valid() && to <= curr
      invariant w.Room() == old(w.Room()) - |Delta(from, to)| + |Delta(curr, to)|
      invariant w.Written() + Delta(curr, to) == old(w.Written()) + Delta(from, to)
    {
      ghost var before := w.Written();
      w.W(2, 3);
      Assoc(before, [true, true], Delta(curr - 1, to));
      curr := curr - 1;
    }
    PutFlag(w, false);
  }

  lemma TwoFlags()
    ensures Pow2(2) == 4 && Bits(2, 2) == [true, false] && Bits(3, 2) == [true, true]
  {
    Pow2Next(0);
    Pow2Next(1);
    assert Bits(0, 0) == [] && Bits(1, 1) == [true];
  }

  /** The lengths of one table. */
  method SendLengths(w: Writer, len: array<nat>, alphaSize: nat)
    requires 1 <= alphaSize <= len.Length && len != w.zbits && len[0] <= 20
    requires w.Valid() && |LengthTable(len[..alphaSize])| <= w.Room()
    modifies w, w.zbits
    ensures w.Valid() && w.Written() == old(w.Written()) + LengthTable(len[..alphaSize])
    ensures w.Room() == old(w.Room()) - |LengthTable(len[..alphaSize])| && len[..] == old(len[..])
  {
    hide w.Valid, w.Room, w.Written, Bits, Delta;
    ghost var l := len[..alphaSize];
    BlockRoundTrip.Pow2Small();
    var curr := len[0];
    w.W(5, curr);
    var i := 0;
    ghost var start := w.Written();
    assert l[0..] == l;
    while i < alphaSize
      invariant i <= alphaSize && w.Valid() && len[..] == old(len[..])
      invariant w.Room() == old(w.Room()) - |LengthTable(l)| + |Deltas(curr, l[i..])|
      invariant w.Written() + Deltas(curr, l[i..]) == start + Deltas(l[0], l)
    {
      ghost var before := w.Written();
      assert l[i..][0] == len[i] && l[i..][1..] == l[i + 1..];
      PutDelta(w, curr, len[i]);
      assert before + (Delta(curr, len[i]) + Deltas(len[i], l[i + 1..])) == (before + Delta(curr, len[i])) + Deltas(len[i], l[i + 1..]);
      curr := len[i];
      i := i + 1;
    }
    assert w.Written() + [] == w.Written();
    assert start + Deltas(l[0], l) == old(w.Written()) + LengthTable(l);
  }

  // ---------- The codes ----------

  /** One array per table holds the lengths of that table. */
  ghost predicate Holds(len: seq<array<nat>>, lens: seq<seq<nat>>, alphaSize: nat)
    reads set t | 0 <= t < |len| :: len[t]
  {
    && |len| == |lens| && alphaSize <= MAX_ALPHA
    && forall t :: 0 <= t < |len| ==> len[t].Length == MAX_ALPHA && len[t][..alphaSize] == lens[t]
  }

  ghost predicate HoldsCodes(code: seq<array<int>>, lens: seq<seq<nat>>)
    reads set t | 0 <= t < |code| :: code[t]
  {
    && |code| <= |lens|
    && forall t :: 0 <= t < |code| ==> CodeTable(code[t][..], lens[t])
  }

  ghost predicate CodeTable(code: seq<int>, len: seq<nat>) {
    |code| == MAX_ALPHA && |len| <= MAX_ALPHA && forall k :: 0 <= k < |len| ==> code[k] == Code(len, k)
  }

  /** The range of lengths in one table. */
  method LengthRange(len: array<nat>, alphaSize: nat) returns (minLen: nat, maxLen: nat)
    requires 1 <= alphaSize <= len.Length && alphaSize <= MAX_ALPHA
    requires forall i :: 0 <= i < alphaSize ==> 1 <= len[i] <= LONGEST
    ensures Spans(len[..alphaSize], minLen, maxLen)
    ensures minLen in len[..alphaSize] && maxLen in len[..alphaSize]
  {
    minLen, maxLen := 32, 0;
    var i := 0;
    while i < alphaSize
      invariant i <= alphaSize
      invariant i == 0 ==> minLen == 32 && maxLen == 0
      invariant forall k :: 0 <= k < i ==> minLen <= len[k] <= maxLen
      invariant i > 0 ==> minLen in len[..alphaSize] && maxLen in len[..alphaSize]
    {
      assert len[..alphaSize][i] == len[i];
      if len[i] > maxLen {
        maxLen := len[i];
      }
      if len[i] < minLen {
        minLen := len[i];
      }
      i := i + 1;
    }
  }

  lemma HoldsAt(len: seq<array<nat>>, lens: seq<seq<nat>>, alphaSize: nat, t: nat)
    requires Holds(len, lens, alphaSize) && t < |lens|
    ensures t < |len| && len[t].Length == MAX_ALPHA && alphaSize <= MAX_ALPHA && len[t][..alphaSize] == lens[t]
    ensures |lens[t]| == alphaSize && forall k :: 0 <= k < alphaSize ==> len[t][k] == lens[t][k]
  {
    forall k | 0 <= k < alphaSize ensures len[t][k] == lens[t][k] {
      assert len[t][..alphaSize][k] == len[t][k];
    }
  }

  method AssignOne(len: array<nat>, alphaSize: nat, ghost l: seq<nat>) returns (code: array<int>)
    requires 1 <= alphaSize <= MAX_ALPHA && len.Length == MAX_ALPHA && len[..alphaSize] == l
      && GoodLengths(l, alphaSize)
    ensures fresh(code) && CodeTable(code[..], l)
  {
    hide Code, PrefixCodes.IsCode;
    assert forall i :: 0 <= i < alphaSize ==> len[i] == l[i];
    var minLen, maxLen := LengthRange(len, alphaSize);
    code := new int[MAX_ALPHA];
    AssignCodes(code, len, minLen, maxLen, alphaSize);
  }

  method AssignAll(len: seq<array<nat>>, alphaSize: nat, ghost lens: seq<seq<nat>>) returns (code: seq<array<int>>)
    requires Holds(len, lens, alphaSize) && 1 <= alphaSize
    requires forall t :: 0 <= t < |lens| ==> GoodLengths(lens[t], alphaSize)
    ensures |code| == |len| && HoldsCodes(code, lens)
    ensures forall t :: 0 <= t < |code| ==> fresh(code[t])
  {
    hide CodeTable, Holds, GoodLengths;
    code := [];
    HoldsSize(len, lens, alphaSize);
    var t := 0;
    while t < |len|
      invariant t <= |len| && |code| == t && HoldsCodes(code, lens)
      invariant forall k :: 0 <= k < t ==> fresh(code[k])
    {
      HoldsAt(len, lens, alphaSize, t);
      var a := AssignOne(len[t], alphaSize, lens[t]);
      code := code + [a];
      t := t + 1;
    }
  }

  lemma HoldsSize(len: seq<array<nat>>, lens: seq<seq<nat>>, alphaSize: nat)
    requires Holds(len, lens, alphaSize)
    ensures |len| == |lens| && alphaSize <= MAX_ALPHA
  {
  }

  /** The symbol at `pos` of a block that is printed from these arrays. */
  lemma CodeAt(c: Coded, pos: nat, len: seq<array<nat>>, code: seq<array<int>>)
    requires GoodBlock(c) && pos < |c.symbols|
    requires Holds(len, c.lens, AlphaSize(c.inUse)) && HoldsCodes(code, c.lens) && |code| == |c.lens|
    ensures pos / GROUP < |c.selectors| && c.selectors[pos / GROUP] < |c.lens| == |len|
    ensures var t, v := c.selectors[pos / GROUP], c.symbols[pos];
      && len[t].Length == code[t].Length == MAX_ALPHA && 0 <= v < |c.lens[t]| <= MAX_ALPHA
      && len[t][v] == c.lens[t][v] <= LONGEST && code[t][v] == Code(c.lens[t], v) < Pow2(c.lens[t][v])
      && Codes(c, pos) == Bits(Code(c.lens[t], v), c.lens[t][v]) + Codes(c, pos + 1)
  {
    hide MtfEncoder.UsedBelow, Code, Pow2, Bits, Codes;
    var t, v := c.selectors[pos / GROUP], c.symbols[pos];
    HoldsAt(len, c.lens, AlphaSize(c.inUse), t);
    assert GoodLengths(c.lens[t], AlphaSize(c.inUse));
    CodeFits(c.lens[t], LONGEST, v);
    assert CodeTable(code[t][..], c.lens[t]);
    CodesUnfold(c, pos);
  }

  lemma CodesUnfold(c: Coded, pos: nat)
    requires GoodBlock(c) && pos < |c.symbols|
    ensures pos / GROUP < |c.selectors| && c.selectors[pos / GROUP] < |c.lens|
    ensures var len := c.lens[c.selectors[pos / GROUP]];
      && 0 <= c.symbols[pos] < |len|
      && Codes(c, pos) == Bits(Code(len, c.symbols[pos]), len[c.symbols[pos]]) + Codes(c, pos + 1)
  {
    assert GoodLengths(c.lens[c.selectors[pos / GROUP]], AlphaSize(c.inUse));
  }

  /** Symbol i of mtfv, which shares its words with the sort order. */
  method Half(a: array<int>, i: nat, ghost n: nat) returns (v: int)
    requires i < n <= 2 * a.Length
    ensures v == MtfEncoder.Halves(a[..], n)[i]
  {
    v := if i % 2 == 0 then a[i / 2] % 0x1_0000 else a[i / 2] / 0x1_0000;
  }

  /** The block data proper, in groups of fifty. */
  method SendCodes(w: Writer, mtfv: array<int>, nMTF: nat, selector: array<nat>, nSelectors: nat,
                   len: seq<array<nat>>, code: seq<array<int>>, ghost c: Coded)
    requires GoodBlock(c) && nMTF <= 2 * mtfv.Length && c.symbols == MtfEncoder.Halves(mtfv[..], nMTF)
    requires nSelectors <= selector.Length && c.selectors == selector[..nSelectors]
    requires GROUP * (nSelectors - 1) < nMTF
    requires Holds(len, c.lens, AlphaSize(c.inUse)) && HoldsCodes(code, c.lens) && |code| == |c.lens|
    requires mtfv as object != w.zbits as object && selector != w.zbits
    requires forall t :: 0 <= t < |len| ==> len[t] != w.zbits
    requires forall t :: 0 <= t < |code| ==> code[t] as object != w.zbits as object
    requires w.Valid() && |Codes(c, 0)| <= w.Room()
    modifies w, w.zbits
    ensures w.Valid() && w.Written() == old(w.Written()) + Codes(c, 0)
    ensures w.Room() == old(w.Room()) - |Codes(c, 0)|
  {
    hide w.Valid, w.Room, w.Written, Codes, GoodBlock, Bits, Code, Holds, HoldsCodes;
    GoodCounts(c);
    var selCtr, gs := 0, 0;
    ghost var all := old(w.Written()) + Codes(c, 0);
    SendingStart(c, w.Written(), w.Room());
    while gs < nMTF
      invariant gs <= nMTF && gs == (if GROUP * selCtr <= nMTF then GROUP * selCtr else nMTF)
      invariant selCtr <= nSelectors && (gs == nMTF ==> selCtr == nSelectors)
      invariant w.Valid() && Sending(c, gs, w.Written(), w.Room(), all, old(w.Room()))
      invariant c.symbols == MtfEncoder.Halves(mtfv[..], nMTF) && c.selectors == selector[..nSelectors]
      invariant Holds(len, c.lens, AlphaSize(c.inUse)) && HoldsCodes(code, c.lens)
    {
      var ge := gs + GROUP - 1;
      if ge >= nMTF {
        ge := nMTF - 1;
      }
      var i := gs;
      while i <= ge
        invariant gs <= i <= ge + 1 <= nMTF
        invariant w.Valid() && Sending(c, i, w.Written(), w.Room(), all, old(w.Room()))
        invariant c.symbols == MtfEncoder.Halves(mtfv[..], nMTF) && c.selectors == selector[..nSelectors]
        invariant Holds(len, c.lens, AlphaSize(c.inUse)) && HoldsCodes(code, c.lens)
      {
        assert i / GROUP == selCtr;
        CodeAt(c, i, len, code);
        assert selector[selCtr] == c.selectors[selCtr] < |len|;  // 3006
        var v := Half(mtfv, i, nMTF);
        SendingStep(c, i, w.Written(), w.Room(), all, old(w.Room()), Bits(Code(c.lens[selector[selCtr]], v), c.lens[selector[selCtr]][v]));
        w.W(len[selector[selCtr]][v], code[selector[selCtr]][v]);
        i := i + 1;
      }
      gs := ge + 1;
      selCtr := selCtr + 1;
    }
    assert selCtr == nSelectors;  // 3007
    SendingEnd(c, w.Written(), w.Room(), all, old(w.Room()));
  }

  ghost predicate Sending(c: Coded, i: nat, s: seq<bool>, room: int, all: seq<bool>, room0: int)
    requires GoodBlock(c)
  {
    i <= |c.symbols| && s + Codes(c, i) == all && room == room0 - |Codes(c, 0)| + |Codes(c, i)|
  }

  lemma GoodCounts(c: Coded)
    requires GoodBlock(c)
    ensures 1 <= |c.symbols| <= GROUP * |c.selectors| && |c.inUse| == 256 && 1 <= |c.selectors|
    ensures 2 <= |c.lens| <= 6
  {
  }

  lemma SendingStart(c: Coded, s: seq<bool>, room: int)
    requires GoodBlock(c)
    ensures Sending(c, 0, s, room, s + Codes(c, 0), room)
  {
  }

  lemma SendingStep(c: Coded, i: nat, s: seq<bool>, room: int, all: seq<bool>, room0: int, b: seq<bool>)
    requires GoodBlock(c) && Sending(c, i, s, room, all, room0) && i < |c.symbols| && |Codes(c, 0)| <= room0
    requires Codes(c, i) == b + Codes(c, i + 1)
    ensures |b| <= room && Sending(c, i + 1, s + b, room - |b|, all, room0)
  {
    hide Codes;
    assert s + (b + Codes(c, i + 1)) == (s + b) + Codes(c, i + 1);
  }

  lemma SendingEnd(c: Coded, s: seq<bool>, room: int, all: seq<bool>, room0: int)
    requires GoodBlock(c) && Sending(c, |c.symbols|, s, room, all, room0)
    ensures s == all && room == room0 - |Codes(c, 0)|
  {
    assert s + [] == s;
  }
}
