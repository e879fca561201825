/** BZ2_hbAssignCodes, BZ2_hbCreateDecodeTables (dep/bzip2/huffman.c:147-194) and the decoding
    loop GET_MTF_VAL (dep/bzip2/decompress.c:71-98). */
module CanonicalCodes {
  import opened Powers
  import opened BitStrings
  import opened Counting
  import PrefixCodes

  /** The longest code the decoder takes. */
  const LONGEST: nat := 20
  const MAX_ALPHA: nat := 258

  // ---------- The code ----------

  /** The first code of length n. */
  ghost function FirstCode(len: seq<int>, n: nat): (c: nat) {
    if n == 0 then 0 else 2 * (FirstCode(len, n - 1) + CountEq(len, n - 1))
  }

  /** The code of symbol i: codes of one length are consecutive, in symbol order. */
  ghost function Code(len: seq<int>, i: nat): (c: nat)
    requires i < |len| && 0 <= len[i]
  {
    FirstCode(len, len[i]) + CountEq(len[..i], len[i])
  }

  ghost predicate Spans(len: seq<int>, minLen: nat, maxLen: nat) {
    && 1 <= minLen <= maxLen <= LONGEST && 1 <= |len| <= MAX_ALPHA
    && forall i :: 0 <= i < |len| ==> minLen <= len[i] <= maxLen
  }

  lemma CodeBelowNext(len: seq<int>, i: nat)
    requires i < |len| && 0 <= len[i]
    ensures Code(len, i) < FirstCode(len, len[i]) + CountEq(len, len[i])
  {
    CountStep(len, i, len[i]);
    CountPrefix(len, i + 1, |len|, len[i]);
    assert len[..|len|] == len;
  }

  /** Longer codes start beyond all extensions of the shorter ones. */
  lemma {:induction false} FirstCodeGrows(len: seq<int>, n: nat, m: nat)
    requires n < m
    ensures FirstCode(len, m) >= (FirstCode(len, n) + CountEq(len, n)) * Pow2(m - n)
    decreases m
  {
    hide Pow2, CountEq;
    Pow2Next(m - 1 - n);
    Double(FirstCode(len, n) + CountEq(len, n), Pow2(m - 1 - n));
    if n + 1 < m {
      FirstCodeGrows(len, n, m - 1);
    } else {
      FirstCodeNext(len, n);
    }
  }

  /** Numerically, the codes keep apart even after padding the shorter. */
  lemma CodesApart(len: seq<int>, i: nat, j: nat)
    requires i < |len| && j < |len| && 0 <= len[i] < len[j]
    ensures Code(len, j) >= (Code(len, i) + 1) * Pow2(len[j] - len[i])
  {
    CodeBelowNext(len, i);
    FirstCodeGrows(len, len[i], len[j]);
    MulMonotone(Code(len, i) + 1, FirstCode(len, len[i]) + CountEq(len, len[i]), Pow2(len[j] - len[i]));
  }

  lemma SameLengthApart(len: seq<int>, i: nat, j: nat)
    requires i < j < |len| && 0 <= len[i] == len[j]
    ensures Code(len, i) < Code(len, j)
  {
    CountStep(len, i, len[i]);
    CountPrefix(len, i + 1, j, len[i]);
  }

  /** No code is a prefix of another: this much holds for every length vector whose codes fit. */
  lemma PrefixFree(len: seq<int>, i: nat, j: nat)
    requires i < |len| && j < |len| && i != j && 0 <= len[i] <= len[j]
    requires Code(len, i) < Pow2(len[i]) && Code(len, j) < Pow2(len[j])
    ensures !(Bits(Code(len, i), len[i]) <= Bits(Code(len, j), len[j]))
  {
    hide Code, Value, Bits, Pow2;
    var a, b := Bits(Code(len, i), len[i]), Bits(Code(len, j), len[j]);
    ValueOfBits(Code(len, i), len[i]);
    ValueOfBits(Code(len, j), len[j]);
    if a <= b {
      ValuePrefix(b, |a|);
      assert b[..|a|] == a;
      if len[i] < len[j] {
        CodesApart(len, i, j);
      } else {
        assert a == b;
        if i < j { SameLengthApart(len, i, j); } else { SameLengthApart(len, j, i); }
      }
    }
  }

  // ---------- Codes and the Kraft sum ----------

  /** The share of the code space taken by lengths below n. */
  ghost function KraftBelow(len: seq<int>, n: nat, top: nat): (k: nat)
    requires n <= top + 1 && forall i :: 0 <= i < |len| ==> 0 <= len[i]
  {
    if len == [] then 0
    else
      var last := len[|len| - 1];
      KraftBelow(len[..|len| - 1], n, top) + if last < n then Pow2(top - last) else 0
  }

  lemma {:induction false} KraftBelowNext(len: seq<int>, n: nat, top: nat)
    requires n <= top && forall i :: 0 <= i < |len| ==> 0 <= len[i]
    ensures KraftBelow(len, n + 1, top) == KraftBelow(len, n, top) + CountEq(len, n) * Pow2(top - n)
  {
    hide Pow2;
    if len != [] {
      var m := |len| - 1;
      KraftBelowNext(len[..m], n, top);
      Distribute(CountEq(len[..m], n), 1, Pow2(top - n));
    }
  }

  lemma {:induction false} KraftBelowNone(len: seq<int>, top: nat)
    requires forall i :: 0 <= i < |len| ==> 0 <= len[i]
    ensures KraftBelow(len, 0, top) == 0
  {
    if len != [] {
      KraftBelowNone(len[..|len| - 1], top);
    }
  }

  /** The first code of length n marks the end of the space taken by shorter ones. */
  lemma {:induction false} FirstCodeIsKraft(len: seq<int>, n: nat, top: nat)
    requires n <= top && forall i :: 0 <= i < |len| ==> 0 <= len[i]
    ensures FirstCode(len, n) * Pow2(top - n) == KraftBelow(len, n, top)
  {
    if n == 0 {
      KraftBelowNone(len, top);
    } else {
      hide *;
      FirstCodeIsKraft(len, n - 1, top);
      KraftBelowNext(len, n - 1, top);
      FirstCodeNext(len, n - 1);
      var f, c, p := FirstCode(len, n - 1), CountEq(len, n - 1), Pow2(top - n);
      Pow2Next(top - n);
      Distribute(f, c, 2 * p);
      Double(f + c, p);
      DoubleFirst(f + c, p);
    }
  }

  lemma {:induction false} KraftBelowAtMost(len: seq<nat>, n: nat, top: nat)
    requires PrefixCodes.Bounded(len, top) && n <= top + 1
    ensures KraftBelow(len, n, top) <= PrefixCodes.Kraft(len, top)
  {
    if len != [] {
      KraftBelowAtMost(len[..|len| - 1], n, top);
    }
  }

  /** Whenever the Kraft sum is at most one, each code fits its length. */
  lemma CodeFits(len: seq<nat>, top: nat, i: nat)
    requires PrefixCodes.IsCode(len, top) && i < |len|
    ensures Code(len, i) < Pow2(len[i])
  {
    hide Code, Pow2, KraftBelow, FirstCode, CountEq, PrefixCodes.Kraft;
    var n := len[i];
    CodeBelowNext(len, i);
    FirstCodeIsKraft(len, n, top);
    KraftBelowNext(len, n, top);
    KraftBelowAtMost(len, n + 1, top);
    var x, p := FirstCode(len, n) + CountEq(len, n), Pow2(top - n);
    Distribute(FirstCode(len, n), CountEq(len, n), p);
    assert x * p <= Pow2(top);
    Pow2Add(n, top - n);
    if x > Pow2(n) {
      MulMonotone(Pow2(n) + 1, x, p);
      Distribute(Pow2(n), 1, p);
    }
  }

  // ---------- Assigning the codes ----------

  method AssignCodes(code: array<int>, length: array<nat>, minLen: nat, maxLen: nat, alphaSize: nat)
    requires code as object != length as object && alphaSize <= code.Length && alphaSize <= length.Length
    requires Spans(length[..alphaSize], minLen, maxLen)
    modifies code
    ensures forall k :: 0 <= k < alphaSize ==> code[k] == Code(length[..alphaSize], k)
    ensures code[alphaSize..] == old(code[alphaSize..])
  {
    hide Code, CountEq, FirstCode;
    ghost var len := length[..alphaSize];
    var vec := 0;
    var n := minLen;
    NoShorter(len, minLen, minLen);
    while n <= maxLen
      invariant minLen <= n <= maxLen + 1
      invariant vec == FirstCode(len, n)
      invariant forall k :: 0 <= k < alphaSize && len[k] < n ==> code[k] == Code(len, k)
      invariant code[alphaSize..] == old(code[alphaSize..])
    {
      var i := 0;
      CountNone(len, n);
      while i < alphaSize
        invariant i <= alphaSize && vec == FirstCode(len, n) + CountEq(len[..i], n)
        invariant forall k :: 0 <= k < alphaSize && (len[k] < n || (len[k] == n && k < i)) ==> code[k] == Code(len, k)
        invariant code[alphaSize..] == old(code[alphaSize..])
      {
        CountStep(len, i, n);
        CodeUnfold(len, i);
        if length[i] == n {
          code[i] := vec;
          vec := vec + 1;
        }
        i := i + 1;
      }
      assert len[..alphaSize] == len;
      FirstCodeNext(len, n);
      vec := vec * 2;
      n := n + 1;
    }
  }

  lemma CountNone(len: seq<int>, n: int)
    ensures CountEq(len[..0], n) == 0
  {
  }

  lemma CodeUnfold(len: seq<int>, i: nat)
    requires i < |len| && 0 <= len[i]
    ensures Code(len, i) == FirstCode(len, len[i]) + CountEq(len[..i], len[i])
  {
  }

  lemma FirstCodeNext(len: seq<int>, n: nat)
    ensures FirstCode(len, n + 1) == 2 * (FirstCode(len, n) + CountEq(len, n))
  {
  }

  lemma {:induction false} NoneOf(len: seq<int>, n: int)
    requires forall i :: 0 <= i < |len| ==> len[i] != n
    ensures CountEq(len, n) == 0
  {
    if len != [] {
      NoneOf(len[..|len| - 1], n);
    }
  }

  lemma {:induction false} NoShorter(len: seq<int>, n: nat, minLen: nat)
    requires n <= minLen && forall i :: 0 <= i < |len| ==> minLen <= len[i]
    ensures FirstCode(len, n) == 0 && CountLess(len, n) == 0
  {
    hide CountEq;
    if n > 0 {
      NoShorter(len, n - 1, minLen);
      NoneOf(len, n - 1);
      CountNext(len, n - 1);
    } else {
      CountAll(len, 0, 1 + Largest(len));
    }
  }

  ghost function Largest(len: seq<int>): (m: int)
    ensures 0 <= m && forall i :: 0 <= i < |len| ==> len[i] <= m
  {
    if len == [] then 0
    else
      var m := Largest(len[..|len| - 1]);
      if m < len[|len| - 1] then len[|len| - 1] else m
  }

  // ---------- The decoding tables ----------

  datatype Tables = Tables(minLen: nat, limit: seq<int>, base: seq<int>, perm: seq<int>)

  /** The last code of length n. */
  ghost function LastCode(len: seq<int>, n: nat): int {
    FirstCode(len, n) + CountEq(len, n) - 1
  }

  /** What BZ2_hbCreateDecodeTables leaves in the three arrays. */
  ghost predicate TablesFor(len: seq<int>, maxLen: nat, t: Tables) {
    && Spans(len, t.minLen, maxLen) && |t.limit| == |t.base| == |t.perm| == MAX_ALPHA
    && (forall n :: t.minLen <= n <= maxLen ==> t.limit[n] == LastCode(len, n))
    && (forall n :: maxLen < n <= 22 ==> t.limit[n] == 0)
    && (forall n :: t.minLen <= n <= maxLen ==> t.base[n] == FirstCode(len, n) - CountLess(len, n))
    && (forall n :: maxLen < n <= 22 ==> t.base[n] == |len|)
    && (forall i :: 0 <= i < |len| ==> t.perm[Place(len, i)] == i)
  }

  /** vec and the codes stay far below the 32-bit range even for lengths no encoder writes. */
  lemma {:induction false} FirstCodeBound(len: seq<int>, n: nat)
    requires forall i :: 0 <= i < |len| ==> 0 <= len[i]
    ensures FirstCode(len, n) <= CountLess(len, n) * Pow2(n)
  {
    if n > 0 {
      hide *;
      FirstCodeBound(len, n - 1);
      FirstCodeNext(len, n - 1);
      CountNext(len, n - 1);
      Pow2Next(n - 1);
      var l, c, p := CountLess(len, n - 1), CountEq(len, n - 1), Pow2(n - 1);
      MulMonotone(1, p, c);
      Distribute(l, c, p);
      Double(l + c, p);
      assert CountLess(len, n) * Pow2(n) == (l + c) * (2 * p);
      assert FirstCode(len, n) == 2 * (FirstCode(len, n - 1) + c);
      assert c * 1 <= c * p;
    } else {
      assert FirstCode(len, n) == 0;
    }
  }

  lemma FirstCodeLimit(len: seq<int>, n: nat)
    requires forall i :: 0 <= i < |len| ==> 0 <= len[i]
    requires n <= 21 && |len| <= MAX_ALPHA
    ensures FirstCode(len, n) <= 258 * 0x20_0000
  {
    hide FirstCode, CountLess, Pow2;
    FirstCodeBound(len, n);
    Pow2Monotone(n, 21);
    Pow21();
    MulMonotone(CountLess(len, n), 258, Pow2(n));
  }

  lemma Pow21()
    ensures Pow2(20) == 0x10_0000 && Pow2(21) == 0x20_0000
  {
    assert Pow2(5) == 32 && Pow2(10) == 1024 && Pow2(15) == 32768;
  }

  /** Each step fills a further part of the arrays. */
  method CreateDecodeTables(limit: array<int>, base: array<int>, perm: array<int>, length: array<nat>,
                            minLen: nat, maxLen: nat, alphaSize: nat)
    requires limit != base && limit != perm && base != perm
      && length as object !in {limit as object, base as object, perm as object}
    requires limit.Length == base.Length == perm.Length == MAX_ALPHA && alphaSize <= length.Length
    requires Spans(length[..alphaSize], minLen, maxLen)
    modifies limit, base, perm
    ensures TablesFor(length[..alphaSize], maxLen, Tables(minLen, limit[..], base[..], perm[..]))
  {
    hide *;
    ghost var len := length[..alphaSize];
    SpansFacts(len, minLen, maxLen);
    FillPerm(perm, length, minLen, maxLen, alphaSize);
    CountLengths(base, length, alphaSize);
    assert length[..alphaSize] == len;
    ghost var cum, order := base[..], perm[..];
    var i := 0;
    while i < 23
      invariant i <= 23 && base[..] == cum && perm[..] == order
      invariant forall n :: 0 <= n < i ==> limit[n] == 0
    {
      limit[i] := 0;
      i := i + 1;
    }
    var vec := 0;
    i := minLen;
    NoShorter(len, minLen, minLen);
    while i <= maxLen
      invariant minLen <= i <= maxLen + 1 && base[..] == cum && perm[..] == order
      invariant vec == FirstCode(len, i)
      invariant forall n :: minLen <= n < i ==> limit[n] == LastCode(len, n)
      invariant forall n :: maxLen < n <= 22 ==> limit[n] == 0
    {
      CountNext(len, i);
      FirstCodeNext(len, i);
      LastCodeUnfold(len, i);
      vec := vec + (base[i + 1] - base[i]);
      limit[i] := vec - 1;
      vec := vec * 2;
      i := i + 1;
    }
    i := minLen + 1;
    ghost var lim := limit[..];
    while i <= maxLen
      invariant minLen + 1 <= i <= maxLen + 1 && limit[..] == lim && perm[..] == order
      invariant forall n :: minLen <= n < i ==> base[n] == FirstCode(len, n) - CountLess(len, n)
      invariant forall n :: i <= n <= 22 ==> base[n] == cum[n]
    {
      FirstCodeNext(len, i - 1);
      LastCodeUnfold(len, i - 1);
      base[i] := (limit[i - 1] + 1) * 2 - base[i];
      i := i + 1;
    }
    BeyondAll(len, minLen, maxLen);
    TablesDone(len, maxLen, Tables(minLen, limit[..], base[..], perm[..]));
  }

  lemma SpansFacts(len: seq<int>, minLen: nat, maxLen: nat)
    requires Spans(len, minLen, maxLen)
    ensures 1 <= minLen <= maxLen <= 20 && 1 <= |len| <= MAX_ALPHA == 258 && LONGEST == 20
    ensures forall i :: 0 <= i < |len| ==> minLen <= len[i] <= maxLen
  {
  }

  lemma LastCodeUnfold(len: seq<int>, n: nat)
    ensures LastCode(len, n) == FirstCode(len, n) + CountEq(len, n) - 1
  {
  }

  lemma BeyondAll(len: seq<int>, minLen: nat, maxLen: nat)
    requires Spans(len, minLen, maxLen)
    ensures forall n: nat :: maxLen < n ==> CountLess(len, n) == |len|
  {
    forall n: nat | maxLen < n ensures CountLess(len, n) == |len| {
      CountAll(len, minLen, n);
    }
  }

  lemma TablesDone(len: seq<int>, maxLen: nat, t: Tables)
    requires Spans(len, t.minLen, maxLen) && |t.limit| == |t.base| == |t.perm| == MAX_ALPHA
    requires forall n :: t.minLen <= n <= maxLen ==> t.limit[n] == LastCode(len, n)
    requires forall n :: maxLen < n <= 22 ==> t.limit[n] == 0
    requires forall n :: t.minLen <= n <= maxLen ==> t.base[n] == FirstCode(len, n) - CountLess(len, n)
    requires forall n :: maxLen < n <= 22 ==> t.base[n] == |len|
    requires forall i :: 0 <= i < |len| ==> t.perm[Place(len, i)] == i
    ensures TablesFor(len, maxLen, t)
  {
  }

  /** The symbols by length, then by number. */
  method FillPerm(perm: array<int>, length: array<nat>, minLen: nat, maxLen: nat, alphaSize: nat)
    requires perm as object != length as object && perm.Length == MAX_ALPHA && alphaSize <= length.Length
    requires Spans(length[..alphaSize], minLen, maxLen)
    modifies perm
    ensures forall i :: 0 <= i < alphaSize ==> perm[Place(length[..alphaSize], i)] == i
  {
    hide *;
    ghost var len := length[..alphaSize];
    SpansFacts(len, minLen, maxLen);
    var pp := 0;
    var i := minLen;
    NoShorter(len, minLen, minLen);
    while i <= maxLen
      invariant minLen <= i <= maxLen + 1 && pp == CountLess(len, i)
      invariant forall k :: 0 <= k < alphaSize && len[k] < i ==> perm[Place(len, k)] == k
    {
      var j := 0;
      CountNone(len, i);
      while j < alphaSize
        invariant j <= alphaSize && pp == CountLess(len, i) + CountEq(len[..j], i)
        invariant forall k :: 0 <= k < alphaSize && (len[k] < i || (len[k] == i && k < j)) ==> perm[Place(len, k)] == k
      {
        CountStep(len, j, i);
        if length[j] == i {
          PlaceUnfold(len, j);
          OtherPlaces(len, j);
          perm[pp] := j;
          pp := pp + 1;
        }
        j := j + 1;
      }
      assert len[..alphaSize] == len;
      CountNext(len, i);
      i := i + 1;
    }
  }

  lemma PlaceUnfold(len: seq<int>, i: nat)
    requires i < |len|
    ensures Place(len, i) == CountLess(len, len[i]) + CountEq(len[..i], len[i])
  {
  }

  lemma OtherPlaces(len: seq<int>, i: nat)
    requires i < |len|
    ensures forall k :: 0 <= k < |len| && k != i ==> Place(len, k) != Place(len, i)
  {
    forall k | 0 <= k < |len| && k != i ensures Place(len, k) != Place(len, i) {
      PlaceInjective(len, i, k);
    }
  }

  /** base[n] becomes the number of codes shorter than n. */
  method CountLengths(base: array<int>, length: array<nat>, alphaSize: nat)
    requires base as object != length as object && base.Length == MAX_ALPHA && alphaSize <= length.Length
    requires forall i :: 0 <= i < alphaSize ==> 1 <= length[i] <= LONGEST
    modifies base
    ensures forall n :: 0 <= n <= 22 ==> base[n] == CountLess(length[..alphaSize], n)
  {
    hide CountEq, CountLess;
    ghost var len := length[..alphaSize];
    var i := 0;
    while i < 23
      invariant i <= 23
      invariant forall n :: 0 <= n < i ==> base[n] == 0
    {
      base[i] := 0;
      i := i + 1;
    }
    i := 0;
    OneShorterNone(len);
    while i < alphaSize
      invariant i <= alphaSize
      invariant forall n :: 0 <= n <= 22 ==> base[n] == OneShorter(len[..i], n)
    {
      OneShorterStep(len, i);
      base[length[i] + 1] := base[length[i] + 1] + 1;
      i := i + 1;
    }
    assert len[..alphaSize] == len;
    CountAll(len, 0, 21);
    NoneOf(len, -1);
    i := 1;
    while i < 23
      invariant 1 <= i <= 23
      invariant forall n :: 0 <= n < i ==> base[n] == CountLess(len, n)
      invariant forall n :: i <= n <= 22 ==> base[n] == OneShorter(len, n)
    {
      CountNext(len, i - 1);
      base[i] := base[i] + base[i - 1];
      i := i + 1;
    }
  }

  /** How many codes are one shorter than n. */
  ghost function OneShorter(len: seq<int>, n: int): nat {
    CountEq(len, n - 1)
  }

  lemma OneShorterNone(len: seq<int>)
    ensures forall n :: 0 <= n <= 22 ==> OneShorter(len[..0], n) == 0
  {
  }

  lemma OneShorterStep(len: seq<int>, i: nat)
    requires i < |len|
    ensures forall n :: 0 <= n <= 22 ==>
      OneShorter(len[..i + 1], n) == OneShorter(len[..i], n) + if len[i] + 1 == n then 1 else 0
  {
    forall n | 0 <= n <= 22
      ensures OneShorter(len[..i + 1], n) == OneShorter(len[..i], n) + if len[i] + 1 == n then 1 else 0
    {
      CountStep(len, i, n - 1);
    }
  }

  // ---------- Decoding one symbol ----------

  /** The outcome of reading one symbol: the symbol and the number of bits it took, a data
      error, or not enough bits. */
  datatype Outcome = Symbol(sym: int, used: nat) | Bad | Short

  /** The loop of GET_MTF_VAL with zn bits of value zvec already taken. */
  function Scan(t: Tables, zn: nat, zvec: nat, bits: seq<bool>): Outcome
    requires |t.limit| == |t.base| == |t.perm| == MAX_ALPHA
    decreases |bits|
  {
    if zn > LONGEST then Bad
    else if zvec <= t.limit[zn] then
      var k := zvec - t.base[zn];
      if k < 0 || k >= MAX_ALPHA then Bad else Symbol(t.perm[k], zn)
    else if bits == [] then Short
    else Scan(t, zn + 1, 2 * zvec + Bit(bits[0]), bits[1..])
  }

  function ReadSymbol(t: Tables, bits: seq<bool>): Outcome
    requires |t.limit| == |t.base| == |t.perm| == MAX_ALPHA
  {
    if |bits| < t.minLen then Short else Scan(t, t.minLen, Value(bits[..t.minLen]), bits[t.minLen..])
  }

  /** zvec is beyond all codes shorter than zn. */
  ghost predicate Beyond(len: seq<int>, zn: nat, zvec: nat) {
    FirstCode(len, zn) <= zvec
  }

  lemma BeyondNext(len: seq<int>, zn: nat, zvec: nat, b: bool)
    requires zvec > LastCode(len, zn)
    ensures Beyond(len, zn + 1, 2 * zvec + Bit(b))
  {
    FirstCodeNext(len, zn);
  }

  /** A value within the codes of its length names the symbol that has this code. */
  lemma Hit(len: seq<int>, maxLen: nat, t: Tables, zn: nat, zvec: nat) returns (i: nat)
    requires TablesFor(len, maxLen, t) && t.minLen <= zn <= maxLen
    requires Beyond(len, zn, zvec) && zvec <= LastCode(len, zn)
    ensures i < |len| && len[i] == zn && Code(len, i) == zvec
    ensures 0 <= zvec - t.base[zn] < |len| && t.perm[zvec - t.base[zn]] == i
  {
    hide FirstCode, CountEq, CountLess;
    var k := zvec - t.base[zn];
    CountNext(len, zn);
    i := PlaceOnto(len, k);
    if len[i] < zn {
      CountMonotone(len, len[i] + 1, zn);
    } else if len[i] > zn {
      CountMonotone(len, zn + 1, len[i]);
    }
  }

  /** Past the longest code nothing matches, not even the zeros left in `limit`. */
  lemma LastCodeIsNatural(len: seq<int>, minLen: nat, maxLen: nat)
    requires Spans(len, minLen, maxLen)
    ensures LastCode(len, maxLen) >= 0
  {
    if LastCode(len, maxLen) < 0 {
      var i := 0;
      CodeBelowNext(len, i);
      if len[i] < maxLen {
        FirstCodeGrows(len, len[i], maxLen);
        MulMonotone(1, FirstCode(len, len[i]) + CountEq(len, len[i]), Pow2(maxLen - len[i]));
      }
    }
  }

  lemma {:induction false} ScanPastLongest(len: seq<int>, maxLen: nat, t: Tables, zn: nat, zvec: nat, bits: seq<bool>)
    requires TablesFor(len, maxLen, t) && maxLen < zn <= 21 && 1 <= zvec
    ensures match Scan(t, zn, zvec, bits)
            case Symbol(_, _) => false
            case Bad => |bits| >= 21 - zn
            case Short => |bits| <= 20 - zn
    decreases |bits|
  {
    if zn <= LONGEST && bits != [] {
      ScanPastLongest(len, maxLen, t, zn + 1, 2 * zvec + Bit(bits[0]), bits[1..]);
    }
  }

  /** For every length vector, even one no encoder makes: the range check on the table index
      never fires, every symbol returned is one of the alphabet, and it is returned exactly
      for the bits of its code. */
  lemma {:induction false} ScanSound(len: seq<int>, maxLen: nat, t: Tables, zn: nat, zvec: nat, bits: seq<bool>)
    requires TablesFor(len, maxLen, t) && t.minLen <= zn <= maxLen && Beyond(len, zn, zvec)
    ensures match Scan(t, zn, zvec, bits)
            case Symbol(sym, used) =>
              && 0 <= sym < |len| && used == len[sym] && zn <= used <= zn + |bits|
              && Code(len, sym) == zvec * Pow2(used - zn) + Value(bits[..used - zn])
            case Bad => |bits| >= 21 - zn
            case Short => |bits| <= 20 - zn
    decreases |bits|
  {
    hide FirstCode, CountEq, CountLess, Code, Value, LastCode, Beyond, Pow2;
    if zvec <= t.limit[zn] {
      var i := Hit(len, maxLen, t, zn, zvec);
      assert bits[..0] == [];
      Pow2Next(0);
      EmptyValue();
    } else if bits != [] {
      var zvec' := 2 * zvec + Bit(bits[0]);
      BeyondNext(len, zn, zvec, bits[0]);
      if zn < maxLen {
        ScanSound(len, maxLen, t, zn + 1, zvec', bits[1..]);
        var o := Scan(t, zn, zvec, bits);
        if o.Symbol? {
          ShiftIn(zvec, bits, o.used - zn);
        }
      } else {
        LastCodeIsNatural(len, t.minLen, maxLen);
        ScanPastLongest(len, maxLen, t, zn + 1, zvec', bits[1..]);
      }
    }
  }

  lemma EmptyValue()
    ensures Value([]) == 0
  {
  }

  /** Taking the bits one at a time is taking them together. */
  lemma ShiftIn(zvec: nat, bits: seq<bool>, k: nat)
    requires 1 <= k <= |bits|
    ensures (2 * zvec + Bit(bits[0])) * Pow2(k - 1) + Value(bits[1..][..k - 1]) == zvec * Pow2(k) + Value(bits[..k])
  {
    hide *;
    var p := Pow2(k - 1);
    Pow2Next(k - 1);
    assert bits[..k] == [bits[0]] + bits[1..][..k - 1];
    ValueConcat([bits[0]], bits[1..][..k - 1]);
    OneBit(bits[0]);
    Distribute(2 * zvec, Bit(bits[0]), p);
    Double(zvec, p);
  }

  lemma OneBit(b: bool)
    ensures Value([b]) == Bit(b)
  {
    assert [b][..0] == [];
  }

  /** The codes decode themselves: whatever follows the bits of a code, the decoder returns its
      symbol and has consumed exactly those bits. */
  lemma ReadsItsCode(len: seq<nat>, maxLen: nat, t: Tables, top: nat, i: nat, rest: seq<bool>)
    requires TablesFor(len, maxLen, t) && PrefixCodes.IsCode(len, top) && i < |len|
    ensures ReadSymbol(t, Bits(Code(len, i), len[i]) + rest) == Symbol(i, len[i])
  {
    hide *;
    TablesForSpans(len, maxLen, t);
    CodeFits(len, top, i);
    ValueOfBits(Code(len, i), len[i]);
    var s := Bits(Code(len, i), len[i]) + rest;
    var m := t.minLen;
    assert s[..len[i]][..m] == s[..m] && s[..len[i]] == Bits(Code(len, i), len[i]);
    ScansToCode(len, maxLen, t, i, m, s);
    ReadSymbolUnfold(t, s);
  }

  lemma TablesForSpans(len: seq<int>, maxLen: nat, t: Tables)
    requires TablesFor(len, maxLen, t)
    ensures Spans(len, t.minLen, maxLen) && |t.limit| == |t.base| == |t.perm| == MAX_ALPHA
    ensures 1 <= t.minLen <= maxLen <= LONGEST && forall i :: 0 <= i < |len| ==> t.minLen <= len[i] <= maxLen
  {
  }

  lemma ReadSymbolUnfold(t: Tables, s: seq<bool>)
    requires |t.limit| == |t.base| == |t.perm| == MAX_ALPHA && t.minLen <= |s|
    ensures ReadSymbol(t, s) == Scan(t, t.minLen, Value(s[..t.minLen]), s[t.minLen..])
  {
  }

  /** Having read a proper part of a code, the decoder goes on. */
  lemma {:induction false} ScansToCode(len: seq<int>, maxLen: nat, t: Tables, i: nat, zn: nat, s: seq<bool>)
    requires TablesFor(len, maxLen, t) && i < |len| && t.minLen <= zn <= len[i] <= |s|
    requires Value(s[..len[i]]) == Code(len, i)
    ensures Scan(t, zn, Value(s[..zn]), s[zn..]) == Symbol(i, len[i])
    decreases len[i] - zn
  {
    hide Code, Value, LastCode, FirstCode, CountEq, CountLess, Pow2;
    var zvec := Value(s[..zn]);
    ValuePrefix(s[..len[i]], zn);
    assert s[..len[i]][..zn] == s[..zn];
    CodeInRange(len, i);
    if zn == len[i] {
      Pow2Next(0);
      var j := Hit(len, maxLen, t, zn, zvec);
      if i < j { SameLengthApart(len, i, j); } else if j < i { SameLengthApart(len, j, i); }
    } else {
      StillBeyond(len, i, zn, zvec);
      assert s[..zn + 1] == s[..zn] + [s[zn]];
      PushBit(s[..zn], s[zn]);
      assert s[zn..][1..] == s[zn + 1..];
      ScansToCode(len, maxLen, t, i, zn + 1, s);
    }
  }

  lemma PushBit(s: seq<bool>, b: bool)
    ensures Value(s + [b]) == 2 * Value(s) + Bit(b)
  {
    assert (s + [b])[..|s|] == s;
  }

  lemma CodeInRange(len: seq<int>, i: nat)
    requires i < |len| && 0 <= len[i]
    ensures Beyond(len, len[i], Code(len, i)) && Code(len, i) <= LastCode(len, len[i])
  {
    CodeBelowNext(len, i);
  }

  lemma StillBeyond(len: seq<int>, i: nat, zn: nat, zvec: nat)
    requires i < |len| && zn < len[i] && Code(len, i) < (zvec + 1) * Pow2(len[i] - zn)
    ensures zvec > LastCode(len, zn)
  {
    hide CountEq, Pow2;
    FirstCodeGrows(len, zn, len[i]);
    if zvec + 1 <= FirstCode(len, zn) + CountEq(len, zn) {
      MulMonotone(zvec + 1, FirstCode(len, zn) + CountEq(len, zn), Pow2(len[i] - zn));
    }
  }
}
