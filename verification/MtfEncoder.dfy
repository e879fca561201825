/** generateMTFValues (dep/bzip2/compress.c:83-219): the symbols are written, two to a word,
    over the sort order they are computed from. */
module MtfEncoder {
  import opened Rotations
  import opened Counting
  import opened InverseBwt
  import opened MoveToFront

  // ---------- The bytes in use ----------

  /** How many of the first k byte values are in use. */
  ghost function UsedBelow(inUse: seq<bool>, k: nat): (r: nat)
    requires k <= |inUse|
    ensures r <= k
  {
    if k == 0 then 0 else UsedBelow(inUse, k - 1) + if inUse[k - 1] then 1 else 0
  }

  lemma {:induction false} UsedMonotone(inUse: seq<bool>, j: nat, k: nat)
    requires j <= k <= |inUse|
    ensures UsedBelow(inUse, j) <= UsedBelow(inUse, k)
    ensures j < k && inUse[j] ==> UsedBelow(inUse, j) < UsedBelow(inUse, k)
    decreases k
  {
    if j < k {
      UsedMonotone(inUse, j, k - 1);
    }
  }

  /** makeMaps_e. */
  method MakeMaps(inUse: array<bool>, unseqToSeq: array<int>) returns (nInUse: nat)
    requires inUse.Length == 256 && unseqToSeq.Length == 256
    modifies unseqToSeq
    ensures nInUse == UsedBelow(inUse[..], 256)
    ensures forall v :: 0 <= v < 256 && inUse[v] ==> unseqToSeq[v] == UsedBelow(inUse[..], v) < nInUse
  {
    nInUse := 0;
    var i := 0;
    while i < 256
      invariant 0 <= i <= 256 && nInUse == UsedBelow(inUse[..], i)
      invariant forall v :: 0 <= v < i && inUse[v] ==> unseqToSeq[v] == UsedBelow(inUse[..], v)
    {
      if inUse[i] {
        unseqToSeq[i] := nInUse;
        nInUse := nInUse + 1;
      }
      i := i + 1;
    }
    forall v | 0 <= v < 256 && inUse[v] ensures UsedBelow(inUse[..], v) < nInUse {
      UsedMonotone(inUse[..], v, 256);
    }
  }

  /** The last column as sequence numbers. */
  ghost function Numbers(c: seq<byte>, inUse: seq<bool>): (s: seq<int>)
    requires |inUse| == 256
    ensures |s| == |c|
    ensures forall i :: 0 <= i < |c| ==> s[i] == UsedBelow(inUse, c[i])
  {
    seq(|c|, i requires 0 <= i < |c| => UsedBelow(inUse, c[i]))
  }

  ghost function Identity(n: nat): (l: seq<int>)
    ensures |l| == n && forall i :: 0 <= i < n ==> l[i] == i
  {
    seq(n, i => i)
  }

  // ---------- Symbols in the halves of words ----------

  /** mtfv: the k first 16-bit halves of the array, low half first. */
  ghost function Halves(a: seq<int>, k: nat): (s: seq<int>)
    requires k <= 2 * |a|
    ensures |s| == k
    ensures forall j :: 0 <= j < k ==> s[j] == if j % 2 == 0 then a[j / 2] % 0x1_0000 else a[j / 2] / 0x1_0000
  {
    seq(k, j requires 0 <= j < k => if j % 2 == 0 then a[j / 2] % 0x1_0000 else a[j / 2] / 0x1_0000)
  }

  /** One symbol goes into half `wr`; words further on are untouched. */
  method PutHalf(a: array<int>, wr: nat, v: int)
    requires wr / 2 < a.Length && 0 <= v < 0x1_0000 && 0 <= a[wr / 2]
    modifies a
    ensures Halves(a[..], wr + 1) == Halves(old(a[..]), wr) + [v]
    ensures forall k :: wr / 2 < k < a.Length ==> a[k] == old(a[k])
    ensures 0 <= a[wr / 2]
    ensures forall k :: 0 <= k < wr / 2 ==> a[k] == old(a[k])
  {
    var w := a[wr / 2];
    if wr % 2 == 0 {
      a[wr / 2] := w / 0x1_0000 * 0x1_0000 + v;
    } else {
      a[wr / 2] := w % 0x1_0000 + v * 0x1_0000;
    }
  }

  /** The writer: the symbols so far, their frequencies, and the part of the sort order not
      yet read (from entry `rd` on), which the writes do not reach. */
  ghost predicate Writing(a: seq<int>, freq: seq<int>, wr: nat, syms: seq<int>, ptr: seq<int>, rd: nat, eob: int)
  {
    && 1 <= |a| == |ptr| && rd <= |a| && wr <= rd + 1
    && 2 <= eob <= 257 && |freq| == 258
    && (forall k :: 0 <= k < rd ==> 0 <= a[k])
    && (forall k :: rd <= k < |a| ==> a[k] == ptr[k])
    && Halves(a, wr) == syms
    && (forall v :: 0 <= v <= eob ==> freq[v] == CountEq(syms, v))
  }

  method Emit(a: array<int>, freq: array<int>, wr: nat, v: int, ghost syms: seq<int>, ghost ptr: seq<int>,
              ghost rd: nat, ghost eob: int)
    requires a != freq
    requires Writing(a[..], freq[..], wr, syms, ptr, rd, eob) && wr <= rd && wr / 2 < rd
    requires 0 <= v <= eob
    modifies a, freq
    ensures Writing(a[..], freq[..], wr + 1, syms + [v], ptr, rd, eob)
  {
    PutHalf(a, wr, v);
    CountsAfter(syms, v);
    freq[v] := freq[v] + 1;
  }

  lemma CountsAfter(syms: seq<int>, v: int)
    ensures forall u :: CountEq(syms + [v], u) == CountEq(syms, u) + if u == v then 1 else 0
  {
    assert (syms + [v])[..|syms|] == syms;
  }

  /** The digits of the pending zero run. */
  method EmitRun(a: array<int>, freq: array<int>, wr0: nat, zPend0: nat, ghost syms: seq<int>, ghost ptr: seq<int>,
                 ghost rd: nat, ghost eob: int) returns (wr: nat)
    requires a != freq
    requires Writing(a[..], freq[..], wr0, syms, ptr, rd, eob) && wr0 + zPend0 <= rd
    modifies a, freq
    ensures Writing(a[..], freq[..], wr, syms + Digits(zPend0), ptr, rd, eob)
    ensures wr == wr0 + |Digits(zPend0)|
  {
    hide Writing, Halves, Digits;
    wr := wr0;
    DigitsZero();
    assert syms + [] == syms;
    if zPend0 > 0 {
      var zPend := zPend0 - 1;
      ghost var done := syms;
      while true
        invariant 0 <= zPend && wr + zPend + 1 <= rd
        invariant Writing(a[..], freq[..], wr, done, ptr, rd, eob)
        invariant done + Digits(zPend + 1) == syms + Digits(zPend0)
        invariant wr + |Digits(zPend + 1)| == wr0 + |Digits(zPend0)|
        decreases zPend
      {
        WritingFacts(a[..], freq[..], wr, done, ptr, rd, eob);
        var digit := if zPend % 2 == 1 then RUNB else RUNA;
        Emit(a, freq, wr, digit, done, ptr, rd, eob);
        DigitsStep(zPend);
        assert done + ([digit] + Digits(zPend / 2)) == (done + [digit]) + Digits(zPend / 2);
        done := done + [digit];
        wr := wr + 1;
        if zPend < 2 {
          break;
        }
        zPend := (zPend - 2) / 2;
      }
      assert done + [] == done;
    }
  }

  lemma WritingFacts(a: seq<int>, freq: seq<int>, wr: nat, syms: seq<int>, ptr: seq<int>, rd: nat, eob: int)
    requires Writing(a, freq, wr, syms, ptr, rd, eob)
    ensures 1 <= |a| == |ptr| && rd <= |a| && wr <= rd + 1 && 2 <= eob <= 257
    ensures |syms| == wr
  {
  }

  lemma DigitsZero()
    ensures Digits(0) == []
  {
  }

  lemma DigitsStep(zPend: nat)
    ensures Digits(zPend + 1) == [if zPend % 2 == 1 then RUNB else RUNA] + Digits(zPend / 2)
    ensures zPend < 2 ==> Digits(zPend / 2) == []
    ensures zPend >= 2 ==> zPend / 2 == (zPend - 2) / 2 + 1
  {
  }

  /** The search that shifts the list along as it goes. */
  method MoveUp(yy: array<int>, n: nat, ll: int) returns (j: nat)
    requires n <= yy.Length && Distinct(yy[..n]) && ll in yy[..n] && yy[0] != ll
    modifies yy
    ensures j == IndexOf(old(yy[..n]), ll) && 1 <= j < n
    ensures yy[..n] == Front(old(yy[..n]), j)
  {
    ghost var l := yy[..n];
    ghost var p := IndexOf(l, ll);
    var rtmp := yy[1];
    yy[1] := yy[0];
    j := 1;
    while ll != rtmp
      invariant 1 <= j <= p < n && rtmp == l[j]
      invariant forall k :: 1 <= k <= j ==> yy[k] == l[k - 1]
      invariant forall k :: j < k < n ==> yy[k] == l[k]
      decreases p - j
    {
      j := j + 1;
      var rtmp2 := rtmp;
      rtmp := yy[j];
      yy[j] := rtmp2;
    }
    yy[0] := rtmp;
    forall k | 0 <= k < n ensures yy[..n][k] == Front(l, p)[k] {
      FrontAt(l, p, k);
    }
  }

  /** What is still to be written: all symbols are those so far and those for the rest. */
  ghost predicate Pending(syms: seq<int>, l: seq<int>, z: nat, s: seq<int>, all: seq<int>, eob: int) {
    && Distinct(l)
    && (forall i :: 0 <= i < |s| ==> s[i] in l)
    && syms + Encode(l, z, s, eob) == all
  }

  lemma PendingZero(syms: seq<int>, l: seq<int>, z: nat, s: seq<int>, all: seq<int>, eob: int)
    requires Pending(syms, l, z, s, all, eob) && s != [] && l != [] && l[0] == s[0]
    ensures Pending(syms, l, z + 1, s[1..], all, eob)
  {
  }

  lemma PendingOther(syms: seq<int>, l: seq<int>, z: nat, s: seq<int>, all: seq<int>, eob: int)
    requires Pending(syms, l, z, s, all, eob) && s != [] && l != [] && l[0] != s[0]
    ensures s[0] in l
    ensures Pending(syms + Digits(z) + [IndexOf(l, s[0]) + 1], Front(l, IndexOf(l, s[0])), 0, s[1..], all, eob)
  {
    assert s[0] in l;
    var p := IndexOf(l, s[0]);
    FrontDistinct(l, p);
    var rest := Encode(Front(l, p), 0, s[1..], eob);
    assert syms + (Digits(z) + [p + 1] + rest) == (syms + Digits(z) + [p + 1]) + rest;
  }

  lemma PendingEnd(syms: seq<int>, l: seq<int>, z: nat, all: seq<int>, eob: int)
    requires Pending(syms, l, z, [], all, eob)
    ensures syms + Digits(z) + [eob] == all
  {
  }

  /** One byte of the last column. */
  method EncodeOne(a: array<int>, freq: array<int>, yy: array<int>, nInUse: nat, wr0: nat, zPend0: nat, ll: int,
                   ghost syms: seq<int>, ghost ptr: seq<int>, ghost rd: nat, ghost eob: int,
                   ghost s: seq<int>, ghost all: seq<int>)
    returns (wr: nat, zPend: nat, ghost syms': seq<int>)
    requires a != freq && a != yy && freq != yy && 1 <= nInUse <= yy.Length && eob == nInUse + 1
    requires Writing(a[..], freq[..], wr0, syms, ptr, rd, eob) && wr0 + zPend0 < rd
    requires s != [] && s[0] == ll && Pending(syms, yy[..nInUse], zPend0, s, all, eob)
    modifies a, freq, yy
    ensures Writing(a[..], freq[..], wr, syms', ptr, rd, eob) && wr + zPend <= rd
    ensures Pending(syms', yy[..nInUse], zPend, s[1..], all, eob)
  {
    hide Writing, Pending;
    wr, zPend, syms' := wr0, zPend0, syms;
    if yy[0] == ll {
      PendingZero(syms, yy[..nInUse], zPend, s, all, eob);
      zPend := zPend + 1;
    } else {
      PendingOther(syms, yy[..nInUse], zPend, s, all, eob);
      PendingDistinct(syms, yy[..nInUse], zPend, s, all, eob);
      WritingFacts(a[..], freq[..], wr, syms, ptr, rd, eob);
      wr := EmitRun(a, freq, wr, zPend, syms, ptr, rd, eob);
      syms' := syms + Digits(zPend);
      zPend := 0;
      var j := MoveUp(yy, nInUse, ll);
      WritingFacts(a[..], freq[..], wr, syms', ptr, rd, eob);
      Emit(a, freq, wr, j + 1, syms', ptr, rd, eob);
      wr := wr + 1;
      syms' := syms' + [j + 1];
    }
  }

  lemma PendingDistinct(syms: seq<int>, l: seq<int>, z: nat, s: seq<int>, all: seq<int>, eob: int)
    requires Pending(syms, l, z, s, all, eob)
    ensures Distinct(l)
  {
  }

  /** All symbols of a block. */
  ghost function SymbolsOf(b: seq<byte>, p: seq<int>, inUse: seq<bool>): (r: seq<int>)
    requires |p| == |b| && forall x :: 0 <= x < |p| ==> 0 <= p[x] < |b|
    requires |inUse| == 256 && forall x :: 0 <= x < |b| ==> inUse[b[x]]
  {
    var l, s := Identity(UsedBelow(inUse, 256)), Numbers(LastColumn(b, p), inUse);
    NumbersInList(LastColumn(b, p), inUse);
    Encode(l, 0, s, |l| + 1)
  }

  lemma NumbersInList(c: seq<byte>, inUse: seq<bool>)
    requires |inUse| == 256 && forall x :: 0 <= x < |c| ==> inUse[c[x]]
    ensures var l, s := Identity(UsedBelow(inUse, 256)), Numbers(c, inUse);
      Distinct(l) && forall i :: 0 <= i < |s| ==> s[i] in l
  {
    var l, s := Identity(UsedBelow(inUse, 256)), Numbers(c, inUse);
    forall i | 0 <= i < |s| ensures s[i] in l {
      UsedMonotone(inUse, c[i], 256);
      assert l[s[i]] == s[i];
    }
  }

  /** generateMTFValues.  The sort order is read from the front while symbols overwrite it from
      the front, never ahead of the reading. */
  method GenerateMtfValues(arr1: array<int>, block: array<byte>, nblock: nat, inUse: array<bool>, freq: array<int>)
    returns (nInUse: nat, nMTF: nat)
    requires arr1 != freq && 1 <= nblock <= arr1.Length && nblock <= block.Length
    requires block as object != arr1 as object && block as object != freq as object
    requires inUse.Length == 256 && freq.Length == 258
    requires inUse as object != arr1 as object && inUse as object != freq as object
    requires forall x :: 0 <= x < nblock ==> 0 <= arr1[x] < nblock
    requires forall x :: 0 <= x < nblock ==> inUse[block[x]]
    modifies arr1, freq
    ensures nInUse == UsedBelow(inUse[..], 256)
    ensures nMTF <= nblock + 1 && nMTF <= 2 * arr1.Length
    ensures Halves(arr1[..], nMTF) == SymbolsOf(block[..nblock], old(arr1[..nblock]), inUse[..])
    ensures forall v :: 0 <= v <= nInUse + 1 ==>
      freq[v] == CountEq(SymbolsOf(block[..nblock], old(arr1[..nblock]), inUse[..]), v)
  {
    hide Writing, Pending, Encode, Halves, CountEq, Digits, UsedBelow;
    var unseqToSeq := new int[256];
    nInUse := MakeMaps(inUse, unseqToSeq);
    var eob := nInUse + 1;
    ghost var b, ptr, used := block[..nblock], arr1[..], inUse[..];
    ghost var c := LastColumn(b, ptr[..nblock]);
    ghost var s, all := Numbers(c, used), SymbolsOf(b, ptr[..nblock], used);
    UsedMonotone(used, b[0], 256);
    ZeroFrequencies(freq, eob);
    var yy := new int[256];
    SetIdentity(yy, nInUse);
    var wr: nat, zPend: nat := 0, 0;
    ghost var syms: seq<int> := [];
    StartWriting(arr1[..], freq[..], eob);
    NumbersInList(c, used);
    StartPending(Identity(nInUse), s, eob);
    assert s[0..] == s;
    var i := 0;
    while i < nblock
      invariant 0 <= i <= nblock && wr + zPend <= i
      invariant fresh(yy) && fresh(unseqToSeq) && yy != unseqToSeq
      invariant forall v :: 0 <= v < 256 && used[v] ==> unseqToSeq[v] == UsedBelow(used, v) < nInUse
      invariant Writing(arr1[..], freq[..], wr, syms, ptr, i, eob)
      invariant Pending(syms, yy[..nInUse], zPend, s[i..], all, eob)
    {
      NotYetRead(arr1[..], freq[..], wr, syms, ptr, i, eob);
      var j := arr1[i] - 1;
      if j < 0 {
        j := j + nblock;
      }
      assert c[i] == b[j];
      var ll := unseqToSeq[block[j]];
      assert s[i..][0] == s[i] == ll && s[i..][1..] == s[i + 1..];
      wr, zPend, syms := EncodeOne(arr1, freq, yy, nInUse, wr, zPend, ll, syms, ptr, i + 1, eob, s[i..], all);
      i := i + 1;
    }
    assert s[nblock..] == [];
    PendingEnd(syms, yy[..nInUse], zPend, all, eob);
    wr := EmitRun(arr1, freq, wr, zPend, syms, ptr, nblock, eob);
    syms := syms + Digits(zPend);
    WritingFacts(arr1[..], freq[..], wr, syms, ptr, nblock, eob);
    Emit(arr1, freq, wr, eob, syms, ptr, nblock, eob);
    nMTF := wr + 1;
    WrittenAll(arr1[..], freq[..], nMTF, all, ptr, nblock, eob);
  }

  method ZeroFrequencies(freq: array<int>, eob: int)
    requires freq.Length == 258 && eob <= 257
    modifies freq
    ensures forall v :: 0 <= v <= eob ==> freq[v] == 0
  {
    var i := 0;
    while i <= eob
      invariant 0 <= i
      invariant forall v :: 0 <= v < i && v <= eob ==> freq[v] == 0
    {
      freq[i] := 0;
      i := i + 1;
    }
  }

  method SetIdentity(yy: array<int>, n: nat)
    requires n <= yy.Length
    modifies yy
    ensures yy[..n] == Identity(n)
  {
    var i := 0;
    while i < n
      invariant 0 <= i <= n
      invariant forall k :: 0 <= k < i ==> yy[k] == k
    {
      yy[i] := i;
      i := i + 1;
    }
  }

  lemma StartWriting(a: seq<int>, freq: seq<int>, eob: int)
    requires 1 <= |a| && |freq| == 258 && 2 <= eob <= 257
    requires forall v :: 0 <= v <= eob ==> freq[v] == 0
    ensures Writing(a, freq, 0, [], a, 0, eob)
  {
  }

  lemma StartPending(l: seq<int>, s: seq<int>, eob: int)
    requires Distinct(l) && forall i :: 0 <= i < |s| ==> s[i] in l
    ensures Pending([], l, 0, s, Encode(l, 0, s, eob), eob)
  {
    assert [] + Encode(l, 0, s, eob) == Encode(l, 0, s, eob);
  }

  /** Entry rd of the sort order is still there, and after reading it one more may be used. */
  lemma NotYetRead(a: seq<int>, freq: seq<int>, wr: nat, syms: seq<int>, ptr: seq<int>, rd: nat, eob: int)
    requires Writing(a, freq, wr, syms, ptr, rd, eob) && rd < |a| && 0 <= ptr[rd]
    ensures a[rd] == ptr[rd]
    ensures Writing(a, freq, wr, syms, ptr, rd + 1, eob)
  {
  }

  lemma WrittenAll(a: seq<int>, freq: seq<int>, wr: nat, syms: seq<int>, ptr: seq<int>, rd: nat, eob: int)
    requires Writing(a, freq, wr, syms, ptr, rd, eob)
    ensures wr <= rd + 1 && wr <= 2 * |a| && Halves(a, wr) == syms
    ensures forall v :: 0 <= v <= eob ==> freq[v] == CountEq(syms, v)
  {
  }
}
