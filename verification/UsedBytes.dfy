/** The bytes in use and their sequence numbers (dep/bzip2/decompress.c:25-34). */
module UsedBytes {
  import opened Rotations
  import MtfEncoder

  /** makeMaps_d: the byte values below k in use, in order. */
  ghost function BytesInUse(inUse: seq<bool>, k: nat): (s: seq<byte>)
    requires k <= |inUse| == 256
    ensures |s| == MtfEncoder.UsedBelow(inUse, k)
  {
    if k == 0 then [] else BytesInUse(inUse, k - 1) + if inUse[k - 1] then [(k - 1) as byte] else []
  }

  lemma {:induction false} UsedByteAt(inUse: seq<bool>, v: nat, k: nat)
    requires v < k <= |inUse| == 256 && inUse[v]
    ensures MtfEncoder.UsedBelow(inUse, v) < |BytesInUse(inUse, k)|
    ensures BytesInUse(inUse, k)[MtfEncoder.UsedBelow(inUse, v)] == v as byte
  {
    if v < k - 1 {
      UsedByteAt(inUse, v, k - 1);
    }
  }

  /** The bytes that a block's sequence numbers name. */
  ghost function Column(inUse: seq<bool>, out: seq<int>): (c: seq<byte>)
    requires |inUse| == 256
    ensures |c| == |out|
  {
    var u := BytesInUse(inUse, 256);
    seq(|out|, i requires 0 <= i < |out| => if 0 <= out[i] < |u| then u[out[i]] else 0)
  }

  /** Numbering the used bytes and looking the numbers up again. */
  lemma ColumnOfNumbers(c: seq<byte>, inUse: seq<bool>)
    requires |inUse| == 256 && forall x :: 0 <= x < |c| ==> inUse[c[x]]
    ensures Column(inUse, MtfEncoder.Numbers(c, inUse)) == c
  {
    hide MtfEncoder.UsedBelow;
    var col := Column(inUse, MtfEncoder.Numbers(c, inUse));
    forall x | 0 <= x < |c| ensures col[x] == c[x] {
      UsedByteAt(inUse, c[x] as nat, 256);
    }
  }

  lemma BytesNext(inUse: seq<bool>, k: nat)
    requires k < |inUse| == 256
    ensures BytesInUse(inUse, k + 1) == BytesInUse(inUse, k) + if inUse[k] then [k as byte] else []
    ensures MtfEncoder.UsedBelow(inUse, k + 1) == MtfEncoder.UsedBelow(inUse, k) + if inUse[k] then 1 else 0
  {
  }

  /** makeMaps_d. */
  method MakeMaps(inUse: seq<bool>, seqToUnseq: seq<byte>) returns (nInUse: nat, unseq: seq<byte>)
    requires |inUse| == 256 && |seqToUnseq| == 256
    ensures nInUse == MtfEncoder.UsedBelow(inUse, 256) <= 256 && |unseq| == 256
    ensures unseq[..nInUse] == BytesInUse(inUse, 256)
  {
    hide MtfEncoder.UsedBelow, BytesInUse;
    nInUse, unseq := 0, seqToUnseq;
    NoBytes(inUse);
    var i := 0;
    while i < 256
      invariant 0 <= i <= 256 && nInUse == MtfEncoder.UsedBelow(inUse, i) && |unseq| == 256
      invariant unseq[..nInUse] == BytesInUse(inUse, i)
    {
      BytesNext(inUse, i);
      if inUse[i] {
        ghost var u := unseq;
        unseq := unseq[nInUse := i as byte];
        assert unseq[..nInUse + 1] == u[..nInUse] + [i as byte];
        nInUse := nInUse + 1;
      }
      i := i + 1;
    }
  }

  lemma NoBytes(inUse: seq<bool>)
    requires |inUse| == 256
    ensures BytesInUse(inUse, 0) == [] && MtfEncoder.UsedBelow(inUse, 0) == 0
  {
  }

  /** Different numbers are different bytes. */
  lemma {:induction false} BytesDistinct(inUse: seq<bool>, k: nat, i: int, j: int)
    requires k <= |inUse| == 256 && 0 <= i < |BytesInUse(inUse, k)| && 0 <= j < |BytesInUse(inUse, k)|
    ensures BytesInUse(inUse, k)[i] == BytesInUse(inUse, k)[j] <==> i == j
    ensures BytesInUse(inUse, k)[i] < k
  {
    hide MtfEncoder.UsedBelow;
    if k > 0 {
      var n := |BytesInUse(inUse, k - 1)|;
      if i < n {
        BytesDistinct(inUse, k - 1, i, if j < n then j else i);
      }
      if j < n {
        BytesDistinct(inUse, k - 1, j, if i < n then i else j);
      }
    }
  }
}
