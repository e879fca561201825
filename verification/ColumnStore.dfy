/** Where the decoder puts the last column: tt or ll16, with the byte frequencies in unzftab
    (dep/bzip2/decompress.c:345-350, 369-403, 458-474). */
module ColumnStore {
  import opened Rotations
  import opened Counting
  import opened RunLength
  import DecodeVectors

  class Store {
    const small: bool            // smallDecompress
    const tt: array<int>
    const ll16: array<int>
    const ll4: array<int>
    const unzftab: array<Int32>
    const cftab: array<int>
    const cftabCopy: array<int>
    var nblock: nat
    /** The bytes stored so far. */
    ghost var col: seq<byte>
    ghost const Repr: set<object>

    ghost predicate Shaped() {
      && Repr == {this, tt as object, ll16 as object, ll4 as object, unzftab as object, cftab as object, cftabCopy as object}
      && tt !in {ll16, ll4, cftab, cftabCopy} && ll16 !in {ll4, cftab, cftabCopy}
      && ll4 !in {cftab, cftabCopy} && cftab != cftabCopy
      && unzftab as object !in {tt as object, ll16 as object, ll4 as object, cftab as object, cftabCopy as object}
      && tt.Length == ll16.Length == 900000 && ll4.Length == 450001
      && unzftab.Length == 256 && cftab.Length == cftabCopy.Length == 257
    }

    /** The array in use. */
    function Cells(): array<int> {
      if small then ll16 else tt
    }

    ghost predicate Valid()
      reads this, tt, ll16, ll4, unzftab
    {
      && Shaped() && DecodeVectors.Packed(ll16, ll4, 900000) && nblock == |col| <= 900000
      && (forall x :: 0 <= x < nblock ==> Cells()[x] == col[x])
      && (forall v :: 0 <= v < 256 ==> unzftab[v] == CountEq(col, v))
    }

    constructor (small: bool)
      ensures Shaped() && DecodeVectors.Packed(ll16, ll4, 900000) && fresh(Repr) && this.small == small
    {
      this.small := small;
      var t, l, q := new int[900000], new int[900000](i => 0), new int[450001](i => 0);
      var u, c, d := new Int32[256], new int[257], new int[257];
      tt, ll16, ll4, unzftab, cftab, cftabCopy := t, l, q, u, c, d;
      nblock, col := 0, [];
      Repr := {this, t as object, l as object, q as object, u as object, c as object, d as object};
    }

    method Clear()
      requires Shaped() && DecodeVectors.Packed(ll16, ll4, 900000)
      modifies this, unzftab
      ensures Valid() && col == []
    {
      var i := 0;
      while i <= 255
        invariant 0 <= i <= 256 && forall v :: 0 <= v < i ==> unzftab[v] == 0
        modifies unzftab
      {
        unzftab[i] := 0;
        i := i + 1;
      }
      nblock, col := 0, [];
    }

    /** es times the byte uc, unless they are too many; its frequency must stay a 32-bit number. */
    method Fill(uc: byte, es: nat, nblockMAX: nat) returns (bad: bool)
      requires Valid() && nblockMAX <= 900000 && nblock <= nblockMAX && CountEq(col, uc) + es <= INT_MAX
      modifies this, tt, ll16, unzftab
      ensures DecodeVectors.Packed(ll16, ll4, 900000)
      ensures bad <==> |old(col)| + es > nblockMAX
      ensures !bad ==> Valid() && col == old(col) + Repeat(uc, es) && nblock <= nblockMAX
    {
      hide CountEq;
      FillCounts(col, uc, es);
      ghost var c := col;
      unzftab[uc] := unzftab[uc] + es;
      var k := es;
      while k > 0
        invariant 0 <= k <= es && nblock == |c| + es - k <= nblockMAX && col == c
        invariant forall x :: 0 <= x < |c| ==> Cells()[x] == c[x]
        invariant forall x :: |c| <= x < nblock ==> Cells()[x] == uc
        invariant DecodeVectors.Packed(ll16, ll4, 900000)
        modifies this`nblock, tt, ll16
      {
        if nblock >= nblockMAX {
          return true;
        }
        if small {
          ll16[nblock] := uc;
        } else {
          tt[nblock] := uc;
        }
        nblock := nblock + 1;
        k := k - 1;
      }
      col := c + Repeat(uc, es);
      return false;
    }

    /** One byte, unless the block is full. */
    method Append(uc: byte)
      requires Valid() && nblock < 900000
      modifies this, tt, ll16, unzftab
      ensures Valid() && col == old(col) + [uc]
    {
      hide CountEq;
      FillCounts(col, uc, 1);
      assert Repeat(uc, 1) == [uc];
      unzftab[uc] := unzftab[uc] + 1;
      if small {
        ll16[nblock] := uc;
      } else {
        tt[nblock] := uc;
      }
      col := col + [uc];
      nblock := nblock + 1;
    }

    /** cftab, with the sanity check of the source, which never fails. */
    method Finish() returns (sane: bool)
      requires Valid()
      modifies cftab
      ensures Valid() && sane && forall v :: 0 <= v <= 256 ==> cftab[v] == CountLess(col, v)
    {
      sane := DecodeVectors.SetUpCftab(unzftab, cftab, nblock, col);
    }
  }

  lemma {:induction false} FillCounts(c: seq<byte>, uc: byte, k: nat)
    ensures forall v :: CountEq(c + Repeat(uc, k), v) == CountEq(c, v) + if v == uc then k else 0
    decreases k
  {
    if k == 0 {
      assert c + Repeat(uc, 0) == c;
    } else {
      FillCounts(c, uc, k - 1);
      assert (c + Repeat(uc, k))[..|c| + k - 1] == c + Repeat(uc, k - 1);
    }
  }
}
