/** What of a sorted block depends on the sorter: the comment at dep/bzip2/blocksort.c:1036-1042
    promises the same compressed stream from both. */
module SorterChoice {
  import opened Rotations
  import opened RotationRank
  import opened EqualRotations
  import opened InverseBwt
  import opened BlockSort
  import opened MainCompare
  import MainSort

  /** The last column is the same for every order of equal rotations. */
  lemma ColumnSame(b: seq<byte>, p: seq<int>, q: seq<int>)
    requires InRotationOrder(b, p) && InRotationOrder(b, q)
    ensures LastColumn(b, p) == LastColumn(b, q)
  {
    hide Cmp, Rank, Adv;
    forall x | 0 <= x < |b| ensures LastColumn(b, p)[x] == LastColumn(b, q)[x] {
      SortedAgree(b, p, q, x);
      SameRank(b, p[x], q[x]);
      AdvSmall(|b|, p[x], |b| - 1);
      AdvSmall(|b|, q[x], |b| - 1);
      TwinsMove(b, p[x], q[x], |b| - 1);
      TwinByte(b, Adv(|b|, p[x], |b| - 1), Adv(|b|, q[x], |b| - 1));
    }
  }

  /** No other rotation is the same string as the block: it is no repetition of a shorter one. */
  ghost predicate Unrepeated(b: seq<byte>) {
    forall j :: 0 < j < |b| ==> Cmp(b, 0, j, |b|) != 0
  }

  /** Exchanging the slots of two equal rotations leaves the order right. */
  lemma EqualExchanged(b: seq<byte>, p: seq<int>, o: nat, x: nat)
    requires InRotationOrder(b, p) && o < |b| && x < |b| && Cmp(b, p[o], p[x], |b|) == 0
    ensures InRotationOrder(b, p[o := p[x]][x := p[o]])
  {
    hide Cmp, Rank;
    var q := p[o := p[x]][x := p[o]];
    SameRank(b, p[o], p[x]);
    forall y, z | 0 <= y < z < |b| ensures Rank(b, q[y]) <= Rank(b, q[z]) {
      RankIsOrder(b, p[y], p[z]);
    }
    SortedByRank(b, q);
  }

  /** origPtr is the same in every sorted order exactly when the block is no repetition. */
  lemma OrigPtrSame(b: seq<byte>, p: seq<int>, o: nat)
    requires InRotationOrder(b, p) && o < |b| && p[o] == 0
    ensures Unrepeated(b) <==>
      forall q, o' :: InRotationOrder(b, q) && 0 <= o' < |b| && q[o'] == 0 ==> o' == o
  {
    hide Cmp;
    if Unrepeated(b) {
      forall q, o' | InRotationOrder(b, q) && 0 <= o' < |b| && q[o'] == 0 ensures o' == o {
        SortedAgree(b, p, q, o);
        assert q[o] == 0;
      }
    } else {
      var j :| 0 < j < |b| && Cmp(b, 0, j, |b|) == 0;
      var x := PermOnto(p, |b|, j);
      EqualExchanged(b, p, o, x);
      var q := p[o := p[x]][x := p[o]];
      assert InRotationOrder(b, q) && q[x] == 0 && x != o;
    }
  }

  /** Both sorters on the same block, and the origPtr of each.  It is the same if the block is no
      repetition.  A block of one repeated byte is listed from first to last by mainSort, which does
      no work on it, and from last to first by fallbackSort. */
  method BothSorters(a: Arrays, block: array<byte>, nblock: nat, wfact: int, ghost size: nat)
    returns (finished: bool, mainRow: nat, fallbackRow: nat)
    requires a.Valid(size) && block !in a.Repr
    requires OVERSHOOT < nblock <= 900000 && nblock <= size && nblock + OVERSHOOT <= block.Length
    modifies a.Repr, block
    ensures block[..nblock] == old(block[..nblock])
    ensures finished && Unrepeated(block[..nblock]) ==> mainRow == fallbackRow
    ensures forall c :: Uniform(block[..nblock], c) ==> finished && mainRow == 0 && fallbackRow == nblock - 1
  {
    hide InRotationOrder, BudgetInit, Unrepeated, Uniform, Cmp;
    ghost var b := block[..nblock];
    var budget := BudgetInit(nblock, wfact);
    budget := MainSort.Sort(a.arr1, block, a.quadrant, a.ftab, nblock, budget);
    finished, mainRow := budget >= 0, 0;
    ghost var p := a.arr1[..nblock];
    if finished {
      mainRow := FindOrigPtr(a.arr1, nblock, b);
      OrigPtrSame(b, p, mainRow);
    }
    Fallback(a.arr1, block, a.eclass, a.bhtab, nblock);
    fallbackRow := FindOrigPtr(a.arr1, nblock, b);
    assert a.arr1[..nblock][fallbackRow] == 0;
  }
}
