/** BZ2_blockSort (dep/bzip2/blocksort.c:1000-1069). */
module BlockSort {
  import opened Rotations
  import opened RotationRank
  import FallbackSort
  import MainSort
  import opened MainCompare

  /** The row where the sorted rotations hold the block itself. */
  method FindOrigPtr(ptr: array<int>, nblock: nat, ghost b: seq<byte>) returns (origPtr: nat)
    requires |b| == nblock && 1 <= nblock <= ptr.Length && InRotationOrder(b, ptr[..nblock])
    ensures origPtr < nblock && ptr[origPtr] == 0
  {
    hide Cmp;
    ghost var z := PermOnto(ptr[..nblock], nblock, 0);
    assert ptr[z] == ptr[..nblock][z];
    origPtr := 0;
    while ptr[origPtr] != 0  // 1003: some row holds it
      invariant origPtr <= z
      decreases z - origPtr
    {
      origPtr := origPtr + 1;
    }
  }

  /** The arrays that sorting works on (dep/bzip2/bzlib.c:168-171): arr1, the equivalence classes
      and the quadrant values that the source lays over arr2, and the two uses of ftab, the bit
      table of fallbackSort and the bucket starts of mainSort. */
  class Arrays {
    const arr1: array<int>
    const eclass: array<int>
    const bhtab: array<bv32>
    const quadrant: array<int>
    const ftab: array<int>
    ghost const Repr: set<object>

    ghost predicate Valid(size: nat) {
      && Repr == {arr1 as object, eclass as object, bhtab as object, quadrant as object, ftab as object}
      && arr1 !in {eclass, quadrant, ftab} && eclass !in {quadrant, ftab} && quadrant != ftab
      && bhtab as object !in {arr1 as object, eclass as object, quadrant as object, ftab as object}
      && arr1.Length == eclass.Length == size && quadrant.Length == size + OVERSHOOT
      && bhtab.Length == ftab.Length == 65537
    }

    constructor (size: nat)
      ensures Valid(size) && fresh(Repr)
    {
      var p, e, q, f := new int[size], new int[size], new int[size + OVERSHOOT], new int[65537];
      var t := new bv32[65537];
      arr1, eclass, bhtab, quadrant, ftab := p, e, t, q, f;
      Repr := {p as object, e as object, t as object, q as object, f as object};
    }
  }

  /** The block, its overshoot, an alignment byte and the quadrant array's 16-bit entries fit the
      4-byte words of arr2 (dep/bzip2/bzlib.c:170). */
  lemma QuadrantFits(nblock: nat, level: nat)
    requires 1 <= level && nblock <= 100000 * level
    ensures nblock + OVERSHOOT + 1 + 2 * (nblock + OVERSHOOT) <= 4 * (100000 * level + OVERSHOOT)
  {
  }

  /** The work that mainSort may do: nblock times (wfact - 1) / 3, wfact clamped to 1..100. */
  function BudgetInit(nblock: nat, wfact: int): (budget: int)
    ensures 0 <= budget
  {
    var w := if wfact < 1 then 1 else if wfact > 100 then 100 else wfact;
    nblock * ((w - 1) / 3)
  }

  /** BZ2_blockSort: the rotations in order, and the row of the block itself.  Small blocks go to
      fallbackSort, others to mainSort first, and to fallbackSort when that gives up. */
  method Sort(a: Arrays, block: array<byte>, nblock: nat, wfact: int, ghost size: nat) returns (origPtr: nat)
    requires a.Valid(size) && block !in a.Repr
    requires 1 <= nblock <= 900000 && nblock <= size && nblock + OVERSHOOT <= block.Length
    modifies a.Repr, block
    ensures InRotationOrder(block[..nblock], a.arr1[..nblock])
    ensures block[..nblock] == old(block[..nblock])
    ensures origPtr < nblock && a.arr1[origPtr] == 0
    ensures forall c :: Uniform(block[..nblock], c) ==> origPtr == if nblock < 10000 then nblock - 1 else 0
  {
    hide InRotationOrder, BudgetInit, Uniform;
    ghost var b := block[..nblock];
    if nblock < 10000 {
      Fallback(a.arr1, block, a.eclass, a.bhtab, nblock);
    } else {
      var budget := BudgetInit(nblock, wfact);
      budget := MainSort.Sort(a.arr1, block, a.quadrant, a.ftab, nblock, budget);
      if budget < 0 {
        Fallback(a.arr1, block, a.eclass, a.bhtab, nblock);
      }
    }
    origPtr := FindOrigPtr(a.arr1, nblock, b);
    assert a.arr1[..nblock][origPtr] == 0;
  }

  method Fallback(ptr: array<int>, block: array<byte>, eclass: array<int>, bhtab: array<bv32>, nblock: nat)
    requires ptr != eclass && bhtab as object !in {ptr as object, eclass as object}
    requires block as object !in {ptr as object, eclass as object, bhtab as object}
    requires 1 <= nblock <= 900000
    requires nblock <= block.Length && nblock <= ptr.Length && nblock <= eclass.Length && bhtab.Length == 65537
    modifies ptr, block, eclass, bhtab
    ensures InRotationOrder(block[..nblock], ptr[..nblock]) && block[..nblock] == old(block[..nblock])
    ensures forall c :: Uniform(block[..nblock], c) ==> FallbackSort.Backwards(ptr[..], nblock)
  {
    hide InRotationOrder, Uniform, FallbackSort.Backwards;
    FallbackSort.Sort(ptr, block, eclass, bhtab, nblock);
    assert block[..][..nblock] == old(block[..])[..nblock];
    assert block[..nblock] == block[..][..nblock] && old(block[..nblock]) == old(block[..])[..nblock];
  }
}
