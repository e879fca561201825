/** The table of bucket-header bits, packed 32 to a word
    (dep/bzip2/blocksort.c:196-200, 269-288). */
module BitTable {

  function Mask(k: nat): bv32
    requires k < 32
  {
    (1 as bv32) << k
  }

  function And(w: bv32, m: bv32): bv32 { w & m }

  function Or(w: bv32, m: bv32): bv32 { w | m }

  function AndNot(w: bv32, m: bv32): bv32 { w & !m }

  predicate Bit(w: bv32, k: nat)
    requires k < 32
  {
    And(w, Mask(k)) != 0
  }

  lemma MasksApart(j: nat, k: nat)
    requires j < 32 && k < 32
    ensures Mask(j) != 0
    ensures j != k ==> And(Mask(j), Mask(k)) == 0
  {
  }

  lemma OrApart(w: bv32, m: bv32, n: bv32)
    requires And(m, n) == 0
    ensures And(Or(w, m), n) == And(w, n)
  {
  }

  lemma OrSame(w: bv32, n: bv32)
    ensures And(Or(w, n), n) == n
  {
  }

  lemma AndNotApart(w: bv32, m: bv32, n: bv32)
    requires And(m, n) == 0
    ensures And(AndNot(w, m), n) == And(w, n)
  {
  }

  lemma AndNotSame(w: bv32, n: bv32)
    ensures And(AndNot(w, n), n) == 0
  {
  }

  lemma SetBit(w: bv32, j: nat, k: nat)
    requires j < 32 && k < 32
    ensures Bit(Or(w, Mask(k)), j) <==> j == k || Bit(w, j)
  {
    hide Mask, And, Or;
    MasksApart(k, j);
    if j == k {
      OrSame(w, Mask(k));
    } else {
      OrApart(w, Mask(k), Mask(j));
    }
  }

  lemma ClearBit(w: bv32, j: nat, k: nat)
    requires j < 32 && k < 32
    ensures Bit(AndNot(w, Mask(k)), j) <==> j != k && Bit(w, j)
  {
    hide Mask, And, AndNot;
    MasksApart(k, j);
    if j == k {
      AndNotSame(w, Mask(k));
    } else {
      AndNotApart(w, Mask(k), Mask(j));
    }
  }

  lemma FullWord(j: nat)
    requires j < 32
    ensures Bit(0xffff_ffff, j) && !Bit(0, j)
  {
  }

  /** ISSET_BH: bit z of the table. */
  predicate IsSet(t: seq<bv32>, z: int)
    requires 0 <= z < 32 * |t|
  {
    Bit(t[z / 32], z % 32)
  }

  method Set(t: array<bv32>, z: int)
    requires 0 <= z < 32 * t.Length
    modifies t
    ensures forall j :: 0 <= j < 32 * t.Length ==> (IsSet(t[..], j) <==> j == z || IsSet(old(t[..]), j))
  {
    hide Bit, Mask, And, Or, AndNot;
    var w := t[z / 32];
    t[z / 32] := Or(w, Mask(z % 32));
    forall j | 0 <= j < 32 * t.Length
      ensures IsSet(t[..], j) <==> j == z || IsSet(old(t[..]), j)
    {
      SetBit(w, j % 32, z % 32);
    }
  }

  method Clear(t: array<bv32>, z: int)
    requires 0 <= z < 32 * t.Length
    modifies t
    ensures forall j :: 0 <= j < 32 * t.Length ==> (IsSet(t[..], j) <==> j != z && IsSet(old(t[..]), j))
  {
    hide Bit, Mask, And, Or, AndNot;
    var w := t[z / 32];
    t[z / 32] := AndNot(w, Mask(z % 32));
    forall j | 0 <= j < 32 * t.Length
      ensures IsSet(t[..], j) <==> j != z && IsSet(old(t[..]), j)
    {
      ClearBit(w, j % 32, z % 32);
    }
  }

  lemma WholeWord(t: seq<bv32>, k: int, j: int)
    requires 0 <= k <= j < k + 32 && k % 32 == 0 && k / 32 < |t|
    ensures t[k / 32] == 0xffff_ffff ==> IsSet(t, j)
    ensures t[k / 32] == 0 ==> !IsSet(t, j)
  {
    FullWord(j % 32);
    assert j / 32 == k / 32;
  }

  /** The first clear bit at or after k0, skipping full words; `c` is some clear bit. */
  method SkipSet(t: array<bv32>, k0: int, ghost c: int) returns (k: int)
    requires 0 <= k0 <= c < 32 * t.Length && !IsSet(t[..], c)
    ensures k0 <= k <= c && !IsSet(t[..], k)
    ensures forall j :: k0 <= j < k ==> IsSet(t[..], j)
  {
    hide Bit;
    k := k0;
    while IsSet(t[..], k) && k % 32 != 0
      invariant k0 <= k <= c
      invariant forall j :: k0 <= j < k ==> IsSet(t[..], j)
      decreases c - k
    {
      k := k + 1;
    }
    if IsSet(t[..], k) {
      while t[k / 32] == 0xffff_ffff
        invariant k0 <= k <= c && k % 32 == 0
        invariant forall j :: k0 <= j < k ==> IsSet(t[..], j)
        decreases c - k
      {
        forall j | k <= j < k + 32 ensures j < 32 * t.Length && IsSet(t[..], j) {
          WholeWord(t[..], k, j);
        }
        k := k + 32;
      }
      while IsSet(t[..], k)
        invariant k0 <= k <= c
        invariant forall j :: k0 <= j < k ==> IsSet(t[..], j)
        decreases c - k
      {
        k := k + 1;
      }
    }
  }

  /** The first set bit at or after k0, skipping empty words; `c` is some set bit. */
  method SkipClear(t: array<bv32>, k0: int, ghost c: int) returns (k: int)
    requires 0 <= k0 <= c < 32 * t.Length && IsSet(t[..], c)
    ensures k0 <= k <= c && IsSet(t[..], k)
    ensures forall j :: k0 <= j < k ==> !IsSet(t[..], j)
  {
    hide Bit;
    k := k0;
    while !IsSet(t[..], k) && k % 32 != 0
      invariant k0 <= k <= c
      invariant forall j :: k0 <= j < k ==> !IsSet(t[..], j)
      decreases c - k
    {
      k := k + 1;
    }
    if !IsSet(t[..], k) {
      while t[k / 32] == 0
        invariant k0 <= k <= c && k % 32 == 0
        invariant forall j :: k0 <= j < k ==> !IsSet(t[..], j)
        decreases c - k
      {
        forall j | k <= j < k + 32 ensures j < 32 * t.Length && !IsSet(t[..], j) {
          WholeWord(t[..], k, j);
        }
        k := k + 32;
      }
      while !IsSet(t[..], k)
        invariant k0 <= k <= c
        invariant forall j :: k0 <= j < k ==> !IsSet(t[..], j)
        decreases c - k
      {
        k := k + 1;
      }
    }
  }
}
