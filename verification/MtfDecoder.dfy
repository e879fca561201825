/** The decoder's move-to-front list: sixteen windows of sixteen entries that slide down a
    4096-byte buffer (dep/bzip2/decompress.c:352-363, 400-457). */
module MtfDecoder {
  import opened MoveToFront

  const MTFA_SIZE := 4096
  const MTFL_SIZE := 16

  /** The windows lie in the buffer in order and do not overlap; in particular none starts
      higher than where a rebase puts it. */
  ghost predicate Windows(a: seq<int>, base: seq<int>) {
    && |a| == 4096 && |base| == 16
    && (forall k :: 0 <= k < 16 ==> 0 <= base[k] <= 3840 + 16 * k)
    && (forall j, k :: 0 <= j < k < 16 ==> base[j] + 16 * (k - j) <= base[k])
  }

  /** Entry j of window k. */
  ghost function Win(a: seq<int>, base: seq<int>, k: int, j: int): int
    requires Windows(a, base) && 0 <= k < 16 && 0 <= j < 16
  {
    a[base[k] + j]
  }

  /** The list of 256 entries that the windows represent. */
  ghost function ListOf(a: seq<int>, base: seq<int>): (l: seq<int>)
    requires Windows(a, base)
    ensures |l| == 256
    ensures forall x :: 0 <= x < 256 ==> l[x] == Win(a, base, x / 16, x % 16)
  {
    seq(256, x requires 0 <= x < 256 => Win(a, base, x / 16, x % 16))
  }

  // ---------- Effect of the two cases, on the buffer as a value ----------

  /** In window lno, entries 1..off come from one place lower, the later ones are unchanged;
      all other windows are as they were. */
  ghost predicate Shifted(a: seq<int>, b: seq<int>, base: seq<int>, lno: int, off: int)
    requires Windows(a, base) && Windows(b, base) && 0 <= lno < 16 && 0 <= off < 16
  {
    && (forall k, j :: 0 <= k < 16 && k != lno && 0 <= j < 16 ==> Win(b, base, k, j) == Win(a, base, k, j))
    && (forall j :: 1 <= j <= off ==> Win(b, base, lno, j) == Win(a, base, lno, j - 1))
    && (forall j :: off < j < 16 ==> Win(b, base, lno, j) == Win(a, base, lno, j))
  }

  lemma SmallMove(a: seq<int>, b: seq<int>, base: seq<int>, nn: nat)
    requires Windows(a, base) && Windows(b, base) && nn < 16
    requires Shifted(a, b, base, 0, nn) && Win(b, base, 0, 0) == Win(a, base, 0, nn)
    ensures ListOf(b, base) == Front(ListOf(a, base), nn)
  {
    hide Windows, Win;
    var l, l' := ListOf(a, base), ListOf(b, base);
    forall x | 0 <= x < 256 ensures l'[x] == Front(l, nn)[x] {
      FrontAt(l, nn, x);
    }
  }

  /** Window starts in the cascade: window lno begins one higher until its turn, windows between
      m and lno have moved down by one. */
  ghost predicate Bases(base: seq<int>, base': seq<int>, lno: int, m: int) {
    && |base| == |base'| == 16 && 0 <= m <= lno < 16
    && (forall k :: 0 <= k < 16 ==>
          base'[k] == if k == lno && m == lno then base[k] + 1 else if m < k < lno then base[k] - 1 else base[k])
  }

  /** Windows above m have received the last entry of the window below. */
  ghost predicate Cascading(a: seq<int>, b: seq<int>, base: seq<int>, lno: int, off: int, m: int)
    requires Windows(a, base) && Windows(b, base) && 0 <= m <= lno < 16 && 0 <= off < 16 && 1 <= base[0]
  {
    && Shifted(a, b, base, lno, off)
    && (m < lno ==> Win(b, base, lno, 0) == Win(a, base, lno - 1, 15))
    && (forall k :: m < k < lno ==> b[base[k] - 1] == Win(a, base, k - 1, 15))
  }

  lemma CascadeStep(a: seq<int>, b: seq<int>, base: seq<int>, base': seq<int>, lno: int, off: int, m: int)
    requires Windows(a, base) && Windows(b, base) && 1 <= m <= lno < 16 && 0 <= off < 16 && 1 <= base[0]
    requires Cascading(a, b, base, lno, off, m) && Bases(base, base', lno, m)
    ensures 0 <= base'[m] - 1 < 4096 && 0 <= base'[m - 1] + 15 < 4096
    ensures var b' := b[base'[m] - 1 := b[base'[m - 1] + 15]];
      Windows(b', base) && Cascading(a, b', base, lno, off, m - 1) && Bases(base, base'[m := base'[m] - 1], lno, m - 1)
  {
    hide Win;
    var q := if m == lno then base[m] else base[m] - 1;
    CascadeWrite(b, base, lno, m, q);
    assert Win(b, base, m - 1, 15) == Win(a, base, m - 1, 15);
  }

  /** The write at the top of window m touches no entry that still counts. */
  lemma CascadeWrite(b: seq<int>, base: seq<int>, lno: int, m: int, q: int)
    requires Windows(b, base) && 1 <= m <= lno < 16 && 1 <= base[0]
    requires q == if m == lno then base[m] else base[m] - 1
    ensures 0 <= q < 4096 && 0 <= base[m - 1] + 15 < 4096 && b[base[m - 1] + 15] == Win(b, base, m - 1, 15)
    ensures var b' := b[q := b[base[m - 1] + 15]];
      && Windows(b', base)
      && (forall k, j :: 0 <= k < 16 && 0 <= j < 16 && (k != lno || 1 <= j) ==> Win(b', base, k, j) == Win(b, base, k, j))
      && (m == lno ==> Win(b', base, lno, 0) == b[base[m - 1] + 15])
      && (m < lno ==> Win(b', base, lno, 0) == Win(b, base, lno, 0) && b'[base[m] - 1] == b[base[m - 1] + 15])
      && (forall k :: m < k < lno ==> b'[base[k] - 1] == b[base[k] - 1])
  {
    var b' := b[q := b[base[m - 1] + 15]];
    forall k, j | 0 <= k < 16 && 0 <= j < 16 && (k != lno || 1 <= j)
      ensures Win(b', base, k, j) == Win(b, base, k, j)
    {
      assert base[k] + j == q ==> k == m - 1 && j == 15;
    }
  }

  lemma CascadeEnd(a: seq<int>, b: seq<int>, base: seq<int>, base': seq<int>, lno: int, off: int)
    requires Windows(a, base) && Windows(b, base) && 1 <= lno < 16 && 0 <= off < 16 && 1 <= base[0]
    requires Cascading(a, b, base, lno, off, 0) && Bases(base, base', lno, 0)
    ensures 0 <= base'[0] - 1 < 4096
    ensures var b2, base2 := b[base'[0] - 1 := Win(a, base, lno, off)], base'[0 := base'[0] - 1];
      Windows(b2, base2) && ListOf(b2, base2) == Front(ListOf(a, base), 16 * lno + off)
  {
    var b2, base2 := b[base'[0] - 1 := Win(a, base, lno, off)], base'[0 := base'[0] - 1];
    assert forall k :: 0 <= k < 16 ==> base2[k] == if k < lno then base[k] - 1 else base[k];
    assert Windows(b2, base2);
    forall k, j | 0 <= k < 16 && 0 <= j < 16
      ensures Win(b2, base2, k, j) == CascadeEntry(a, base, lno, off, k, j)
    {
      if k < lno && 0 < j {
        assert Win(b2, base2, k, j) == Win(b, base, k, j - 1);
      } else if lno <= k {
        assert Win(b2, base2, k, j) == Win(b, base, k, j);
      }
    }
    CascadeList(a, b2, base, base2, lno, off);
  }

  /** Where entry j of window k comes from. */
  ghost function CascadeEntry(a: seq<int>, base: seq<int>, lno: int, off: int, k: int, j: int): int
    requires Windows(a, base) && 1 <= lno < 16 && 0 <= off < 16 && 0 <= k < 16 && 0 <= j < 16
  {
    if k == 0 && j == 0 then Win(a, base, lno, off)
    else if k < lno || (k == lno && j <= off) then
      (if j == 0 then Win(a, base, k - 1, 15) else Win(a, base, k, j - 1))
    else Win(a, base, k, j)
  }

  lemma CascadeList(a: seq<int>, b: seq<int>, base: seq<int>, base2: seq<int>, lno: int, off: int)
    requires Windows(a, base) && Windows(b, base2) && 1 <= lno < 16 && 0 <= off < 16
    requires forall k, j :: 0 <= k < 16 && 0 <= j < 16 ==> Win(b, base2, k, j) == CascadeEntry(a, base, lno, off, k, j)
    ensures ListOf(b, base2) == Front(ListOf(a, base), 16 * lno + off)
  {
    hide Windows, Win;
    var l, l', nn := ListOf(a, base), ListOf(b, base2), 16 * lno + off;
    forall x | 0 <= x < 256 ensures l'[x] == Front(l, nn)[x] {
      FrontAt(l, nn, x);
      assert l'[x] == CascadeEntry(a, base, lno, off, x / 16, x % 16);
    }
  }

  // ---------- The loops ----------

  /** Entries lo+1..lo+off come from one place lower, the rest is unchanged. */
  ghost predicate MovedUp(a: seq<int>, b: seq<int>, lo: int, off: int) {
    && |a| == |b| && 0 <= lo && 0 <= off && lo + off < |a|
    && (forall x :: lo < x <= lo + off ==> b[x] == a[x - 1])
    && (forall x :: 0 <= x < |a| && !(lo < x <= lo + off) ==> b[x] == a[x])
  }

  lemma MovedUpShifts(a: seq<int>, b: seq<int>, base: seq<int>, lno: int, off: int)
    requires Windows(a, base) && 0 <= lno < 16 && 0 <= off < 16 && MovedUp(a, b, base[lno], off)
    ensures Windows(b, base) && Shifted(a, b, base, lno, off)
  {
    forall k, j | 0 <= k < 16 && k != lno && 0 <= j < 16 ensures Win(b, base, k, j) == Win(a, base, k, j) {
      assert if k < lno then base[k] + 16 * (lno - k) <= base[lno] else base[lno] + 16 * (k - lno) <= base[k];
    }
  }

  /** The fast path: four at a time, then one at a time. */
  method ShiftByFour(mtfa: array<int>, pp: int, nn0: nat)
    requires 0 <= pp && pp + nn0 < mtfa.Length
    modifies mtfa
    ensures MovedUp(old(mtfa[..]), mtfa[..], pp, nn0)
  {
    var nn := nn0;
    while nn > 3
      invariant 0 <= nn <= nn0
      invariant forall x :: pp + nn < x <= pp + nn0 ==> mtfa[x] == old(mtfa[x - 1])
      invariant forall x :: 0 <= x < mtfa.Length && !(pp + nn < x <= pp + nn0) ==> mtfa[x] == old(mtfa[x])
    {
      var z := pp + nn;
      mtfa[z] := mtfa[z - 1];
      mtfa[z - 1] := mtfa[z - 2];
      mtfa[z - 2] := mtfa[z - 3];
      mtfa[z - 3] := mtfa[z - 4];
      nn := nn - 4;
    }
    while nn > 0
      invariant 0 <= nn <= nn0
      invariant forall x :: pp + nn < x <= pp + nn0 ==> mtfa[x] == old(mtfa[x - 1])
      invariant forall x :: 0 <= x < mtfa.Length && !(pp + nn < x <= pp + nn0) ==> mtfa[x] == old(mtfa[x])
    {
      mtfa[pp + nn] := mtfa[pp + nn - 1];
      nn := nn - 1;
    }
  }

  method ShiftByOne(mtfa: array<int>, lo: int, off: nat)
    requires 0 <= lo && lo + off < mtfa.Length
    modifies mtfa
    ensures MovedUp(old(mtfa[..]), mtfa[..], lo, off)
  {
    var pp := lo + off;
    while pp > lo
      invariant lo <= pp <= lo + off
      invariant forall x :: pp < x <= lo + off ==> mtfa[x] == old(mtfa[x - 1])
      invariant forall x :: 0 <= x < mtfa.Length && !(pp < x <= lo + off) ==> mtfa[x] == old(mtfa[x])
    {
      mtfa[pp] := mtfa[pp - 1];
      pp := pp - 1;
    }
  }

  /** Entries 16k+j.. of the list have been copied to the top of the buffer. */
  ghost predicate Rebasing(a: seq<int>, b: seq<int>, base: seq<int>, kk: int)
    requires Windows(a, base)
  {
    && |b| == 4096 && 3839 <= kk < 4096
    && (forall x :: kk < x < 4096 ==> b[x] == Win(a, base, (x - 3840) / 16, (x - 3840) % 16))
    && (forall x :: 0 <= x <= kk ==> b[x] == a[x])
  }

  lemma RebaseStep(a: seq<int>, b: seq<int>, base: seq<int>, ii: int, jj: int, kk: int)
    requires Windows(a, base) && 0 <= ii < 16 && 0 <= jj < 16 && kk == 3840 + 16 * ii + jj
    requires Rebasing(a, b, base, kk)
    ensures 0 <= base[ii] + jj <= kk
    ensures Rebasing(a, b[kk := b[base[ii] + jj]], base, kk - 1)
  {
    assert (kk - 3840) / 16 == ii && (kk - 3840) % 16 == jj;
  }

  lemma RebaseEnd(a: seq<int>, b: seq<int>, base: seq<int>, base': seq<int>)
    requires Windows(a, base) && Rebasing(a, b, base, 3839)
    requires |base'| == 16 && forall k :: 0 <= k < 16 ==> base'[k] == 3840 + 16 * k
    ensures Windows(b, base') && ListOf(b, base') == ListOf(a, base)
  {
    forall x | 0 <= x < 256 ensures Win(b, base', x / 16, x % 16) == Win(a, base, x / 16, x % 16) {
      assert base'[x / 16] + x % 16 == 3840 + x;
    }
  }

  class MtfList {
    const mtfa: array<int>
    const mtfbase: array<int>

    /** Between symbols the lowest window has room to slide. */
    ghost predicate Valid()
      reads mtfa, mtfbase
    {
      mtfa != mtfbase && Windows(mtfa[..], mtfbase[..]) && 1 <= mtfbase[0]
    }

    ghost function List(): (l: seq<int>)
      reads mtfa, mtfbase
      requires Valid()
      ensures |l| == 256
    {
      ListOf(mtfa[..], mtfbase[..])
    }

    /** The two arrays of the list. */
    ghost predicate Shaped() {
      mtfa != mtfbase && mtfa.Length == 4096 && mtfbase.Length == 16
    }

    constructor ()
      ensures Shaped() && fresh(mtfa) && fresh(mtfbase)
    {
      mtfa, mtfbase := new int[4096], new int[16];
    }

    /** MTF init: the identity list at the top of the buffer. */
    method Init()
      requires Shaped()
      modifies mtfa, mtfbase
      ensures Valid() && List() == seq(256, x => x)
    {
      var kk := MTFA_SIZE - 1;
      var ii := 256 / MTFL_SIZE - 1;
      while ii >= 0
        invariant -1 <= ii < 16 && kk == 3840 + 16 * ii + 15
        invariant forall x :: kk < x < 4096 ==> mtfa[x] == x - 3840
        invariant forall k :: ii < k < 16 ==> mtfbase[k] == 3840 + 16 * k
      {
        var jj := MTFL_SIZE - 1;
        while jj >= 0
          invariant -1 <= jj < 16 && kk == 3840 + 16 * ii + jj
          invariant forall x :: kk < x < 4096 ==> mtfa[x] == x - 3840
          invariant forall k :: ii < k < 16 ==> mtfbase[k] == 3840 + 16 * k
        {
          mtfa[kk] := ii * MTFL_SIZE + jj;
          kk := kk - 1;
          jj := jj - 1;
        }
        mtfbase[ii] := kk + 1;
        ii := ii - 1;
      }
    }

    /** uc = MTF(nn): returns entry nn and moves it to the front of the list. */
    method Move(nn: nat) returns (uc: int)
      requires Valid() && nn < 256
      modifies mtfa, mtfbase
      ensures Valid() && uc == old(List())[nn] && List() == Front(old(List()), nn)
    {
      if nn < MTFL_SIZE {
        uc := MoveNear(nn);
      } else {
        uc := MoveFar(nn);
        if mtfbase[0] == 0 {
          Rebase();
        }
      }
    }

    method MoveNear(nn: nat) returns (uc: int)
      requires Valid() && nn < 16
      modifies mtfa
      ensures Valid() && uc == old(List())[nn] && List() == Front(old(List()), nn)
    {
      ghost var a, base := mtfa[..], mtfbase[..];
      var pp := mtfbase[0];
      uc := mtfa[pp + nn];
      assert uc == Win(a, base, 0, nn);
      ShiftByFour(mtfa, pp, nn);
      MovedUpShifts(a, mtfa[..], base, 0, nn);
      ghost var b := mtfa[..];
      mtfa[pp] := uc;
      assert mtfa[..] == b[pp := uc];
      FirstEntry(a, b, base, nn, uc);
      SmallMove(a, mtfa[..], base, nn);
    }

    method MoveFar(nn: nat) returns (uc: int)
      requires Valid() && 16 <= nn < 256
      modifies mtfa, mtfbase
      ensures mtfa != mtfbase && Windows(mtfa[..], mtfbase[..])
      ensures uc == old(List())[nn] && ListOf(mtfa[..], mtfbase[..]) == Front(old(List()), nn)
    {
      hide Cascading, Shifted, MovedUp;
      ghost var a, base := mtfa[..], mtfbase[..];
      var lno, off := nn / MTFL_SIZE, nn % MTFL_SIZE;
      var lno0 := lno;
      var pp := mtfbase[lno] + off;
      uc := mtfa[pp];
      assert uc == Win(a, base, lno, off);
      ShiftByOne(mtfa, mtfbase[lno], off);
      MovedUpShifts(a, mtfa[..], base, lno, off);
      mtfbase[lno] := mtfbase[lno] + 1;
      CascadeStart(a, mtfa[..], base, lno, off);
      while lno > 0
        invariant 0 <= lno <= lno0
        invariant Windows(mtfa[..], base) && Cascading(a, mtfa[..], base, lno0, off, lno)
        invariant Bases(base, mtfbase[..], lno0, lno)
      {
        ghost var b, base' := mtfa[..], mtfbase[..];
        CascadeStep(a, b, base, base', lno0, off, lno);
        mtfbase[lno] := mtfbase[lno] - 1;
        mtfa[mtfbase[lno]] := mtfa[mtfbase[lno - 1] + MTFL_SIZE - 1];
        assert mtfbase[..] == base'[lno := base'[lno] - 1];
        assert mtfa[..] == b[base'[lno] - 1 := b[base'[lno - 1] + 15]];
        lno := lno - 1;
      }
      ghost var b, base' := mtfa[..], mtfbase[..];
      CascadeEnd(a, b, base, base', lno0, off);
      mtfbase[0] := mtfbase[0] - 1;
      mtfa[mtfbase[0]] := uc;
      assert mtfbase[..] == base'[0 := base'[0] - 1];
      assert mtfa[..] == b[base'[0] - 1 := uc];
    }

    /** The bottom of the buffer is reached: all windows go back to the top, highest first, so
        that the overlapping copy reads every entry before writing over it. */
    method Rebase()
      requires mtfa != mtfbase && Windows(mtfa[..], mtfbase[..])
      modifies mtfa, mtfbase
      ensures Valid() && List() == ListOf(old(mtfa[..]), old(mtfbase[..]))
    {
      hide Rebasing;
      ghost var a, base := mtfa[..], mtfbase[..];
      var kk := MTFA_SIZE - 1;
      var ii := 256 / MTFL_SIZE - 1;
      RebaseStart(a, base);
      while ii >= 0
        invariant -1 <= ii < 16 && kk == 3840 + 16 * ii + 15
        invariant Rebasing(a, mtfa[..], base, kk)
        invariant forall k :: 0 <= k < 16 ==> mtfbase[k] == if k <= ii then base[k] else 3840 + 16 * k
      {
        var jj := MTFL_SIZE - 1;
        while jj >= 0
          invariant -1 <= jj < 16 && kk == 3840 + 16 * ii + jj
          invariant Rebasing(a, mtfa[..], base, kk)
          invariant mtfbase[ii] == base[ii]
          invariant forall k :: 0 <= k < 16 ==> mtfbase[k] == if k <= ii then base[k] else 3840 + 16 * k
        {
          ghost var b := mtfa[..];
          RebaseStep(a, b, base, ii, jj, kk);
          mtfa[kk] := mtfa[mtfbase[ii] + jj];
          assert mtfa[..] == b[kk := b[base[ii] + jj]];
          kk := kk - 1;
          jj := jj - 1;
        }
        mtfbase[ii] := kk + 1;
        ii := ii - 1;
      }
      RebaseEnd(a, mtfa[..], base, mtfbase[..]);
    }
  }

  lemma FirstEntry(a: seq<int>, b: seq<int>, base: seq<int>, nn: nat, uc: int)
    requires Windows(a, base) && Windows(b, base) && nn < 16 && Shifted(a, b, base, 0, nn)
    ensures var b' := b[base[0] := uc];
      Windows(b', base) && Shifted(a, b', base, 0, nn) && Win(b', base, 0, 0) == uc
  {
    var b' := b[base[0] := uc];
    forall k, j | 0 <= k < 16 && 0 <= j < 16 && (k != 0 || 1 <= j) ensures Win(b', base, k, j) == Win(b, base, k, j) {
      if k > 0 {
        assert base[0] + 16 * (k - 0) <= base[k];
      }
    }
  }

  lemma CascadeStart(a: seq<int>, b: seq<int>, base: seq<int>, lno: int, off: int)
    requires Windows(a, base) && Windows(b, base) && 0 <= lno < 16 && 0 <= off < 16 && 1 <= base[0]
    requires Shifted(a, b, base, lno, off)
    ensures Cascading(a, b, base, lno, off, lno)
  {
  }

  lemma RebaseStart(a: seq<int>, base: seq<int>)
    requires Windows(a, base)
    ensures Rebasing(a, a, base, 4095)
  {
  }
}
