/** Any schedule of output calls, for both versions of unRLE_obuf_to_output
    (dep/bzip2/bzlib.c:510-767, 783-800). */
module OutputSchedules {
  import opened Sequences
  import opened Rotations
  import opened InverseBwt
  import opened RunLength
  import opened BlockOutput
  import BlockCrc

  datatype Drained = Drained(bytes: seq<byte>, corrupt: bool)

  /** What a series of calls hands out, up to the call that reports corruption: `eager` calls
      report it when the last byte fits exactly (FAST), the others need room to spare (SMALL). */
  function Calls(p: Expansion, rooms: seq<nat>, eager: bool): Drained
    decreases |rooms|
  {
    if rooms == [] then Drained([], false)
    else
      var out := Handed(p, rooms[0]);
      if p.corrupt && (if eager then |p.bytes| <= rooms[0] else |p.bytes| < rooms[0]) then Drained(out, true)
      else
        var rest := Calls(Expansion(p.bytes[|out|..], p.corrupt), rooms[1..], eager);
        Drained(out + rest.bytes, rest.corrupt)
  }

  function Sum(rooms: seq<nat>): nat {
    if rooms == [] then 0 else rooms[0] + Sum(rooms[1..])
  }

  /** Under every schedule both versions hand out the same bytes, the first of the expansion up
      to the room given; a corrupt block is reported once everything is out, by FAST as soon as
      the room suffices, by SMALL only when it exceeds the bytes. */
  lemma {:induction false} CallsHandOut(p: Expansion, rooms: seq<nat>, eager: bool)
    ensures Calls(p, rooms, eager).bytes == Handed(p, Sum(rooms))
    ensures rooms != [] ==>
      (Calls(p, rooms, eager).corrupt <==>
        p.corrupt && (if eager then |p.bytes| <= Sum(rooms) else |p.bytes| < Sum(rooms)))
    decreases |rooms|
  {
    hide Handed, Calls, Sum;
    CallsUnfold(p, rooms, eager);
    SumUnfold(rooms);
    HandedParts(p, 0, 0);
    if rooms != [] {
      var out := Handed(p, rooms[0]);
      var p' := Expansion(p.bytes[|out|..], p.corrupt);
      CallsHandOut(p', rooms[1..], eager);
      CallsUnfold(p', rooms[1..], eager);
      SumUnfold(rooms[1..]);
      HandedParts(p, rooms[0], Sum(rooms[1..]));
      HandedParts(p', Sum(rooms[1..]), 0);
      Nothing(out);
    }
  }

  lemma SumUnfold(rooms: seq<nat>)
    ensures Sum(rooms) == if rooms == [] then 0 else rooms[0] + Sum(rooms[1..])
  {
  }

  /** Room for j and then for k bytes. */
  lemma HandedParts(p: Expansion, j: nat, k: nat)
    ensures var out := Handed(p, j); var p' := Expansion(p.bytes[|out|..], p.corrupt);
      && Handed(p, j + k) == out + Handed(p', k) && (j == 0 ==> out == [])
      && |out| == (if j <= |p.bytes| then j else |p.bytes|)
      && (|p.bytes| <= j ==> Handed(p', k) == [])
  {
  }

  /** The two verdicts differ for exactly one total amount of room. */
  lemma VerdictsDiffer(p: Expansion, rooms: seq<nat>)
    requires rooms != []
    ensures Calls(p, rooms, true).bytes == Calls(p, rooms, false).bytes
    ensures Calls(p, rooms, true).corrupt != Calls(p, rooms, false).corrupt
      <==> p.corrupt && Sum(rooms) == |p.bytes|
  {
    CallsHandOut(p, rooms, true);
    CallsHandOut(p, rooms, false);
  }

  lemma CallsUnfold(p: Expansion, rooms: seq<nat>, eager: bool)
    ensures rooms == [] ==> Calls(p, rooms, eager) == Drained([], false)
    ensures rooms != [] ==>
      var out := Handed(p, rooms[0]);
      var rest := Calls(Expansion(p.bytes[|out|..], p.corrupt), rooms[1..], eager);
      Calls(p, rooms, eager) ==
        if p.corrupt && (if eager then |p.bytes| <= rooms[0] else |p.bytes| < rooms[0]) then Drained(out, true)
        else Drained(out + rest.bytes, rest.corrupt)
  {
  }

  // ---------- The two versions ----------

  /** One call after another of unRLE_obuf_to_output_FAST. */
  method DrainFast(o: FastOutput, rooms: seq<nat>) returns (r: Drained)
    requires o.Valid()
    modifies o
    ensures r == Calls(old(o.ToCome()), rooms, true)
    ensures o.Valid() && (!r.corrupt ==> o.crc == BlockCrc.Over(old(o.crc), r.bytes))
  {
    hide *;
    ghost var p0, crc0 := o.ToCome(), o.crc;
    r := Drained([], false);
    var i := 0;
    assert rooms[0..] == rooms;
    Nothing(Calls(p0, rooms, true).bytes);
    CrcNone(crc0);
    while i < |rooms| && !r.corrupt
      invariant i <= |rooms| && o.Valid()
      invariant !r.corrupt ==> o.crc == BlockCrc.Over(crc0, r.bytes)
      invariant !r.corrupt ==>
        var rest := Calls(o.ToCome(), rooms[i..], true); Calls(p0, rooms, true) == Drained(r.bytes + rest.bytes, rest.corrupt)
      invariant r.corrupt ==> r == Calls(p0, rooms, true)
    {
      ghost var p := o.ToCome();
      CallsUnfold(p, rooms[i..], true);
      assert rooms[i..][1..] == rooms[i + 1..];
      o.SetRoom(rooms[i]);
      var w, bad := o.UnRle();
      Assoc(r.bytes, w, Calls(Expansion(p.bytes[|w|..], p.corrupt), rooms[i + 1..], true).bytes);
      BlockCrc.OverConcat(crc0, r.bytes, w);
      r, i := Drained(r.bytes + w, bad), i + 1;
    }
    if !r.corrupt {
      CallsUnfold(o.ToCome(), rooms[i..], true);
      Nothing(r.bytes);
    }
  }

  /** One call after another of unRLE_obuf_to_output_SMALL. */
  method DrainSmall(o: SmallOutput, rooms: seq<nat>) returns (r: Drained)
    requires o.Valid()
    modifies o
    ensures r == Calls(old(o.ToCome()), rooms, false)
    ensures o.Valid() && o.crc == BlockCrc.Over(old(o.crc), r.bytes)
  {
    hide *;
    ghost var p0, crc0 := o.ToCome(), o.crc;
    r := Drained([], false);
    var i := 0;
    assert rooms[0..] == rooms;
    Nothing(Calls(p0, rooms, false).bytes);
    CrcNone(crc0);
    while i < |rooms| && !r.corrupt
      invariant i <= |rooms| && o.Valid() && o.crc == BlockCrc.Over(crc0, r.bytes)
      invariant !r.corrupt ==>
        var rest := Calls(o.ToCome(), rooms[i..], false); Calls(p0, rooms, false) == Drained(r.bytes + rest.bytes, rest.corrupt)
      invariant r.corrupt ==> r == Calls(p0, rooms, false)
    {
      ghost var p := o.ToCome();
      CallsUnfold(p, rooms[i..], false);
      assert rooms[i..][1..] == rooms[i + 1..];
      o.SetRoom(rooms[i]);
      var w, bad := o.UnRle();
      Assoc(r.bytes, w, Calls(Expansion(p.bytes[|w|..], p.corrupt), rooms[i + 1..], false).bytes);
      BlockCrc.OverConcat(crc0, r.bytes, w);
      r, i := Drained(r.bytes + w, bad), i + 1;
    }
    if !r.corrupt {
      CallsUnfold(o.ToCome(), rooms[i..], false);
      Nothing(r.bytes);
    }
  }

  /** Both versions loaded with the same column, under one schedule: the same bytes and checksum,
      and verdicts that differ exactly when the room is just enough for a corrupt block. */
  method DrainBoth(f: FastOutput, s: SmallOutput, rooms: seq<nat>) returns (a: Drained, b: Drained)
    requires f.Valid() && s.Valid() && rooms != [] && s.ll16 != f.tt && s.ll4 != f.tt && s.cftab != f.tt
    requires f.ToCome() == s.ToCome() && f.crc == s.crc
    modifies f, s
    ensures a.bytes == b.bytes && (a.corrupt != b.corrupt <==> old(f.ToCome()).corrupt && Sum(rooms) == |old(f.ToCome()).bytes|)
    ensures b.corrupt ==> a.corrupt
    ensures !a.corrupt ==> f.crc == s.crc
  {
    hide *;
    VerdictsDiffer(f.ToCome(), rooms);
    CallsHandOut(f.ToCome(), rooms, true);
    CallsHandOut(f.ToCome(), rooms, false);
    a := DrainFast(f, rooms);
    b := DrainSmall(s, rooms);
  }

  /** Freshly loaded with the same column and row, both have the same to hand out, though each
      built the vector its own way. */
  lemma SameToCome(f: FastOutput, s: SmallOutput)
    requires f.Valid() && s.Valid() && f.c == s.c && f.origPtr == s.origPtr < |f.c| && IsTInverse(f.c, f.t)
      && IsTInverse(s.c, s.t)
    requires f.ToCome() == Coming(StreamOf(f.c, f.t, f.origPtr), |f.c|, 1)
    requires s.ToCome() == Coming(StreamOf(s.c, s.t, s.origPtr), |s.c|, 1)
    ensures f.ToCome() == s.ToCome()
  {
    hide *;
    TInverseUnique(f.c, f.t, s.t);
  }

  /** A corrupt block for which the verdicts differ: a column of four equal bytes x has no count
      of its own, so what is read past its end, again x, is taken for one. */
  lemma FourEqual(x: byte, t: seq<int>)
    requires IsTInverse([x, x, x, x], t)
    ensures var p := Coming(StreamOf([x, x, x, x], t, 0), 4, 1);
      && p == Expansion(Repeat(x, x as int + 4), true)
      && Calls(p, [x as int + 4], true) == Drained(p.bytes, true) && Calls(p, [x as int + 4], false) == Drained(p.bytes, false)
  {
    var c, d := [x, x, x, x], StreamOf([x, x, x, x], t, 0);
    AllFetched(c, t, x, d);
    var p := Coming(d, 4, 1);
    assert NextRun(d, 4, 1) == (x as int + 4, 6);
    assert Coming(d, 4, 6) == Expansion([], true);
    assert Repeat(x, x as int + 4) + [] == Repeat(x, x as int + 4);
    assert |p.bytes| == x as int + 4;
    CallsHandOut(p, [x as int + 4], true);
    CallsHandOut(p, [x as int + 4], false);
    assert [x as int + 4][1..] == [];
    assert p.bytes[..|p.bytes|] == p.bytes;
  }

  lemma AllFetched(c: seq<byte>, t: seq<int>, x: byte, d: seq<byte>)
    requires |c| > 0 && IsTInverse(c, t) && d == StreamOf(c, t, 0) && forall i :: 0 <= i < |c| ==> c[i] == x
    ensures forall k :: 0 <= k < |d| ==> d[k] == x
  {
    hide IsTInverse;
    forall k | 0 <= k < |d| ensures d[k] == x {
      TInverseIsPerm(c, t);
      assert d[k] == Fetched(c, t, 0, k);
    }
  }
}
