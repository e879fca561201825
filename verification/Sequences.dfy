/** Facts about concatenation that the solver does not find alone, and sequences in pieces. */
module Sequences {

  lemma Assoc<T>(a: seq<T>, b: seq<T>, c: seq<T>)
    ensures a + b + c == a + (b + c)
  {
  }

  lemma AssocFour<T>(a: seq<T>, b: seq<T>, c: seq<T>, d: seq<T>)
    ensures a + b + c + d == a + (b + c + d)
  {
  }

  lemma AssocFive<T>(a: seq<T>, b: seq<T>, c: seq<T>, d: seq<T>, e: seq<T>)
    ensures a + b + c + d + e == a + (b + c + d + e)
  {
  }

  lemma Nothing<T>(s: seq<T>)
    ensures [] + s == s == s + []
  {
  }

  lemma Cancel<T>(a: seq<T>, b: seq<T>, c: seq<T>)
    requires a + c == b + c
    ensures a == b
  {
    assert |a| == |b|;
    assert a == (a + c)[..|a|] && b == (b + c)[..|b|];
  }

  /** The pieces one after another. */
  ghost function Flat<T>(pieces: seq<seq<T>>): seq<T> {
    if pieces == [] then [] else Flat(pieces[..|pieces| - 1]) + pieces[|pieces| - 1]
  }

  lemma {:induction false} FlatPrefix<T>(pieces: seq<seq<T>>, k: nat)
    requires k <= |pieces|
    ensures Flat(pieces[..k]) <= Flat(pieces)
    decreases |pieces|
  {
    if k == |pieces| {
      assert pieces[..k] == pieces;
    } else {
      FlatPrefix(pieces[..|pieces| - 1], k);
      assert pieces[..|pieces| - 1][..k] == pieces[..k];
    }
  }

  lemma FlatNext<T>(pieces: seq<seq<T>>, k: nat)
    requires k < |pieces|
    ensures Flat(pieces[..k + 1]) == Flat(pieces[..k]) + pieces[k]
  {
    assert pieces[..k + 1][..k] == pieces[..k];
  }

  lemma NothingFlat<T>(pieces: seq<seq<T>>)
    ensures Flat(pieces[..0]) == []
  {
  }
}
