/** Bit strings, most significant bit first: how numbers travel through bsW and GET_BITS. */
module BitStrings {
  import opened Powers

  function Bit(b: bool): (r: nat)
    ensures r < 2
  {
    if b then 1 else 0
  }

  /** The number a bit string spells. */
  function Value(s: seq<bool>): (v: nat)
    ensures v < Pow2(|s|)
  {
    if s == [] then 0 else 2 * Value(s[..|s| - 1]) + Bit(s[|s| - 1])
  }

  /** The n low bits of v. */
  function Bits(v: nat, n: nat): (s: seq<bool>)
    ensures |s| == n
  {
    if n == 0 then [] else Bits(v / 2, n - 1) + [v % 2 == 1]
  }

  lemma {:induction false} ValueOfBits(v: nat, n: nat)
    requires v < Pow2(n)
    ensures Value(Bits(v, n)) == v
  {
    if n > 0 {
      ValueOfBits(v / 2, n - 1);
      assert Bits(v, n)[..n - 1] == Bits(v / 2, n - 1);
    }
  }

  lemma {:induction false} BitsOfValue(s: seq<bool>)
    ensures Bits(Value(s), |s|) == s
  {
    if s != [] {
      BitsOfValue(s[..|s| - 1]);
    }
  }

  lemma {:induction false} ValueConcat(a: seq<bool>, b: seq<bool>)
    ensures Value(a + b) == Value(a) * Pow2(|b|) + Value(b)
  {
    hide Pow2, Value;
    if b == [] {
      assert a + b == a;
      Pow2Next(0);
      Unfold(b);
    } else {
      ValueConcat(a, b[..|b| - 1]);
      assert (a + b)[..|a + b| - 1] == a + b[..|b| - 1];
      Unfold(a + b);
      Unfold(b);
      Pow2Next(|b| - 1);
      Double(Value(a), Pow2(|b| - 1));
    }
  }

  lemma Unfold(s: seq<bool>)
    ensures Value(s) == if s == [] then 0 else 2 * Value(s[..|s| - 1]) + Bit(s[|s| - 1])
  {
  }

  /** The leading bits of a number. */
  lemma ValuePrefix(s: seq<bool>, n: nat)
    requires n <= |s|
    ensures Value(s[..n]) * Pow2(|s| - n) <= Value(s) < (Value(s[..n]) + 1) * Pow2(|s| - n)
  {
    hide *;
    assert s == s[..n] + s[n..];
    ValueConcat(s[..n], s[n..]);
    Distribute(Value(s[..n]), 1, Pow2(|s| - n));
  }

  /** A long number is sent in two parts. */
  lemma {:induction false} BitsSplit(v: nat, m: nat, n: nat, p: nat, q: nat, r: nat)
    requires p == Pow2(n) && v == q * p + r && r < p
    ensures Bits(v, m + n) == Bits(q, m) + Bits(r, n)
    decreases n
  {
    if n == 0 {
      Pow2Next(0);
      assert Bits(r, n) == [];
    } else {
      hide Pow2;
      Pow2Next(n - 1);
      Double(q, Pow2(n - 1));
      BitsSplit(v / 2, m, n - 1, Pow2(n - 1), q, r / 2);
    }
  }

  lemma DivUnique(a: nat, p: nat, q: nat, r: nat)
    requires a == q * p + r && r < p
    ensures a / p == q && a % p == r
  {
    var d := a / p - q;
    assert d * p == r - a % p;
    if d >= 1 {
      MulMonotone(1, d, p);
    } else if d <= -1 {
      MulMonotone(d, -1, p);
    }
  }
}
