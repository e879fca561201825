/** Move-to-front and zero-run coding as functions, and their round trip
    (dep/bzip2/compress.c:109-219, dep/bzip2/decompress.c:365-469). */
module MoveToFront {
  import opened Rotations
  import opened Counting

  const RUNA := 0
  const RUNB := 1

  // ---------- Move to front ----------

  function Front(l: seq<int>, p: nat): (r: seq<int>)
    requires p < |l|
    ensures |r| == |l|
  {
    [l[p]] + l[..p] + l[p + 1..]
  }

  lemma FrontAt(l: seq<int>, p: nat, i: nat)
    requires p < |l| && i < |l|
    ensures Front(l, p)[i] == if i == 0 then l[p] else if i <= p then l[i - 1] else l[i]
  {
  }

  ghost predicate Distinct(l: seq<int>) {
    forall i, j :: 0 <= i < j < |l| ==> l[i] != l[j]
  }

  lemma FrontDistinct(l: seq<int>, p: nat)
    requires p < |l| && Distinct(l)
    ensures Distinct(Front(l, p))
    ensures forall x :: x in Front(l, p) <==> x in l
  {
    var r := Front(l, p);
    forall i, j | 0 <= i < j < |r| ensures r[i] != r[j] {
      FrontAt(l, p, i);
      FrontAt(l, p, j);
    }
    assert l == l[..p] + [l[p]] + l[p + 1..];
  }

  ghost function IndexOf(l: seq<int>, x: int): (p: nat)
    requires x in l
    ensures p < |l| && l[p] == x
    ensures forall i :: 0 <= i < p ==> l[i] != x
  {
    if l[0] == x then 0 else 1 + IndexOf(l[1..], x)
  }

  lemma IndexOfUnique(l: seq<int>, x: int, p: nat)
    requires Distinct(l) && p < |l| && l[p] == x
    ensures x in l && IndexOf(l, x) == p
  {
    var q := IndexOf(l, x);
    assert l[q] == l[p];
  }

  // ---------- Runs of zeros in bijective base 2 ----------

  /** The digits of z, RUNA for 1 and RUNB for 2, least significant first. */
  ghost function Digits(z: nat): (s: seq<int>)
    ensures forall i :: 0 <= i < |s| ==> s[i] == RUNA || s[i] == RUNB
    ensures |s| <= z
  {
    if z == 0 then [] else [if z % 2 == 0 then RUNB else RUNA] + Digits((z - 1) / 2)
  }

  // ---------- Encoding ----------

  /** The symbols for the sequence numbers `s`, with list `l` and `z` zeros pending. */
  ghost function Encode(l: seq<int>, z: nat, s: seq<int>, eob: int): (r: seq<int>)
    requires forall i :: 0 <= i < |s| ==> s[i] in l
    requires Distinct(l)
    decreases |s|
  {
    if s == [] then Digits(z) + [eob]
    else if l[0] == s[0] then Encode(l, z + 1, s[1..], eob)
    else
      var p := IndexOf(l, s[0]);
      FrontDistinct(l, p);
      Digits(z) + [p + 1] + Encode(Front(l, p), 0, s[1..], eob)
  }

  // ---------- Decoding ----------

  /** The decoder between two symbols: the list, the output so far, and a run being read: its
      length so far and the weight of its next digit (`weight` 1 means no run). */
  datatype Decoder = Decoder(list: seq<int>, out: seq<int>, run: nat, weight: nat)
                   | Finished(out: seq<int>)
                   | Overfull
                   | Overflowed  // a signed 32-bit variable of the source has overflowed, which C leaves undefined

  function Fill(x: int, k: nat): (s: seq<int>)
    ensures |s| == k && forall i :: 0 <= i < k ==> s[i] == x
  {
    seq(k, i => x)
  }

  /** Ending the run would take the frequency of its byte out of the signed 32-bit range. */
  ghost predicate TooFrequent(d: Decoder)
    requires d.Decoder? && d.list != []
  {
    d.run > 0 && CountEq(d.out, d.list[0]) + d.run > INT_MAX
  }

  /** One symbol.  Writing more than `limit` bytes is an error.  The source bounds neither the
      weight of the next digit nor the frequency that a run is added to. */
  ghost function Step(d: Decoder, sym: int, eob: int, limit: nat): (d': Decoder)
    requires d.Decoder? ==> |d.list| > 0 && |d.list| >= eob - 1
    requires 0 <= sym <= eob && 2 <= eob
    ensures d.Decoder? && d'.Decoder? ==> |d'.list| == |d.list|
  {
    if !d.Decoder? then d
    else if (sym == RUNA || sym == RUNB) && 2 * d.weight > INT_MAX then Overflowed
    else if sym == RUNA then d.(run := d.run + d.weight, weight := 2 * d.weight)
    else if sym == RUNB then d.(run := d.run + 2 * d.weight, weight := 2 * d.weight)
    else
      var out := d.out + Fill(d.list[0], d.run);
      if TooFrequent(d) then Overflowed
      else if |out| > limit then Overfull
      else if sym == eob then Finished(out)
      else if |out| >= limit then Overfull
      else Decoder(Front(d.list, sym - 1), out + [d.list[sym - 1]], 0, 1)
  }

  ghost function Run(d: Decoder, syms: seq<int>, eob: int, limit: nat): Decoder
    requires d.Decoder? ==> |d.list| > 0 && |d.list| >= eob - 1
    requires 2 <= eob && forall i :: 0 <= i < |syms| ==> 0 <= syms[i] <= eob
    decreases |syms|
  {
    if syms == [] then d else Run(Step(d, syms[0], eob, limit), syms[1..], eob, limit)
  }

  lemma {:induction false} RunConcat(d: Decoder, a: seq<int>, b: seq<int>, eob: int, limit: nat)
    requires d.Decoder? ==> |d.list| > 0 && |d.list| >= eob - 1
    requires 2 <= eob
    requires forall i :: 0 <= i < |a| ==> 0 <= a[i] <= eob
    requires forall i :: 0 <= i < |b| ==> 0 <= b[i] <= eob
    ensures Run(d, a, eob, limit).Decoder? ==>
      |Run(d, a, eob, limit).list| > 0 && |Run(d, a, eob, limit).list| >= eob - 1
    ensures Run(d, a + b, eob, limit) == Run(Run(d, a, eob, limit), b, eob, limit)
    decreases |a|
  {
    if a == [] {
      assert a + b == b;
    } else {
      assert (a + b)[0] == a[0] && (a + b)[1..] == a[1..] + b;
      RunConcat(Step(d, a[0], eob, limit), a[1..], b, eob, limit);
    }
  }

  /** Reading the digits of z adds z, scaled by the weight reached so far. */
  lemma {:induction false} RunDigits(d: Decoder, z: nat, eob: int, limit: nat)
    requires d.Decoder? && |d.list| > 0 && |d.list| >= eob - 1 && 2 <= eob && z * d.weight < 0x4000_0000
    ensures var d' := Run(d, Digits(z), eob, limit);
      d'.Decoder? && d'.list == d.list && d'.out == d.out && d'.run == d.run + z * d.weight
    ensures z == 0 ==> Run(d, Digits(z), eob, limit) == d
    decreases z
  {
    if z > 0 {
      var z' := (z - 1) / 2;
      DigitStep(z, d.weight);
      var d1 := Step(d, Digits(z)[0], eob, limit);
      assert Digits(z)[1..] == Digits(z');
      RunDigits(d1, z', eob, limit);
    }
  }

  lemma DigitStep(z: nat, w: nat)
    requires z > 0
    ensures z * w == (z - 1) / 2 * (2 * w) + (if z % 2 == 0 then 2 * w else w)
    ensures w <= z * w
  {
    var z' := (z - 1) / 2;
    if z % 2 == 0 {
      assert z == 2 * z' + 2;
    } else {
      assert z == 2 * z' + 1;
    }
    assert z' * (2 * w) == 2 * z' * w;
    assert 0 <= z' * w;
  }

  lemma {:induction false} EncodeSymbols(l: seq<int>, z: nat, s: seq<int>, eob: int)
    requires forall i :: 0 <= i < |s| ==> s[i] in l
    requires Distinct(l) && 2 <= eob && |l| <= eob - 1
    ensures var r := Encode(l, z, s, eob);
      |r| <= z + |s| + 1
      && r != [] && r[|r| - 1] == eob
      && (forall i :: 0 <= i < |r| ==> 0 <= r[i] <= eob)
      && (forall i :: 0 <= i < |r| - 1 ==> r[i] != eob)
    decreases |s|
  {
    if s == [] {
      return;
    }
    assert s[0] in l;
    if l[0] == s[0] {
      EncodeSymbols(l, z + 1, s[1..], eob);
    } else {
      var p := IndexOf(l, s[0]);
      FrontDistinct(l, p);
      EncodeSymbols(Front(l, p), 0, s[1..], eob);
    }
  }

  lemma FrontPrefix(l: seq<int>, L: seq<int>, p: nat)
    requires l <= L && p < |l|
    ensures Front(l, p) <= Front(L, p)
  {
    assert L[..p] == l[..p];
    assert L[p + 1..][..|l| - p - 1] == l[p + 1..];
  }

  /** Decoding what was encoded gives back the pending zeros and then the sequence, whatever
      the list (the decoder's may be longer), and stays within a limit that the whole fits in. */
  lemma {:induction false} RoundTrip(l: seq<int>, L: seq<int>, z: nat, s: seq<int>, out: seq<int>, eob: int, limit: nat)
    requires forall i :: 0 <= i < |s| ==> s[i] in l
    requires Distinct(l) && 2 <= eob && |l| == eob - 1 && l <= L
    requires |out| + z + |s| <= limit < 0x4000_0000
    ensures forall i :: 0 <= i < |Encode(l, z, s, eob)| ==> 0 <= Encode(l, z, s, eob)[i] <= eob
    ensures Run(Decoder(L, out, 0, 1), Encode(l, z, s, eob), eob, limit)
         == Finished(out + Fill(l[0], z) + s)
    decreases |s|
  {
    hide Run, Step, Digits, IndexOf, Front;
    EncodeSymbols(l, z, s, eob);
    var d := Decoder(L, out, 0, 1);
    if s == [] {
      RoundTripDigits(d, z, eob, eob, limit);
      assert out + Fill(l[0], z) + s == out + Fill(l[0], z);
    } else if l[0] == s[0] {
      RoundTrip(l, L, z + 1, s[1..], out, eob, limit);
      assert out + Fill(l[0], z + 1) + s[1..] == out + Fill(l[0], z) + s;
    } else {
      var p := IndexOf(l, s[0]);
      FrontDistinct(l, p);
      FrontPrefix(l, L, p);
      var tail := Encode(Front(l, p), 0, s[1..], eob);
      EncodeSymbols(Front(l, p), 0, s[1..], eob);
      EncodedDigits(z);
      RunConcat(d, Digits(z) + [p + 1], tail, eob, limit);
      RoundTripDigits(d, z, p + 1, eob, limit);
      var out' := out + Fill(l[0], z) + [s[0]];
      RoundTrip(Front(l, p), Front(L, p), 0, s[1..], out', eob, limit);
      assert out' + Fill(Front(l, p)[0], 0) + s[1..] == out + Fill(l[0], z) + s;
    }
  }

  lemma EncodedDigits(z: nat)
    ensures forall i :: 0 <= i < |Digits(z)| ==> Digits(z)[i] == RUNA || Digits(z)[i] == RUNB
  {
  }

  /** Pending zeros, then the symbol that ends them. */
  lemma RoundTripDigits(d: Decoder, z: nat, sym: int, eob: int, limit: nat)
    requires d.Decoder? && d.run == 0 && d.weight == 1 && |d.list| > 0 && |d.list| >= eob - 1
    requires 2 <= eob && 2 <= sym <= eob && |d.out| + z + (if sym == eob then 0 else 1) <= limit < 0x4000_0000
    ensures forall i :: 0 <= i < |Digits(z)| ==> 0 <= Digits(z)[i] <= eob
    ensures Run(d, Digits(z) + [sym], eob, limit)
      == if sym == eob then Finished(d.out + Fill(d.list[0], z))
         else Decoder(Front(d.list, sym - 1), d.out + Fill(d.list[0], z) + [d.list[sym - 1]], 0, 1)
  {
    RunConcat(d, Digits(z), [sym], eob, limit);
    RunDigits(d, z, eob, limit);
    LastSymbol(Run(d, Digits(z), eob, limit), sym, eob, limit);
  }

  lemma LastSymbol(d: Decoder, sym: int, eob: int, limit: nat)
    requires d.Decoder? ==> |d.list| > 0 && |d.list| >= eob - 1
    requires 2 <= eob && 0 <= sym <= eob
    ensures Run(d, [sym], eob, limit) == Step(d, sym, eob, limit)
  {
    assert [sym][1..] == [];
  }
}
