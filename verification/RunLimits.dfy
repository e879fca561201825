/** Where the decoder's signed 32-bit numbers are exact.  Nothing bounds the weight of a run's next
    digit, nor the frequency that a run is added to (dep/bzip2/decompress.c:372-385): over whole
    sequences of symbols, when the code and unbounded numbers agree. */
module RunLimits {
  import opened Powers
  import opened Rotations
  import opened Counting
  import opened MoveToFront

  // ---------- The digits of one run ----------

  /** The value of the digits of a run, in unbounded numbers. */
  ghost function RunValue(s: seq<int>): (v: nat)
    requires forall i :: 0 <= i < |s| ==> s[i] == RUNA || s[i] == RUNB
  {
    if s == [] then 0 else RunValue(s[..|s| - 1]) + (s[|s| - 1] + 1) * Pow2(|s| - 1)
  }

  lemma {:induction false} RunValueRange(s: seq<int>)
    requires forall i :: 0 <= i < |s| ==> s[i] == RUNA || s[i] == RUNB
    ensures Pow2(|s|) - 1 <= RunValue(s) <= 2 * (Pow2(|s|) - 1)
  {
    if s != [] {
      RunValueRange(s[..|s| - 1]);
    }
  }

  /** The digits of a run, wherever it starts: up to thirty give their value, and more take N out
      of the signed 32-bit range.  The code and unbounded numbers agree exactly up to thirty. */
  lemma {:induction false} RunOverflows(d: Decoder, s: seq<int>, eob: int, limit: nat)
    requires d.Decoder? && d.run == 0 && d.weight == 1 && |d.list| > 0 && |d.list| >= eob - 1 && 2 <= eob
    requires forall i :: 0 <= i < |s| ==> s[i] == RUNA || s[i] == RUNB
    ensures Run(d, s, eob, limit) ==
      if |s| <= 30 then d.(run := RunValue(s), weight := Pow2(|s|)) else Overflowed
    ensures |s| <= 30 <==> RunValue(s) < INT_MAX
    decreases |s|
  {
    hide Pow2, RunValue, Run, Step;
    LengthLimits(s);
    RunValueNext(s);
    if s == [] {
      Pow2Next(0);
      NoSymbols(d, eob, limit);
    } else {
      var m := |s| - 1;
      RunOverflows(d, s[..m], eob, limit);
      assert s == s[..m] + [s[m]];
      RunConcat(d, s[..m], [s[m]], eob, limit);
      LastSymbol(Run(d, s[..m], eob, limit), s[m], eob, limit);
      LengthLimits(s[..m]);
      Pow2Next(m);
      DigitSymbol(Run(d, s[..m], eob, limit), s[m], eob, limit);
    }
  }

  lemma NoSymbols(d: Decoder, eob: int, limit: nat)
    requires d.Decoder? && |d.list| > 0 && |d.list| >= eob - 1 && 2 <= eob
    ensures Run(d, [], eob, limit) == d
  {
  }

  /** A run digit. */
  lemma DigitSymbol(d: Decoder, sym: int, eob: int, limit: nat)
    requires (d.Decoder? ==> |d.list| > 0 && |d.list| >= eob - 1) && 2 <= eob && (sym == RUNA || sym == RUNB)
    ensures !d.Decoder? ==> Step(d, sym, eob, limit) == d
    ensures d.Decoder? && 2 * d.weight > INT_MAX ==> Step(d, sym, eob, limit) == Overflowed
    ensures d.Decoder? && 2 * d.weight <= INT_MAX ==>
      Step(d, sym, eob, limit) == d.(run := d.run + (sym + 1) * d.weight, weight := 2 * d.weight)
  {
  }

  /** How long a run may be. */
  lemma LengthLimits(s: seq<int>)
    requires forall i :: 0 <= i < |s| ==> s[i] == RUNA || s[i] == RUNB
    ensures |s| <= 30 <==> RunValue(s) < INT_MAX
    ensures |s| <= 29 <==> 2 * Pow2(|s|) <= INT_MAX
  {
    hide Pow2, RunValue;
    Pow2Thirty();
    RunValueRange(s);
    if |s| <= 29 {
      Pow2Monotone(|s|, 29);
    } else if |s| == 30 {
    } else {
      Pow2Monotone(31, |s|);
    }
  }

  lemma RunValueNext(s: seq<int>)
    requires forall i :: 0 <= i < |s| ==> s[i] == RUNA || s[i] == RUNB
    ensures RunValue(s) == if s == [] then 0 else RunValue(s[..|s| - 1]) + (s[|s| - 1] + 1) * Pow2(|s| - 1)
  {
  }

  /** An input for which the source's behaviour is undefined: RUNB and thirty RUNA, whose value
      is 2^31. */
  lemma LongRun(l: seq<int>, eob: int, limit: nat)
    requires |l| > 0 && |l| >= eob - 1 && 2 <= eob
    ensures var s := [RUNB] + Fill(RUNA, 30);
      && (forall i :: 0 <= i < |s| ==> s[i] == RUNA || s[i] == RUNB) && RunValue(s) == 0x8000_0000
      && Run(Decoder(l, [], 0, 1), s, eob, limit) == Overflowed
  {
    var s := [RUNB] + Fill(RUNA, 30);
    RunOverflows(Decoder(l, [], 0, 1), s, eob, limit);
    OnesAfterB(30);
    Pow2Thirty();
  }

  lemma {:induction false} OnesAfterB(k: nat)
    ensures forall i :: 0 <= i < k + 1 ==> ([RUNB] + Fill(RUNA, k))[i] == RUNA || ([RUNB] + Fill(RUNA, k))[i] == RUNB
    ensures RunValue([RUNB] + Fill(RUNA, k)) == Pow2(k + 1)
  {
    var s := [RUNB] + Fill(RUNA, k);
    RunValueNext(s);
    Pow2Next(k);
    if k > 0 {
      OnesAfterB(k - 1);
      assert s[..k] == [RUNB] + Fill(RUNA, k - 1);
      Pow2Next(k - 1);
    } else {
      assert s[..0] == [];
      Pow2Next(0);
      RunValueNext(s[..0]);
    }
  }

  // ---------- Whole sequences of symbols ----------

  /** One symbol, in unbounded numbers. */
  ghost function FreeStep(d: Decoder, sym: int, eob: int, limit: nat): (d': Decoder)
    requires d.Decoder? ==> |d.list| > 0 && |d.list| >= eob - 1
    requires 0 <= sym <= eob && 2 <= eob
    ensures d.Decoder? && d'.Decoder? ==> |d'.list| == |d.list|
    ensures !d.Decoder? ==> d' == d
    ensures d.Decoder? ==> !d'.Overflowed?
  {
    if !d.Decoder? then d
    else if sym == RUNA || sym == RUNB then d.(run := d.run + (sym + 1) * d.weight, weight := 2 * d.weight)
    else
      var out := d.out + Fill(d.list[0], d.run);
      if |out| > limit then Overfull
      else if sym == eob then Finished(out)
      else if |out| >= limit then Overfull
      else Decoder(Front(d.list, sym - 1), out + [d.list[sym - 1]], 0, 1)
  }

  ghost predicate Symbols(syms: seq<int>, eob: int) {
    2 <= eob && forall i :: 0 <= i < |syms| ==> 0 <= syms[i] <= eob
  }

  ghost predicate Runnable(d: Decoder, eob: int) {
    d.Decoder? ==> |d.list| > 0 && |d.list| >= eob - 1
  }

  /** All symbols, in unbounded numbers. */
  ghost function FreeRun(d: Decoder, syms: seq<int>, eob: int, limit: nat): (d': Decoder)
    requires Runnable(d, eob) && Symbols(syms, eob)
    ensures Runnable(d', eob) && (d.Decoder? ==> !d'.Overflowed?)
  {
    if syms == [] then d else FreeStep(FreeRun(d, syms[..|syms| - 1], eob, limit), syms[|syms| - 1], eob, limit)
  }

  /** How many run digits the symbols end in. */
  ghost function Tail(syms: seq<int>): (k: nat)
    ensures k <= |syms|
  {
    if syms == [] || (syms[|syms| - 1] != RUNA && syms[|syms| - 1] != RUNB) then 0 else 1 + Tail(syms[..|syms| - 1])
  }

  /** If a run is being read after these symbols, it has at most thirty digits so far. */
  ghost predicate ShortRun(d: Decoder, syms: seq<int>, eob: int, limit: nat)
    requires Runnable(d, eob) && Symbols(syms, eob)
  {
    FreeRun(d, syms, eob, limit).Decoder? ==> Tail(syms) <= 30
  }

  /** If the next symbol ends a run, that run and the frequency of its byte fit 31 bits. */
  ghost predicate SmallFrequency(d: Decoder, syms: seq<int>, next: int, eob: int, limit: nat)
    requires Runnable(d, eob) && Symbols(syms, eob)
  {
    var d' := FreeRun(d, syms, eob, limit);
    next >= 2 && d'.Decoder? ==> !TooFrequent(d')
  }

  /** Every run has at most thirty digits. */
  ghost predicate ShortRuns(d: Decoder, syms: seq<int>, eob: int, limit: nat)
    requires Runnable(d, eob) && Symbols(syms, eob)
  {
    forall k :: 0 <= k <= |syms| ==> ShortRun(d, syms[..k], eob, limit)
  }

  /** Every run that ends, added to the frequency of its byte, is at most 2^31 - 1. */
  ghost predicate SmallFrequencies(d: Decoder, syms: seq<int>, eob: int, limit: nat)
    requires Runnable(d, eob) && Symbols(syms, eob)
  {
    forall k :: 0 <= k < |syms| ==> SmallFrequency(d, syms[..k], syms[k], eob, limit)
  }

  /** One step of the two machines from the same state. */
  lemma StepsAgree(d: Decoder, sym: int, eob: int, limit: nat)
    requires Runnable(d, eob) && 0 <= sym <= eob && 2 <= eob && !d.Overflowed?
    ensures Step(d, sym, eob, limit) ==
      if d.Decoder? && (if sym <= 1 then 2 * d.weight > INT_MAX else TooFrequent(d)) then Overflowed
      else FreeStep(d, sym, eob, limit)
  {
    hide Front, CountEq;
  }

  lemma RunLast(d: Decoder, syms: seq<int>, eob: int, limit: nat)
    requires Runnable(d, eob) && Symbols(syms, eob) && syms != []
    ensures var d' := Run(d, syms[..|syms| - 1], eob, limit);
      Runnable(d', eob) && Run(d, syms, eob, limit) == Step(d', syms[|syms| - 1], eob, limit)
  {
    hide Step;
    var m := |syms| - 1;
    assert syms == syms[..m] + [syms[m]];
    RunConcat(d, syms[..m], [syms[m]], eob, limit);
    LastSymbol(Run(d, syms[..m], eob, limit), syms[m], eob, limit);
  }

  /** With unbounded numbers the weight of the next digit counts the digits read. */
  lemma {:induction false} FreeWeight(d: Decoder, syms: seq<int>, eob: int, limit: nat)
    requires Runnable(d, eob) && Symbols(syms, eob) && d.Decoder? && d.run == 0 && d.weight == 1
    ensures var d' := FreeRun(d, syms, eob, limit);
      d'.Decoder? ==> d'.weight == Pow2(Tail(syms)) && d'.weight <= d'.run + 1
    decreases |syms|
  {
    hide Pow2, Front;
    if syms == [] {
      Pow2Next(0);
    } else {
      FreeWeight(d, syms[..|syms| - 1], eob, limit);
      Pow2Next(Tail(syms[..|syms| - 1]));
    }
  }

  /** Thirty digits are what the weight allows. */
  lemma WeightLimit(k: nat)
    ensures 2 * Pow2(k) <= INT_MAX <==> k < 30
  {
    hide Pow2;
    Pow2Thirty();
    if k < 30 {
      Pow2Monotone(k, 29);
    } else {
      Pow2Monotone(30, k);
    }
  }

  lemma ShortRunsLast(d: Decoder, syms: seq<int>, eob: int, limit: nat)
    requires Runnable(d, eob) && Symbols(syms, eob) && syms != []
    ensures ShortRuns(d, syms, eob, limit) <==>
      ShortRuns(d, syms[..|syms| - 1], eob, limit) && ShortRun(d, syms, eob, limit)
  {
    hide ShortRun;
    var m := |syms| - 1;
    var s := syms[..m];
    assert syms[..m + 1] == syms;
    if ShortRuns(d, syms, eob, limit) {
      forall k | 0 <= k <= m ensures ShortRun(d, s[..k], eob, limit) {
        assert s[..k] == syms[..k];
      }
    }
    if ShortRuns(d, s, eob, limit) && ShortRun(d, syms, eob, limit) {
      forall k | 0 <= k <= |syms| ensures ShortRun(d, syms[..k], eob, limit) {
        if k <= m {
          assert s[..k] == syms[..k];
        }
      }
    }
  }

  lemma SmallFrequenciesLast(d: Decoder, syms: seq<int>, eob: int, limit: nat)
    requires Runnable(d, eob) && Symbols(syms, eob) && syms != []
    ensures var m := |syms| - 1;
      SmallFrequencies(d, syms, eob, limit) <==>
        SmallFrequencies(d, syms[..m], eob, limit) && SmallFrequency(d, syms[..m], syms[m], eob, limit)
  {
    hide SmallFrequency;
    var m := |syms| - 1;
    var s := syms[..m];
    if SmallFrequencies(d, syms, eob, limit) {
      forall k | 0 <= k < m ensures SmallFrequency(d, s[..k], s[k], eob, limit) {
        assert s[..k] == syms[..k];
      }
    }
    if SmallFrequencies(d, s, eob, limit) && SmallFrequency(d, s, syms[m], eob, limit) {
      forall k | 0 <= k < |syms| ensures SmallFrequency(d, syms[..k], syms[k], eob, limit) {
        if k < m {
          assert s[..k] == syms[..k] && s[k] == syms[k];
        }
      }
    }
  }

  /** The code computes what unbounded numbers give exactly when every run has at most thirty
      digits and no run, added to the frequency of its byte, exceeds 2^31 - 1; otherwise its
      behaviour is undefined. */
  lemma {:induction false} ExactRun(d: Decoder, syms: seq<int>, eob: int, limit: nat)
    requires Runnable(d, eob) && Symbols(syms, eob) && d.Decoder? && d.run == 0 && d.weight == 1
    ensures Run(d, syms, eob, limit) == FreeRun(d, syms, eob, limit) <==>
      ShortRuns(d, syms, eob, limit) && SmallFrequencies(d, syms, eob, limit)
    ensures Run(d, syms, eob, limit) != FreeRun(d, syms, eob, limit) ==> Run(d, syms, eob, limit) == Overflowed
    decreases |syms|
  {
    hide Front, Pow2, TooFrequent, Step, FreeStep, Run, ShortRuns, SmallFrequencies;
    if syms == [] {
      NoSymbols(d, eob, limit);
      NoLimits(d, eob, limit);
    } else {
      var m := |syms| - 1;
      var d' := FreeRun(d, syms[..m], eob, limit);
      ExactRun(d, syms[..m], eob, limit);
      ShortRunsLast(d, syms, eob, limit);
      SmallFrequenciesLast(d, syms, eob, limit);
      RunLast(d, syms, eob, limit);
      FreeWeight(d, syms[..m], eob, limit);
      WeightLimit(Tail(syms[..m]));
      StaysOpen(d', syms[m], eob, limit);
      if Run(d, syms[..m], eob, limit) == d' {
        StepsAgree(d', syms[m], eob, limit);
      } else {
        StaysOverflowed(syms[m], eob, limit);
      }
    }
  }

  lemma NoLimits(d: Decoder, eob: int, limit: nat)
    requires Runnable(d, eob) && 2 <= eob
    ensures ShortRuns(d, [], eob, limit) && SmallFrequencies(d, [], eob, limit)
  {
  }

  lemma StaysOverflowed(sym: int, eob: int, limit: nat)
    requires 0 <= sym <= eob && 2 <= eob
    ensures Step(Overflowed, sym, eob, limit) == Overflowed
  {
  }

  /** A digit does not end the block. */
  lemma StaysOpen(d: Decoder, sym: int, eob: int, limit: nat)
    requires Runnable(d, eob) && 0 <= sym <= eob && 2 <= eob
    ensures d.Decoder? && sym <= 1 ==> FreeStep(d, sym, eob, limit).Decoder?
    ensures FreeStep(d, sym, eob, limit).Decoder? ==> d.Decoder?
  {
  }

  // ---------- What is lost by it ----------

  /** More has been decoded than the block may hold. */
  ghost predicate Beyond(d: Decoder, limit: nat) {
    d.Overfull? || (d.Decoder? && |d.out| + d.run > limit)
  }

  lemma BeyondStays(d: Decoder, sym: int, eob: int, limit: nat)
    requires Runnable(d, eob) && 0 <= sym <= eob && 2 <= eob && Beyond(d, limit)
    ensures Beyond(FreeStep(d, sym, eob, limit), limit)
    ensures sym == eob ==> FreeStep(d, sym, eob, limit) == Overfull
  {
    hide Front;
    if d.Decoder? && sym <= 1 {
      assert (sym + 1) * d.weight >= 0;
    }
  }

  /** Where the code leaves the 32-bit range, unbounded numbers have gone beyond the block's size. */
  lemma BeyondReached(d: Decoder, sym: int, eob: int, limit: nat)
    requires Runnable(d, eob) && 0 <= sym <= eob && 2 <= eob && limit <= 900000 && d.Decoder? && d.weight <= d.run + 1
    requires if sym <= 1 then 2 * d.weight > INT_MAX else TooFrequent(d)
    ensures Beyond(FreeStep(d, sym, eob, limit), limit)
  {
    hide Front;
    if sym <= 1 {
      assert (sym + 1) * d.weight >= 0;
    }
  }

  lemma {:induction false} OverflowBeyond(d: Decoder, syms: seq<int>, eob: int, limit: nat)
    requires Runnable(d, eob) && Symbols(syms, eob) && d.Decoder? && d.run == 0 && d.weight == 1 && limit <= 900000
    requires Run(d, syms, eob, limit) == Overflowed
    ensures Beyond(FreeRun(d, syms, eob, limit), limit)
    decreases |syms|
  {
    hide Front, Pow2, TooFrequent, Step, FreeStep, Run, Beyond;
    if syms == [] {
      NoSymbols(d, eob, limit);
    } else {
      var m := |syms| - 1;
      var d' := FreeRun(d, syms[..m], eob, limit);
      RunLast(d, syms, eob, limit);
      ExactRun(d, syms[..m], eob, limit);
      if Run(d, syms[..m], eob, limit) == Overflowed {
        OverflowBeyond(d, syms[..m], eob, limit);
        BeyondStays(d', syms[m], eob, limit);
      } else {
        FreeWeight(d, syms[..m], eob, limit);
        StepsAgree(d', syms[m], eob, limit);
        BeyondReached(d', syms[m], eob, limit);
      }
    }
  }

  /** A block for which the source's behaviour is undefined would, in unbounded numbers, be found
      to be over its size limit by its end at the latest. */
  lemma OverflowIsOverfull(d: Decoder, syms: seq<int>, eob: int, limit: nat)
    requires Runnable(d, eob) && Symbols(syms, eob) && d.Decoder? && d.run == 0 && d.weight == 1 && limit <= 900000
    requires Run(d, syms, eob, limit) == Overflowed
    ensures FreeRun(d, syms + [eob], eob, limit) == Overfull
  {
    hide Run, FreeStep, Beyond;
    OverflowBeyond(d, syms, eob, limit);
    assert (syms + [eob])[..|syms|] == syms;
    BeyondStays(FreeRun(d, syms, eob, limit), eob, eob, limit);
  }

  // ---------- A run of thirty digits that is too much ----------

  lemma {:induction false} TwosValue(k: nat)
    ensures RunValue(Fill(RUNB, k)) == 2 * (Pow2(k) - 1)
  {
    RunValueNext(Fill(RUNB, k));
    if k > 0 {
      TwosValue(k - 1);
      assert Fill(RUNB, k)[..k - 1] == Fill(RUNB, k - 1);
      Pow2Next(k - 1);
    } else {
      Pow2Next(0);
    }
  }

  /** Three bytes, of which two are the same, a run of thirty RUNB for that one, and the end. */
  ghost function FrequentByte(): (syms: seq<int>) {
    [2, 2, 2] + Fill(RUNB, 30) + [3]
  }

  lemma {:induction false} TailOfTwos(k: nat)
    ensures Tail([2, 2, 2] + Fill(RUNB, k)) == k
  {
    var t := [2, 2, 2] + Fill(RUNB, k);
    if k > 0 {
      TailOfTwos(k - 1);
      assert t[..|t| - 1] == [2, 2, 2] + Fill(RUNB, k - 1);
    }
  }

  /** No run of these symbols has more than thirty digits. */
  lemma FrequentByteRuns(k: nat)
    requires k <= |FrequentByte()|
    ensures Tail(FrequentByte()[..k]) <= 30
  {
    var s := FrequentByte();
    if 3 <= k < |s| {
      TailOfTwos(k - 3);
      assert s[..k] == [2, 2, 2] + Fill(RUNB, k - 3);
    } else if k == |s| {
      assert s[..k][k - 1] == 3;
    }
  }

  /** The three bytes are 1, 0 and 1. */
  lemma ThreeBytes()
    ensures Run(Decoder([0, 1], [], 0, 1), [2, 2, 2], 3, 900000) == Decoder([1, 0], [1, 0, 1], 0, 1)
  {
    hide Run;
    var d := Decoder([0, 1], [], 0, 1);
    assert Front([0, 1], 1) == [1, 0] && Front([1, 0], 1) == [0, 1];
    NoSymbols(d, 3, 900000);
    RunLast(d, [2], 3, 900000);
    RunLast(d, [2, 2], 3, 900000);
    RunLast(d, [2, 2, 2], 3, 900000);
    assert [2][..0] == [] && [2, 2][..1] == [2] && [2, 2, 2][..2] == [2, 2];
    assert d.out + Fill(0, 0) == [];
    assert [1] + Fill(1, 0) == [1] && [1, 0] + Fill(0, 0) == [1, 0];
  }

  /** An input without a run of more than thirty digits for which the source's behaviour is
      undefined: the run is 2^31 - 2 and its byte has occurred twice. */
  lemma FrequencyOverflows()
    ensures var d, s := Decoder([0, 1], [], 0, 1), FrequentByte();
      && Symbols(s, 3) && ShortRuns(d, s, 3, 900000) && Run(d, s, 3, 900000) == Overflowed
      && RunValue(Fill(RUNB, 30)) == INT_MAX - 1 && CountEq([1, 0, 1], 1) == 2
  {
    hide Run, Pow2, Tail, RunValue, Step;
    var d, s := Decoder([0, 1], [], 0, 1), FrequentByte();
    var e := Decoder([1, 0], [1, 0, 1], 0, 1);
    forall k | 0 <= k <= |s| ensures ShortRun(d, s[..k], 3, 900000) {
      FrequentByteRuns(k);
    }
    ThreeBytes();
    TwosValue(30);
    Pow2Thirty();
    RunOverflows(e, Fill(RUNB, 30), 3, 900000);
    var r := [2, 2, 2] + Fill(RUNB, 30);
    RunConcat(d, [2, 2, 2], Fill(RUNB, 30), 3, 900000);
    assert s[..33] == r;
    RunLast(d, s, 3, 900000);
    TwiceOne();
    EndOverflows(e.(run := INT_MAX - 1, weight := Pow2(30)));
  }

  lemma TwiceOne()
    ensures CountEq([1, 0, 1], 1) == 2
  {
    var c := [1, 0, 1];
    assert c[..2] == [1, 0] && [1, 0][..1] == [1] && [1][..0] == [];
    assert CountEq([1], 1) == 1;
    assert CountEq([1, 0], 1) == 1;
  }

  lemma EndOverflows(d: Decoder)
    requires d.Decoder? && d.list == [1, 0] && d.run == INT_MAX - 1 && CountEq(d.out, 1) == 2
    ensures Step(d, 3, 3, 900000) == Overflowed
  {
    hide CountEq;
  }
}
