/** Powers of two. */
module Powers {

  function Pow2(e: nat): (p: nat)
    ensures 1 <= p
    ensures e < p
  {
    if e == 0 then 1 else 2 * Pow2(e - 1)
  }

  lemma {:induction false} Pow2Monotone(i: nat, j: nat)
    requires i <= j
    ensures Pow2(i) <= Pow2(j)
    ensures i < j ==> 2 * Pow2(i) <= Pow2(j)
  {
    if i < j {
      Pow2Monotone(i, j - 1);
    }
  }

  lemma {:induction false} Pow2Add(i: nat, j: nat)
    ensures Pow2(i + j) == Pow2(i) * Pow2(j)
  {
    hide Pow2;
    if i > 0 {
      Pow2Add(i - 1, j);
      Pow2Next(i - 1);
      Pow2Next(i - 1 + j);
      Double(Pow2(j), Pow2(i - 1));
    } else {
      Pow2Next(0);
    }
  }

  lemma MulMonotone(a: int, b: int, p: nat)
    requires a <= b
    ensures a * p <= b * p
  {
    assert (b - a) * p >= 0;
  }

  lemma Distribute(a: int, b: int, u: int)
    ensures (a + b) * u == a * u + b * u
  {
  }

  lemma Double(x: int, p: int)
    ensures x * (2 * p) == 2 * (x * p)
  {
  }

  lemma DoubleFirst(x: int, p: int)
    ensures (2 * x) * p == 2 * (x * p)
  {
  }

  lemma Pow2Next(e: nat)
    ensures Pow2(e + 1) == 2 * Pow2(e) && Pow2(0) == 1
  {
  }

  lemma Pow2Thirty()
    ensures Pow2(29) == 0x2000_0000 && Pow2(30) == 0x4000_0000 && Pow2(31) == 0x8000_0000
  {
    assert Pow2(10) == 1024;
    Pow2Add(10, 10);
    Pow2Add(20, 9);
    assert Pow2(9) == 512;
    Pow2Next(29);
    Pow2Next(30);
  }
}
