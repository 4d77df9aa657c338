/** Decimal numerals of natural numbers and the fixed point of a text that
contains its own length. */
module Decimal {
  import opened Text
  import opened Json

  function Digits(n: nat): (s: Str)
    ensures s != []
    ensures forall i :: 0 <= i < |s| ==> 0x30 <= s[i] < 0x3A
  {
    if n < 10 then [0x30 + n] else Digits(n / 10) + [0x30 + n % 10]
  }

  /** The number a digit string stands for. */
  function ValueOf(s: Str): nat
    requires forall i :: 0 <= i < |s| ==> 0x30 <= s[i] < 0x3A
  {
    if s == [] then 0 else 10 * ValueOf(s[..|s| - 1]) + (s[|s| - 1] - 0x30) as int
  }

  lemma {:induction false} DigitsRoundTrip(n: nat)
    ensures ValueOf(Digits(n)) == n
  {
    if n >= 10 {
      DigitsRoundTrip(n / 10);
      assert Digits(n)[..|Digits(n)| - 1] == Digits(n / 10);
    } else {
      assert Digits(n)[..0] == [];
    }
  }

  function Width(n: nat): (w: nat)
    ensures w == |Digits(n)|
  {
    if n < 10 then 1 else Width(n / 10) + 1
  }

  lemma {:induction false} WidthMonotone(m: nat, n: nat)
    requires m <= n
    ensures Width(m) <= Width(n)
    decreases n
  {
    if n >= 10 && m >= 10 {
      WidthMonotone(m / 10, n / 10);
    }
  }

  lemma {:induction false} WidthSmall(n: nat)
    requires n > 0
    ensures Width(n) <= n
  {
    if n >= 10 {
      WidthSmall(n / 10);
    }
  }

  /** Growing at most tenfold adds at most one digit. */
  lemma WidthTenfold(m: nat, n: nat)
    requires 0 < m <= n <= 10 * m
    ensures Width(n) <= Width(m) + 1
  {
    WidthMonotone(n, 10 * m);
    assert 10 * m / 10 == m;
  }

  /** The count after k measurements of a text of `base` bytes plus its own count. */
  function Measure(base: nat, k: nat): nat {
    if k == 0 then 0 else base + Width(Measure(base, k - 1))
  }

  /** The length of a text of `base` bytes plus its own count. */
  function Settled(base: nat): nat { Measure(base, 3) }

  /** Three measurements always reach the fixed point, for every base length. */
  lemma MeasureSettles(base: nat)
    ensures Measure(base, 4) == Measure(base, 3)
  {
    var c1 := base + 1;
    var d1 := Width(c1);
    assert Measure(base, 1) == base + Width(0) == c1;
    var c2 := Measure(base, 2);
    assert c2 == base + d1;
    WidthSmall(c1);
    WidthTenfold(c1, c2);
    WidthMonotone(c1, c2);
    var c3 := Measure(base, 3);
    assert c3 == base + Width(c2);
    WidthMonotone(c2, c3);
    WidthTenfold(c1, c3);
  }

  lemma {:induction false} MeasureStays(base: nat, k: nat)
    requires k >= 3
    ensures Measure(base, k) == Measure(base, 3)
    ensures base + Width(Measure(base, k)) == Measure(base, k)
  {
    MeasureSettles(base);
    if k > 3 {
      MeasureStays(base, k - 1);
    }
  }

  function Power10(k: nat): nat { if k == 0 then 1 else 10 * Power10(k - 1) }

  lemma {:induction false} WidthBelowPower(n: nat, k: nat)
    requires k > 0
    ensures Width(n) <= k <==> n < Power10(k)
  {
    if n >= 10 && k > 1 {
      WidthBelowPower(n / 10, k - 1);
    } else if k > 1 {
      PowerIsTen(k);
    }
  }

  lemma {:induction false} PowerIsTen(k: nat)
    requires k > 0
    ensures Power10(k) >= 10
  {
    if k > 1 {
      PowerIsTen(k - 1);
    }
  }

  /** Two measurements are enough exactly unless the digits of the first count carry the
  second one over a power of ten; so they are not for a text of 9 or of 98 other bytes. */
  lemma WhenTwoMeasurementsAreEnough(base: nat)
    ensures var w := Width(base + 1);
            Measure(base, 2) == Settled(base) <==> base + w < Power10(w)
    ensures Measure(9, 2) == Settled(9) && Measure(98, 2) != Settled(98) && Measure(997, 2) != Settled(997)
  {
    var w := Width(base + 1);
    assert Measure(base, 1) == base + 1 && Measure(base, 2) == base + w;
    WidthBelowPower(base + w, w);
    WidthMonotone(base + 1, base + w);
    assert Measure(9, 1) == 10 && Measure(98, 1) == 99 && Measure(997, 1) == 998;
    assert Width(10) == 2 && Width(11) == 2 && Width(99) == 2 && Width(100) == 3 && Width(998) == 3 && Width(1000) == 4;
  }
}
