/** Rounding up to a multiple. */
module Rounding {
  import opened Binary

  function RoundUp(x: nat, a: nat): nat
    requires a > 0
  {
    (x + (a - 1)) / a * a
  }

  lemma RoundUpForm(x: nat, a: nat) returns (q: nat, r: nat)
    requires a > 0
    ensures RoundUp(x, a) == a * q && x + (a - 1) == a * q + r && r < a
  {
    var y := x + (a - 1);
    q, r := y / a, y % a;
  }

  lemma RoundUpFacts(x: nat, a: nat)
    requires a > 0
    ensures x <= RoundUp(x, a) && RoundUp(0, a) == 0
    ensures x > 0 ==> RoundUp(x, a) >= a
    ensures a == 1 ==> RoundUp(x, a) == x
    ensures x <= a && x > 0 ==> RoundUp(x, a) == a
  {
    hide RoundUp;
    var q0, r0 := RoundUpForm(0, a);
    DivUnique(a, q0, r0, a - 1);
    DivUnique(a, 0, a - 1, a - 1);
    var q, r := RoundUpForm(x, a);
    if q == 0 {
    } else {
      MulAtLeast(a, q);
      if x <= a {
        DivUnique(a, q, r, x + (a - 1));
        DivUnique(a, 1, x - 1, x + (a - 1));
      }
    }
  }

  lemma RoundUpBytes(x: nat, a: nat)
    requires a > 0
    ensures RoundUp(4 * x, 4 * a) == 4 * RoundUp(x, a)
  {
    hide RoundUp;
    var q, r := RoundUpForm(x, a);
    var q4, r4 := RoundUpForm(4 * x, 4 * a);
    var y := 4 * x + (4 * a - 1);
    FourTimes(a, q);
    DivUnique(4 * a, q4, r4, y);
    DivUnique(4 * a, q, 4 * r + 3, y);
  }

  lemma FourTimes(a: nat, q: nat)
    ensures (4 * a) * q == 4 * (a * q)
  {
  }

  lemma RoundUpMultiple(x: nat, a: nat)
    requires a > 0
    ensures RoundUp(x, a) % a == 0
  {
    var q := (x + (a - 1)) / a;
    assert q * a == a * q + 0;
    DivUnique(a, q, 0, q * a);
  }
}
