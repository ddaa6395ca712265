/**
 Rounding of an exact real to three decimal places, the way the harvest tool
 rounds a loss ratio before storing it: to the nearest thousandth, with a value
 exactly halfway between two thousandths going to the one whose last digit is
 even (round-half-to-even).
 */
module Rounding {

  /** Half of one unit in the last kept decimal place. */
  const HalfStep: real := 0.0005

  /** True iff y is a whole number of thousandths (has at most three decimals). */
  predicate OnGrid(y: real) {
    (y * 1000.0).Floor as real == y * 1000.0
  }

  /** The integer nearest to x; a tie goes to the even neighbour. */
  function RoundHalfEven(x: real): (n: int)
    ensures x - 0.5 <= n as real <= x + 0.5
    ensures n as real - x == 0.5 || x - n as real == 0.5 ==> n % 2 == 0
  {
    var f := x.Floor;
    var d := x - f as real;
    if d < 0.5 then f
    else if d > 0.5 then f + 1
    else if f % 2 == 0 then f
    else f + 1
  }

  /** The contract of RoundHalfEven pins its value down: any integer within
      one half of x that goes to the even side on a tie is that value. */
  lemma RoundHalfEvenUnique(x: real, m: int)
    requires x - 0.5 <= m as real <= x + 0.5
    requires m as real - x == 0.5 || x - m as real == 0.5 ==> m % 2 == 0
    ensures m == RoundHalfEven(x)
  {
  }

  /** Where the rounded value crosses an integer threshold n. */
  lemma RoundAtLeast(x: real, n: int)
    ensures RoundHalfEven(x) >= n <==> x > n as real - 0.5 || (x == n as real - 0.5 && n % 2 == 0)
  {
    var r := RoundHalfEven(x);
    if x == n as real - 0.5 {
      assert r == n - 1 || r == n;
      if n % 2 == 0 {
        assert r % 2 == 0;
        assert r == n;
      } else {
        assert r == n - 1;
      }
    }
  }

  lemma RoundMonotone(x: real, y: real)
    requires x <= y
    ensures RoundHalfEven(x) <= RoundHalfEven(y)
  {
    var n := RoundHalfEven(x);
    RoundAtLeast(x, n);
    RoundAtLeast(y, n);
  }

  /** x rounded to three decimal places; a value halfway between two
      thousandths goes to the even one. */
  function Round3(x: real): (r: real)
    ensures x - HalfStep <= r <= x + HalfStep
    ensures OnGrid(r)
    ensures r - x == HalfStep || x - r == HalfStep ==> (r * 1000.0).Floor % 2 == 0
  {
    var n := RoundHalfEven(x * 1000.0);
    var r := n as real / 1000.0;
    assert r * 1000.0 == n as real;
    assert (n as real).Floor == n;
    r
  }

  /** The contract of Round3 pins its value down: a value with at most
      three decimals, within half a thousandth of x and even on a tie, is
      Round3(x). */
  lemma Round3Unique(x: real, y: real)
    requires OnGrid(y) && x - HalfStep <= y <= x + HalfStep
    requires y - x == HalfStep || x - y == HalfStep ==> (y * 1000.0).Floor % 2 == 0
    ensures y == Round3(x)
  {
    var m := (y * 1000.0).Floor;
    assert m as real == y * 1000.0;
    RoundHalfEvenUnique(x * 1000.0, m);
  }

  lemma Round3Monotone(x: real, y: real)
    requires x <= y
    ensures Round3(x) <= Round3(y)
  {
    RoundMonotone(x * 1000.0, y * 1000.0);
  }

  /** A value that already has at most three decimals is left as it is. */
  lemma Round3OnGrid(x: real)
    requires OnGrid(x)
    ensures Round3(x) == x
  {
    RoundHalfEvenUnique(x * 1000.0, (x * 1000.0).Floor);
  }
}
