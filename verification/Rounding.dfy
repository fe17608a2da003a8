/**
 Decimal rounding as the program does it: nearest, ties to even.
 `Milli` is the three-decimal rendering of the command line (`{:.3f}`) and
 `Micro` the six-decimal rounding of the result record (`round(x, 6)`).
 */
module Rounding {

  function Nearest(x: real): (n: int)
    ensures -0.5 <= x - n as real <= 0.5
  {
    var f := x.Floor;
    var rest := x - f as real;
    if rest < 0.5 || (rest == 0.5 && f % 2 == 0) then f else f + 1
  }

  function Milli(x: real): real { Nearest(x * 1000.0) as real / 1000.0 }

  function Micro(x: real): real { Nearest(x * 1000000.0) as real / 1000000.0 }

  /** The nearest integer, and of two equally near ones the even one. */
  lemma NearestExactly(x: real, n: int)
    ensures n == Nearest(x)
            <==> -0.5 < x - n as real < 0.5 || ((x - n as real == 0.5 || x - n as real == -0.5) && n % 2 == 0)
  {
  }

  lemma NearestIsMonotone(x: real, y: real)
    requires x <= y
    ensures Nearest(x) <= Nearest(y)
  {
    // The two could only cross on a shared tie, and a tie has one even neighbour.
  }

  lemma NearestFixesIntegers(n: int)
    ensures Nearest(n as real) == n
  {
  }

  /** A rounded value is a whole number of thousandths, or of millionths: the nearest one. */
  lemma RoundingKeepsPlaces(x: real)
    ensures Milli(x) * 1000.0 == Nearest(x * 1000.0) as real
    ensures Micro(x) * 1000000.0 == Nearest(x * 1000000.0) as real
  {
  }

  /** Both roundings move a value by at most half a unit of the last place kept. */
  lemma RoundingError(x: real)
    ensures -0.0005 <= Milli(x) - x <= 0.0005
    ensures -0.0000005 <= Micro(x) - x <= 0.0000005
  {
  }

  lemma RoundingIsMonotone(x: real, y: real)
    requires x <= y
    ensures Milli(x) <= Milli(y) && Micro(x) <= Micro(y)
  {
    NearestIsMonotone(x * 1000.0, y * 1000.0);
    NearestIsMonotone(x * 1000000.0, y * 1000000.0);
  }

  /** A three-decimal value survives the six-decimal rounding unchanged. */
  lemma MicroFixesMilli(x: real)
    ensures Micro(Milli(x)) == Milli(x)
  {
    var n := Nearest(x * 1000.0);
    assert Milli(x) * 1000000.0 == (n * 1000) as real;
    NearestFixesIntegers(n * 1000);
  }
}
