/** Small value types shared by every module, and the rounding used on prices. */
module Core {

  datatype Option<+T> = None | Some(value: T)

  /** The two sides of an option chain. */
  datatype Side = CE | PE

  /** Nearest integer, a tie going to the even neighbour. */
  function RoundHalfEven(x: real): (n: int)
    ensures -0.5 <= n as real - x <= 0.5
    ensures n as real - x == 0.5 || x - n as real == 0.5 ==> n % 2 == 0
  {
    var below := x.Floor;
    var frac := x - below as real;
    if frac < 0.5 || (frac == 0.5 && below % 2 == 0) then below else below + 1
  }

  /** Rounding never reverses an order. */
  lemma RoundHalfEvenMonotone(x: real, y: real)
    requires x <= y
    ensures RoundHalfEven(x) <= RoundHalfEven(y)
  {
    assert x.Floor <= y.Floor;
  }

  /** An integer is its own rounding. */
  lemma RoundHalfEvenInteger(n: int)
    ensures RoundHalfEven(n as real) == n
  {
  }

  /** Rounding to a decimal grid: `units` is 10000 for four places and 100 for two. */
  function RoundTo(x: real, units: real): (r: real)
    requires units > 0.0
  {
    RoundHalfEven(x * units) as real / units
  }

  lemma RoundToMonotone(x: real, y: real, units: real)
    requires units > 0.0 && x <= y
    ensures RoundTo(x, units) <= RoundTo(y, units)
  {
    var a, b := RoundHalfEven(x * units), RoundHalfEven(y * units);
    assert a <= b by {
      ScaleMonotone(x, y, units);
      RoundHalfEvenMonotone(x * units, y * units);
    }
    DivideMonotone(a as real, b as real, units);
  }

  /** A rounded price is off by at most half a grid unit. */
  lemma RoundToError(x: real, units: real)
    requires units > 0.0
    ensures -0.5 <= (RoundTo(x, units) - x) * units <= 0.5
  {
    var n := RoundHalfEven(x * units) as real;
    assert n / units * units == n;
    assert (n / units - x) * units == n - x * units;
  }

  lemma ScaleMonotone(x: real, y: real, u: real)
    requires u >= 0.0 && x <= y
    ensures x * u <= y * u
  {
    assert (y - x) * u >= 0.0;
  }

  lemma DivideMonotone(x: real, y: real, u: real)
    requires u > 0.0 && x <= y
    ensures x / u <= y / u
  {
    assert y / u - x / u == (y - x) / u;
    assert (y - x) / u >= 0.0;
  }
}
