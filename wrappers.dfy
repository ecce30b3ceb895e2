/** Option and Result, and the exceptions the flight-simulation helpers raise. */
module Wrappers {

  datatype Option<+T> = None | Some(value: T)

  datatype Result<+T> = Ok(value: T) | Err(error: Error)

  /** The exceptions of the modelled code, one constructor per raise site. */
  datatype Error =
    | NoSufficientRange       // ValueError: no plane with sufficient range found
    | SpeedNotAvailable       // ValueError: the plane's cruising speed is missing or zero
    | TimestampMismatch       // ValueError: strptime rejects the departure string
    | DateOutOfRange          // OverflowError: the arrival lies outside years 1..9999
    | EmptyRange              // ValueError: randint(a, b) with a > b
    | MissingKey(key: string) // KeyError on an airline's details

  function Max(a: int, b: int): int { if a >= b then a else b }

  function Min(a: int, b: int): int { if a <= b then a else b }

  function Abs(a: int): nat { if a >= 0 then a else -a }

  /** Integer division rounding toward zero, as Python's int() applied to a quotient. */
  function TruncDiv(a: int, b: int): (q: int)
    requires b != 0
    ensures Abs(q) * Abs(b) <= Abs(a) < (Abs(q) + 1) * Abs(b)
    ensures q == 0 || ((q > 0) <==> ((a > 0) == (b > 0)))
  {
    var m := Abs(a) / Abs(b);
    DivBounds(Abs(a), Abs(b), m);
    if (a >= 0) == (b > 0) then m else -m
  }

  /** The quotient of naturals is their whole part: m·y <= x < (m+1)·y, and 0 when x < y. */
  lemma DivBounds(x: nat, y: int, m: int)
    requires y > 0 && m == x / y
    ensures m * y <= x < (m + 1) * y
    ensures m >= 0 && (m > 0 ==> x > 0)
  {
    var r := x % y;
    assert x == m * y + r && 0 <= r < y;
    assert (m + 1) * y == m * y + y;
  }
}
