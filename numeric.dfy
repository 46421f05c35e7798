/** Real-number helpers standing in for `np.abs` and Python's built-in `round`. */
module Numeric {

  /** Absolute value of a real, as `np.abs` computes it on one cell. */
  function Abs(x: real): (r: real)
    ensures r >= 0.0
    ensures r == x || r == -x
  {
    if x < 0.0 then -x else x
  }

  /** Python's `round(x)` with no digits argument: the nearest integer,
      halves going to the even neighbour. */
  function Round(x: real): (n: int)
    ensures -0.5 <= x - (n as real) <= 0.5
    ensures (x - (n as real) == 0.5 || (n as real) - x == 0.5) ==> n % 2 == 0
    ensures x >= 0.0 ==> n >= 0
  {
    var below := x.Floor;
    var fraction := x - (below as real);
    if fraction < 0.5 then below
    else if fraction > 0.5 then below + 1
    else if below % 2 == 0 then below
    else below + 1
  }
}
