/**
  Rust's integer `/` and `%` on signed operands round the quotient toward
  zero, so the remainder takes the sign of the dividend. Dafny's `/` and `%`
  are Euclidean (the remainder is never negative). This module spells the
  Rust operators out so that the rest of the model can use them on negative
  inputs.
*/
module TruncatedArith {

  function Abs(x: int): (r: nat)
    ensures r == x || r == -x
  {
    if x < 0 then -x else x
  }

  lemma FloorDivBounds(x: nat, y: nat)
    requires y > 0
    ensures (x / y) * y <= x < (x / y + 1) * y
  {
    assert x == (x / y) * y + x % y;
    assert (x / y + 1) * y == (x / y) * y + y;
  }

  /** Rust's `a / b` on signed integers: the quotient rounded toward zero. */
  function TruncDiv(a: int, b: int): (q: int)
    requires b != 0
    ensures Abs(q) * Abs(b) <= Abs(a) < (Abs(q) + 1) * Abs(b)
    ensures (a >= 0) == (b > 0) ==> q >= 0
    ensures (a >= 0) != (b > 0) ==> q <= 0
  {
    var m := Abs(a) / Abs(b);
    FloorDivBounds(Abs(a), Abs(b));
    var q := if (a >= 0) == (b > 0) then m else -m;
    assert Abs(q) == m;
    q
  }

  /** Rust's `a % b` on signed integers: what is left after `TruncDiv`. */
  function TruncRem(a: int, b: int): (r: int)
    requires b != 0
    ensures a == TruncDiv(a, b) * b + r
    ensures Abs(r) < Abs(b)
    ensures r != 0 ==> ((r > 0) <==> (a > 0))
  {
    a - TruncDiv(a, b) * b
  }

  /** On a non-negative dividend and a positive divisor both agree with Dafny's operators. */
  lemma TruncAgreesOnNonNegative(a: int, b: int)
    requires a >= 0 && b > 0
    ensures TruncDiv(a, b) == a / b
    ensures TruncRem(a, b) == a % b
  {
  }

  /** Negating the dividend negates both the quotient and the remainder. */
  lemma TruncNegation(a: int, b: int)
    requires b != 0
    ensures TruncDiv(-a, b) == -TruncDiv(a, b)
    ensures TruncRem(-a, b) == -TruncRem(a, b)
  {
  }
}
