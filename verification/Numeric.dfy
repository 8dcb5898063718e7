// Arithmetic shared by the models: integer clamps and Python's `round`.
module Numeric {

  datatype Option<+T> = None | Some(value: T)

  function Min(a: int, b: int): int { if a <= b then a else b }

  function Max(a: int, b: int): int { if a >= b then a else b }

  function Abs(x: int): int { if x < 0 then -x else x }

  function RMax(a: real, b: real): real { if a >= b then a else b }

  function RAbs(x: real): real { if x < 0.0 then -x else x }

  // max(1, min(99, p)): every price the exchange accepts.
  function Clamp99(p: int): int { Max(1, Min(99, p)) }

  // Python's round on a real: to the nearest integer, ties to the even one.
  function RoundHalfEven(x: real): (r: int)
  {
    var f := x.Floor;
    var frac := x - f as real;
    if frac < 0.5 || (frac == 0.5 && f % 2 == 0) then f else f + 1
  }

  // r is a nearest integer to x, and the even one when there are two.
  predicate IsNearestEven(x: real, r: int) {
    RAbs(r as real - x) <= 0.5 && (RAbs(r as real - x) == 0.5 ==> r % 2 == 0)
  }

  lemma RoundIsNearestEven(x: real, r: int)
    ensures IsNearestEven(x, r) <==> r == RoundHalfEven(x)
  {
    var s := RoundHalfEven(x);
    assert IsNearestEven(x, s);
    if IsNearestEven(x, r) {
      assert (r - s) as real == r as real - s as real;
      assert -1 <= r - s <= 1;
      assert r != s ==> RAbs(r as real - x) == 0.5 && RAbs(s as real - x) == 0.5;
    }
  }

  // Rounding commutes with reflection in an even total (100 cents). It would not in an odd one.
  lemma RoundMirror(x: real)
    ensures RoundHalfEven(100.0 - x) == 100 - RoundHalfEven(x)
  {
    RoundIsNearestEven(x, RoundHalfEven(x));
    RoundIsNearestEven(100.0 - x, 100 - RoundHalfEven(x));
  }

  lemma RoundAtLeast(x: real, n: int)
    requires n as real <= x
    ensures n <= RoundHalfEven(x)
  {
  }
}
