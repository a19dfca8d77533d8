/** The numeric helpers of utils/numeric.py, and the two-decimal rounding the services apply.
    Python rounds ties to the even neighbour; arithmetic here is exact. */
module Numeric {

  function Max(a: real, b: real): real { if a >= b then a else b }

  function Min(a: real, b: real): real { if a <= b then a else b }

  /** clamp with its default range, 0 to 100. */
  function Clamp(v: real): real { Max(0.0, Min(100.0, v)) }

  function SafeDiv(numerator: real, denominator: real, default: real): real {
    if denominator == 0.0 then default else numerator / denominator
  }

  /** The nearest integer, ties to even. */
  function HalfEven(x: real): int {
    var f := x.Floor;
    var frac := x - f as real;
    if frac < 0.5 then f
    else if frac > 0.5 then f + 1
    else if f % 2 == 0 then f else f + 1
  }

  /** Nothing is nearer, and a tie goes to an even integer. */
  lemma {:induction false} HalfEvenSpec(x: real)
    ensures -0.5 <= HalfEven(x) as real - x <= 0.5
    ensures (HalfEven(x) as real - x == 0.5 || HalfEven(x) as real - x == -0.5) ==> HalfEven(x) % 2 == 0
  {
  }

  function Round2(x: real): real { HalfEven(x * 100.0) as real / 100.0 }

  /** A value with at most two decimals. */
  predicate TwoDecimals(x: real) { (x * 100.0).Floor as real == x * 100.0 }

  lemma {:induction false} HalfEvenMonotone(x: real, y: real)
    requires x <= y
    ensures HalfEven(x) <= HalfEven(y)
  {
    assert x.Floor <= y.Floor;
  }

  /** Rounding keeps order. */
  lemma {:induction false} Round2Monotone(x: real, y: real)
    requires x <= y
    ensures Round2(x) <= Round2(y)
  {
    HalfEvenMonotone(x * 100.0, y * 100.0);
  }

  /** Rounding is the identity exactly on two-decimal values, and moves nothing by more than half
      a hundredth. */
  lemma {:induction false} Round2Spec(x: real)
    ensures TwoDecimals(Round2(x))
    ensures Round2(x) == x <==> TwoDecimals(x)
    ensures -0.005 <= Round2(x) - x <= 0.005
  {
    var n := HalfEven(x * 100.0);
    assert Round2(x) * 100.0 == n as real;
    assert (n as real).Floor == n;
  }

  /** Shifting by an even number of hundredths commutes with rounding: ties fall the same way. */
  lemma {:induction false} Round2Shift(x: real, k: int)
    ensures Round2(x + (2 * k) as real / 100.0) == Round2(x) + (2 * k) as real / 100.0
  {
    var d := (2 * k) as real;
    assert (x + d / 100.0) * 100.0 == x * 100.0 + d;
    assert (x * 100.0 + d).Floor == (x * 100.0).Floor + 2 * k;
  }

  lemma {:induction false} Round2Range(x: real, low: int, high: int)
    requires low as real <= x <= high as real
    ensures low as real <= Round2(x) <= high as real
  {
    Round2Monotone(low as real, x);
    Round2Monotone(x, high as real);
    assert ((100 * low) as real).Floor == 100 * low && ((100 * high) as real).Floor == 100 * high;
    Round2Spec(low as real);
    Round2Spec(high as real);
  }

  // ---------------------------------------------------------------------------------------------
  // A clamped value pushed up and down.
  // ---------------------------------------------------------------------------------------------

  /** x after each push in turn, clamped each time. */
  function Pushed(x: real, pushes: seq<real>): real {
    if pushes == [] then x else Clamp(Pushed(x, pushes[..|pushes| - 1]) + pushes[|pushes| - 1])
  }

  function Total(pushes: seq<real>): real {
    if pushes == [] then 0.0 else Total(pushes[..|pushes| - 1]) + pushes[|pushes| - 1]
  }

  /** All pushes together are one shift by their total, clamped to what they make of 0 and of 100. */
  lemma {:induction false} PushedIsClampedShift(x: real, pushes: seq<real>)
    requires 0.0 <= x <= 100.0
    ensures var low, high := Pushed(0.0, pushes), Pushed(100.0, pushes);
      0.0 <= low <= high <= 100.0 && Pushed(x, pushes) == Max(low, Min(high, x + Total(pushes)))
  {
    if pushes != [] {
      PushedIsClampedShift(x, pushes[..|pushes| - 1]);
    }
  }

  /** Pushes take two values to the same one: the values are equal, or both are driven to one bound, or
      the pushes leave a single value. */
  predicate Merges(x: real, y: real, pushes: seq<real>) {
    var low, high, shift := Pushed(0.0, pushes), Pushed(100.0, pushes), Total(pushes);
    x == y || low == high || (x + shift <= low && y + shift <= low) || (x + shift >= high && y + shift >= high)
  }

  lemma {:induction false} PushedMergesExactlyWhen(x: real, y: real, pushes: seq<real>)
    requires 0.0 <= x <= 100.0 && 0.0 <= y <= 100.0
    ensures Pushed(x, pushes) == Pushed(y, pushes) <==> Merges(x, y, pushes)
  {
    PushedIsClampedShift(x, pushes);
    PushedIsClampedShift(y, pushes);
  }
}
