/** Shared vocabulary: an optional value and a few arithmetic helpers. */
module Basics {

  datatype Option<+T> = None | Some(value: T)

  function Abs(x: real): real {
    if x < 0.0 then -x else x
  }

  function Min(a: int, b: int): int {
    if a < b then a else b
  }

  function Max(a: int, b: int): int {
    if a < b then b else a
  }

  lemma {:induction false} MulKeepsOrder(s: real, x: real, y: real)
    requires s > 0.0
    ensures x < y <==> s * x < s * y
  {
    if x < y {
      assert s * (y - x) > 0.0;
    } else {
      assert s * (x - y) >= 0.0;
    }
  }

  lemma {:induction false} MulKeepsOrderWeakly(s: real, x: real, y: real)
    requires s >= 0.0 && x <= y
    ensures x * s <= y * s
  {
    assert s * (y - x) >= 0.0;
  }

  /** The same with the products named, for callers that must not see them multiplied out. */
  lemma {:induction false} ScaleKeepsOrder(s: real, x: real, y: real, sx: real, sy: real)
    requires s >= 0.0 && x <= y && sx == s * x && sy == s * y
    ensures sx <= sy
  {
    MulKeepsOrderWeakly(s, x, y);
  }

  lemma {:induction false} DivKeepsOrder(x: real, y: real, d: real)
    requires d > 0.0 && x <= y
    ensures x / d <= y / d
  {
    assert d * (x / d) == x && d * (y / d) == y;
    MulKeepsOrder(d, y / d, x / d);
  }

  /** A fraction of a gain: `f` of the way from 0 to `rise`. */
  lemma {:induction false} FractionOfRise(x: real, d: real, rise: real)
    requires 0.0 <= x <= d && d > 0.0 && rise >= 0.0
    ensures 0.0 <= x / d <= 1.0
    ensures 0.0 <= (x / d) * rise <= rise
  {
    DivKeepsOrder(0.0, x, d);
    DivKeepsOrder(x, d, d);
    MulKeepsOrderWeakly(rise, 0.0, x / d);
    MulKeepsOrderWeakly(rise, x / d, 1.0);
  }

  /** The language's round(): to the nearest integer, ties to the even one. */
  function RoundHalfEven(x: real): (n: int)
    ensures -0.5 <= n as real - x <= 0.5
  {
    var low := x.Floor;
    var rest := x - low as real;
    if rest < 0.5 then low
    else if rest > 0.5 then low + 1
    else if low % 2 == 0 then low
    else low + 1
  }

  lemma {:induction false} RoundExact(n: int)
    ensures RoundHalfEven(n as real) == n
  {
  }

  lemma {:induction false} RoundMonotone(x: real, y: real)
    requires x <= y
    ensures RoundHalfEven(x) <= RoundHalfEven(y)
  {
    if x.Floor < y.Floor {
      assert x.Floor + 1 <= y.Floor;
    }
  }
}
