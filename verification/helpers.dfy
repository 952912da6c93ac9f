/** The small arithmetic helpers shared by the decoder and the image
    sampler headers: the `ROUND_UP_TO` macro and the private `clamp` and
    `lerp` members. Both headers declare identical `clamp`/`lerp`, so they
    are defined once here; floats are modelled as `real`. */
module Helpers {

  import opened Common

  /** C++ integer division, which truncates toward zero. */
  function CDiv(a: int, b: int): int
    requires b != 0
  {
    if (a >= 0) == (b > 0) then Abs(a) / Abs(b) else -(Abs(a) / Abs(b))
  }

  /** `ROUND_UP_TO(x, y)`: `y * ((x + y - 1) / y)` with C division. */
  function RoundUpTo(x: int, y: int): int
    requires y != 0
  {
    y * CDiv(x + y - 1, y)
  }

  /** For a non-negative `x` and positive `y` the macro yields the least
      multiple of `y` that is at least `x`. */
  lemma RoundUpToIsLeastMultiple(x: int, y: int)
    requires x >= 0 && y > 0
    ensures RoundUpTo(x, y) >= x
    ensures RoundUpTo(x, y) % y == 0
    ensures RoundUpTo(x, y) - y < x
  {
    var q := (x + y - 1) / y;
    var rem := (x + y - 1) % y;
    assert CDiv(x + y - 1, y) == q;
    assert x + y - 1 == y * q + rem && 0 <= rem < y;
    assert RoundUpTo(x, y) == y * q;
    MultipleHasNoRemainder(y, q);
  }

  lemma MultipleHasNoRemainder(y: int, q: int)
    requires y > 0
    ensures (y * q) % y == 0
  {
    var k := (y * q) / y;
    var m := (y * q) % y;
    var d := q - k;
    assert y * q == y * k + m && 0 <= m < y;
    assert y * d == y * q - y * k;
    assert y * d == m;
  }

  /** The example in the macro's own comment. */
  lemma RoundUpToExample()
    ensures RoundUpTo(5, 8) == 8
  {
    assert CDiv(12, 8) == 1;
  }

  /** `clamp(a, b, c) = min(max(a, b), c)`. */
  function Clamp(a: real, b: real, c: real): (r: real)
    requires b <= c
    ensures b <= r <= c
    ensures b <= a <= c ==> r == a
    ensures a < b ==> r == b
    ensures a > c ==> r == c
  {
    var m := if a >= b then a else b;
    if m <= c then m else c
  }

  /** `lerp(a, b, c) = a * (1 - c) + b * c`. */
  function Lerp(a: real, b: real, c: real): real
  {
    a * (1.0 - c) + b * c
  }

  lemma LerpEndpoints(a: real, b: real)
    ensures Lerp(a, b, 0.0) == a
    ensures Lerp(a, b, 1.0) == b
  {
  }

  /** For a weight in [0, 1] the blend stays between its two endpoints,
      whichever of them is larger. */
  lemma LerpBetween(a: real, b: real, c: real)
    requires 0.0 <= c <= 1.0
    ensures a <= b ==> a <= Lerp(a, b, c) <= b
    ensures b <= a ==> b <= Lerp(a, b, c) <= a
  {
    assert Lerp(a, b, c) == a + (b - a) * c;
    if a <= b {
      ScaleBetween(b - a, c);
    } else {
      ScaleBetween(a - b, c);
      assert (b - a) * c == -((a - b) * c);
    }
  }

  lemma ScaleBetween(d: real, c: real)
    requires d >= 0.0 && 0.0 <= c <= 1.0
    ensures 0.0 <= d * c <= d
  {
    assert d * (1.0 - c) >= 0.0;
    assert d * (1.0 - c) == d - d * c;
  }

  /** Blending a colour with itself gives that colour back. */
  lemma LerpSame(a: real, c: real)
    ensures Lerp(a, a, c) == a
  {
  }
}
