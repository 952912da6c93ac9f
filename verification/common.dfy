/** Shared vocabulary of the model: optional values, 8-bit and 32-bit
    unsigned ranges, colour triples and the C++ integer conversions the
    source relies on (truncation toward zero, sign of an int). */
module Common {

  datatype Option<+T> = None | Some(value: T)

  /** 2^32: the modulus of `uint32_t` arithmetic. */
  const U32: int := 0x1_0000_0000

  /** 2^8: the modulus of a store into `uint8_t`. */
  const U8: int := 0x100

  predicate IsByte(v: int) { 0 <= v < U8 }

  predicate IsWord(v: int) { 0 <= v < U32 }

  /** Three colour channels of one pixel or SAT cell (red, green, blue). */
  datatype Rgb = Rgb(r: int, g: int, b: int)

  predicate RgbIsBytes(p: Rgb) { IsByte(p.r) && IsByte(p.g) && IsByte(p.b) }

  predicate RgbIsWords(p: Rgb) { IsWord(p.r) && IsWord(p.g) && IsWord(p.b) }

  /** A channel number: the offset of a value within its pixel's triple. */
  type Channel = c: int | 0 <= c < 3

  /** Channel `c` of `p`, the value at `index + c` of an interleaved buffer. */
  function Chan(p: Rgb, c: Channel): int
  {
    if c == 0 then p.r else if c == 1 then p.g else p.b
  }

  /** `p` with channel `c` replaced by `v`. */
  function WithChan(p: Rgb, c: Channel, v: int): (q: Rgb)
    ensures Chan(q, c) == v
    ensures forall d: Channel :: d != c ==> Chan(q, d) == Chan(p, d)
  {
    if c == 0 then p.(r := v) else if c == 1 then p.(g := v) else p.(b := v)
  }

  function Min(a: int, b: int): int { if a <= b then a else b }

  function Max(a: int, b: int): int { if a >= b then a else b }

  function Abs(a: int): nat { if a < 0 then -a else a }

  /** `(u > 0) - (u < 0)`, the sign idiom used throughout the samplers. */
  function Sign(u: int): int { if u > 0 then 1 else if u < 0 then -1 else 0 }

  /** A float-to-int cast in C++: truncation toward zero. */
  function Trunc(r: real): int
  {
    if r >= 0.0 then r.Floor else -((-r).Floor)
  }

  /** Adding an integer commutes with the cast of a non-negative float, as
      long as the sum is not negative either. */
  lemma TruncShift(r: real, d: int)
    requires r >= 0.0 && Trunc(r) + d >= 0
    ensures Trunc(r + d as real) == Trunc(r) + d
  {
    var f := r.Floor;
    assert f as real <= r < f as real + 1.0;
    assert (f + d) as real <= r + d as real < (f + d) as real + 1.0;
  }

  /** `x % m` on non-negative operands agrees with Dafny's Euclidean `%`;
      this is C's truncating remainder for any sign of `x`. */
  function CRem(x: int, m: int): int
    requires m > 0
  {
    if x >= 0 then x % m else -((-x) % m)
  }

  /** Euclidean division is unique: whatever `d, r` with `n = d * m + r`
      and `0 <= r < m` are, they are `n / m` and `n % m`. */
  lemma ModUnique(n: int, m: int, d: int, r: int)
    requires m > 0 && n == d * m + r && 0 <= r < m
    ensures n % m == r && n / m == d
  {
    var q, s := n / m, n % m;
    assert n == q * m + s && 0 <= s < m;
    var k := d - q;
    assert k * m == s - r;
    assert -m < k * m < m;
    assert k == 0;
  }

  /** Adding a multiple of the modulus does not change the remainder. */
  lemma ModShift(z: int, k: int, m: int)
    requires m > 0
    ensures (z + k * m) % m == z % m
  {
    assert z == (z / m) * m + z % m;
    assert z + k * m == (z / m + k) * m + z % m;
    ModUnique(z + k * m, m, z / m + k, z % m);
  }

  /** Reducing an operand first does not change a remainder of a sum. */
  lemma ModAdd(a: int, b: int, m: int)
    requires m > 0
    ensures (a % m + b) % m == (a + b) % m
    ensures (a + b % m) % m == (a + b) % m
  {
    ModAddLeft(a, b, m);
    ModAddLeft(b, a, m);
    assert a + b % m == b % m + a;
  }

  lemma ModAddLeft(a: int, b: int, m: int)
    requires m > 0
    ensures (a % m + b) % m == (a + b) % m
  {
    var qa := a / m;
    assert a == qa * m + a % m;
    ModShift(a % m + b, qa, m);
  }

  /** Reducing an operand first does not change a remainder of a difference. */
  lemma ModSub(a: int, b: int, m: int)
    requires m > 0
    ensures (a - b % m) % m == (a - b) % m
  {
    var qb := b / m;
    assert a - b % m == (a - b) + qb * m;
    ModShift(a - b, qb, m);
  }

  /** The `uint32_t` expression `a - b + c - d` over already reduced
      operands is the exact expression reduced modulo 2^32. */
  lemma ModCombine(a: int, b: int, c: int, d: int, m: int)
    requires m > 0
    ensures (a % m - b % m + c % m - d % m) % m == (a - b + c - d) % m
  {
    var k := -(a / m) + b / m - c / m + d / m;
    assert a == (a / m) * m + a % m;
    assert b == (b / m) * m + b % m;
    assert c == (c / m) * m + c % m;
    assert d == (d / m) * m + d % m;
    assert a % m - b % m + c % m - d % m == (a - b + c - d) + k * m;
    ModShift(a - b + c - d, k, m);
  }

  /** A grid of `h` rows, each of `w` cells, indexed `[y][x]`. */
  ghost predicate IsGrid<T>(g: seq<seq<T>>, w: int, h: int)
  {
    |g| == h && forall y :: 0 <= y < h ==> |g[y]| == w
  }
}
