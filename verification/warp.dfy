/** The separable foveation warp. For a signed offset `u` from the centre
    of the sampled buffer, the source offset is

      delta(u) = sign(u) * max(|u|, G(|u|))

    where `G(n) = (int)(lambda * (exp((2n / w)^4) - 1))`. The exponential
    is left abstract: `g` stands for `G` of one axis (its width `w` and
    scale `lambda` are baked into it), so every fact below holds for any
    magnitude term whatsoever. */
module Warp {

  import opened Common

  /** `max((int)abs(u), G(abs(u)))`, the magnitude of the warped offset. */
  function Magnitude(n: nat, g: nat -> nat): (m: nat)
    ensures m >= n && m >= g(n)
    ensures m == n || m == g(n)
  {
    Max(n, g(n))
  }

  /** The forward warp of one axis. */
  function Delta(u: int, g: nat -> nat): int
  {
    Magnitude(Abs(u), g) * Sign(u)
  }

  /** The warp fixes the centre, keeps the side of the centre, never
      shrinks an offset and is odd: the four facts the grid construction
      and the interpolator's bracket search rely on. */
  lemma DeltaProperties(u: int, g: nat -> nat)
    ensures Delta(0, g) == 0
    ensures Sign(Delta(u, g)) == Sign(u)
    ensures Abs(Delta(u, g)) >= Abs(u)
    ensures Delta(-u, g) == -Delta(u, g)
  {
  }

  /** The offset of a cell's lower ("minus") neighbour is the warp of
      `u - 1`, and it never lies beyond the cell's own offset whenever the
      magnitude term is non-decreasing. */
  lemma DeltaMonotone(u: int, v: int, g: nat -> nat)
    requires forall a: nat, b: nat :: a <= b ==> g(a) <= g(b)
    requires u <= v
    ensures Delta(u, g) <= Delta(v, g)
  {
    if u >= 0 {
      assert Magnitude(Abs(u), g) <= Magnitude(Abs(v), g);
    } else if v <= 0 {
      assert Magnitude(Abs(v), g) <= Magnitude(Abs(u), g);
    }
  }

  /** `(int)(centre * size + d)`: the warped offset `d` placed around the
      centre of an axis of `size` pixels, the float sum cast back to `int`. */
  function Place(centre: real, size: int, d: int): int
  {
    Trunc(centre * size as real + d as real)
  }
}
