/** Exact (unbounded) sums over rectangles of one channel of a pixel grid
    indexed `[y][x]`. These are the reference definitions the summed-area
    table is proved against: a box `(x0, x1] x (y0, y1]` is summed cell by
    cell, and an index of -1 stands for "before the first row/column", so a
    prefix is the box `(-1, x] x (-1, y]`. */
module SatSums {

  import opened Common

  /** Every row of `g` has a column `x`. */
  ghost predicate RowsReach(g: seq<seq<Rgb>>, x: int)
  {
    forall y :: 0 <= y < |g| ==> x < |g[y]|
  }

  ghost predicate AllBytes(g: seq<seq<Rgb>>)
  {
    forall y, x :: 0 <= y < |g| && 0 <= x < |g[y]| ==> RgbIsBytes(g[y][x])
  }

  /** Channel `c` is the constant `v` over the whole grid. */
  ghost predicate Uniform(g: seq<seq<Rgb>>, c: Channel, v: int)
  {
    forall y, x :: 0 <= y < |g| && 0 <= x < |g[y]| ==> Chan(g[y][x], c) == v
  }

  /** Sum of channel `c` of row `y` over the columns `(x0, x1]`. */
  function RowSpan(g: seq<seq<Rgb>>, c: Channel, y: int, x0: int, x1: int): int
    requires 0 <= y < |g| && -1 <= x0 <= x1 < |g[y]|
    decreases x1 - x0
  {
    if x1 == x0 then 0 else RowSpan(g, c, y, x0, x1 - 1) + Chan(g[y][x1], c)
  }

  /** Sum of channel `c` over the box `(x0, x1] x (y0, y1]`. */
  function BoxSum(g: seq<seq<Rgb>>, c: Channel, x0: int, x1: int, y0: int, y1: int): int
    requires -1 <= y0 <= y1 < |g| && -1 <= x0 <= x1 && RowsReach(g, x1)
    decreases y1 - y0
  {
    if y1 == y0 then 0
    else BoxSum(g, c, x0, x1, y0, y1 - 1) + RowSpan(g, c, y1, x0, x1)
  }

  /** `sum_{x' <= x, y' <= y} g[y'][x']`; zero when either index is -1. */
  function Prefix(g: seq<seq<Rgb>>, c: Channel, x: int, y: int): int
    requires -1 <= y < |g| && -1 <= x && RowsReach(g, x)
  {
    BoxSum(g, c, -1, x, -1, y)
  }

  /** `sum_{x' <= x} g[y][x']`, a prefix of row `y`. */
  function RowPrefix(g: seq<seq<Rgb>>, c: Channel, y: int, x: int): int
    requires 0 <= y < |g| && -1 <= x < |g[y]|
  {
    RowSpan(g, c, y, -1, x)
  }

  /** `sum_{y' <= y} g[y'][x]`, a prefix of column `x`. */
  function ColPrefix(g: seq<seq<Rgb>>, c: Channel, x: int, y: int): int
    requires -1 <= y < |g| && 0 <= x && RowsReach(g, x)
    decreases y
  {
    if y == -1 then 0 else ColPrefix(g, c, x, y - 1) + Chan(g[y][x], c)
  }

  lemma {:induction false} RowSpanSplit(g: seq<seq<Rgb>>, c: Channel, y: int, a: int, b: int, d: int)
    requires 0 <= y < |g| && -1 <= a <= b <= d < |g[y]|
    ensures RowSpan(g, c, y, a, d) == RowSpan(g, c, y, a, b) + RowSpan(g, c, y, b, d)
    decreases d - b
  {
    if d > b {
      RowSpanSplit(g, c, y, a, b, d - 1);
    }
  }

  lemma {:induction false} BoxSplitX(g: seq<seq<Rgb>>, c: Channel, a: int, b: int, d: int, y0: int, y1: int)
    requires -1 <= y0 <= y1 < |g| && -1 <= a <= b <= d && RowsReach(g, d)
    ensures BoxSum(g, c, a, d, y0, y1) == BoxSum(g, c, a, b, y0, y1) + BoxSum(g, c, b, d, y0, y1)
    decreases y1 - y0
  {
    if y1 > y0 {
      BoxSplitX(g, c, a, b, d, y0, y1 - 1);
      RowSpanSplit(g, c, y1, a, b, d);
    }
  }

  lemma {:induction false} BoxSplitY(g: seq<seq<Rgb>>, c: Channel, x0: int, x1: int, a: int, b: int, d: int)
    requires -1 <= a <= b <= d < |g| && -1 <= x0 <= x1 && RowsReach(g, x1)
    ensures BoxSum(g, c, x0, x1, a, d) == BoxSum(g, c, x0, x1, a, b) + BoxSum(g, c, x0, x1, b, d)
    decreases d - b
  {
    if d > b {
      BoxSplitY(g, c, x0, x1, a, b, d - 1);
    }
  }

  /** Inclusion-exclusion: any box is four prefix lookups, a prefix at index
      -1 reading as zero. Every SAT lookup of the decoder and the sampler
      rests on this identity. */
  lemma BoxFromPrefixes(g: seq<seq<Rgb>>, c: Channel, x0: int, x1: int, y0: int, y1: int)
    requires -1 <= y0 <= y1 < |g| && -1 <= x0 <= x1 && RowsReach(g, x1)
    ensures BoxSum(g, c, x0, x1, y0, y1)
         == Prefix(g, c, x1, y1) - Prefix(g, c, x1, y0) - Prefix(g, c, x0, y1) + Prefix(g, c, x0, y0)
  {
    BoxSplitY(g, c, -1, x1, -1, y0, y1);
    BoxSplitX(g, c, -1, x0, x1, y0, y1);
    BoxSplitY(g, c, -1, x0, -1, y0, y1);
  }

  /** A prefix grows one row at a time by that row's own prefix: this is
      the recurrence the encoder's column pass applies to the row pass's
      output. */
  lemma PrefixStep(g: seq<seq<Rgb>>, c: Channel, x: int, y: int)
    requires 0 <= y < |g| && -1 <= x && RowsReach(g, x)
    ensures Prefix(g, c, x, y) == Prefix(g, c, x, y - 1) + RowPrefix(g, c, y, x)
  {
  }

  /** A row prefix grows one cell at a time: the recurrence of the
      encoder's row pass. */
  lemma RowPrefixStep(g: seq<seq<Rgb>>, c: Channel, y: int, x: int)
    requires 0 <= y < |g| && 0 <= x < |g[y]|
    ensures RowPrefix(g, c, y, x) == RowPrefix(g, c, y, x - 1) + Chan(g[y][x], c)
  {
  }

  lemma {:induction false} RowSpanBytes(g: seq<seq<Rgb>>, c: Channel, y: int, x0: int, x1: int)
    requires 0 <= y < |g| && -1 <= x0 <= x1 < |g[y]| && AllBytes(g)
    ensures 0 <= RowSpan(g, c, y, x0, x1) <= 255 * (x1 - x0)
    decreases x1 - x0
  {
    if x1 > x0 {
      RowSpanBytes(g, c, y, x0, x1 - 1);
      assert RgbIsBytes(g[y][x1]);
    }
  }

  /** A box over 8-bit pixels lies in `[0, 255 * area]`. */
  lemma {:induction false} BoxSumBytes(g: seq<seq<Rgb>>, c: Channel, x0: int, x1: int, y0: int, y1: int)
    requires -1 <= y0 <= y1 < |g| && -1 <= x0 <= x1 && RowsReach(g, x1) && AllBytes(g)
    ensures 0 <= BoxSum(g, c, x0, x1, y0, y1) <= 255 * ((x1 - x0) * (y1 - y0))
    decreases y1 - y0
  {
    if y1 > y0 {
      BoxSumBytes(g, c, x0, x1, y0, y1 - 1);
      RowSpanBytes(g, c, y1, x0, x1);
      assert (x1 - x0) * (y1 - y0) == (x1 - x0) * (y1 - 1 - y0) + (x1 - x0);
    }
  }

  lemma {:induction false} RowSpanUniform(g: seq<seq<Rgb>>, c: Channel, v: int, y: int, x0: int, x1: int)
    requires 0 <= y < |g| && -1 <= x0 <= x1 < |g[y]| && Uniform(g, c, v)
    ensures RowSpan(g, c, y, x0, x1) == v * (x1 - x0)
    decreases x1 - x0
  {
    if x1 > x0 {
      RowSpanUniform(g, c, v, y, x0, x1 - 1);
    }
  }

  /** A box over a single-colour channel is that value times the area. */
  lemma {:induction false} BoxSumUniform(g: seq<seq<Rgb>>, c: Channel, v: int, x0: int, x1: int, y0: int, y1: int)
    requires -1 <= y0 <= y1 < |g| && -1 <= x0 <= x1 && RowsReach(g, x1) && Uniform(g, c, v)
    ensures BoxSum(g, c, x0, x1, y0, y1) == v * ((x1 - x0) * (y1 - y0))
    decreases y1 - y0
  {
    if y1 > y0 {
      BoxSumUniform(g, c, v, x0, x1, y0, y1 - 1);
      RowSpanUniform(g, c, v, y1, x0, x1);
      MulStep(v, x1 - x0, y1 - 1 - y0);
    }
  }

  lemma MulStep(v: int, w: int, n: int)
    ensures v * (w * (n + 1)) == v * (w * n) + v * w
  {
    assert w * (n + 1) == w * n + w;
  }

  /** Over 8-bit pixels a prefix never decreases when its corner moves
      right or down. */
  lemma PrefixMonotone(g: seq<seq<Rgb>>, c: Channel, x: int, y: int, x': int, y': int)
    requires -1 <= x <= x' && -1 <= y <= y' < |g| && RowsReach(g, x') && AllBytes(g)
    ensures Prefix(g, c, x, y) <= Prefix(g, c, x', y')
  {
    BoxSplitY(g, c, -1, x', -1, y, y');
    BoxSplitX(g, c, -1, x, x', -1, y);
    BoxSumBytes(g, c, -1, x', y, y');
    BoxSumBytes(g, c, x, x', -1, y);
  }
}
