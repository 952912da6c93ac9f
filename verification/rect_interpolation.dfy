/** The inverse direction of the rectangular foveation, shared verbatim by
    `SATDecoder` (sat_decoder.cc) and `ImageSampler` (image_sampler.cc):
    `ExpandSampledFrameRectCPU` scatters every cell of the small sample
    buffer to the pixel its forward warp lands on, and
    `InterpolateFrameRectCPU` gathers, for every full-size pixel, either the
    sample that lands exactly on it or a bilinear blend of the samples that
    bracket it. Both are separable, so the per-axis logic is stated once
    for an `Axis` and applied to x and y. */
module RectInterpolation {

  import opened Common
  import opened Helpers
  import opened Warp

  /** One axis of the warp: the foveation centre in [0, 1] units, the
      extent of the full-size frame along it, the extent of the sample
      buffer along it, the warp magnitude term and the inverse estimate
      `ceil(0.5 * rect * pow(log(n / lambda + 1), 0.25))` (a `nat` for a
      pixel distance `n`), which is left abstract. */
  datatype Axis = Axis(centre: real, size: int, rect: int, g: nat -> nat, est: nat -> nat)

  /** Where sample index `k` lands: `(int)(centre * size + delta(k - rect / 2))`. */
  function Pos(a: Axis, k: int): int
  {
    Place(a.centre, a.size, Delta(k - a.rect / 2, a.g))
  }

  // ---------------------------------------------------------------------
  // ExpandSampledFrameRectCPU

  /** The last of the sample indices `0 .. n - 1` that lands on `v`. Later
      writes of the scatter overwrite earlier ones, so this is the sample
      a pixel ends up holding. */
  function LastHit(a: Axis, n: int, v: int): (r: Option<int>)
    requires n >= 0
    ensures r.Some? ==> 0 <= r.value < n && Pos(a, r.value) == v
    ensures r.Some? ==> forall k :: r.value < k < n ==> Pos(a, k) != v
    ensures r.None? <==> forall k :: 0 <= k < n ==> Pos(a, k) != v
    decreases n
  {
    if n == 0 then None
    else if Pos(a, n - 1) == v then Some(n - 1)
    else LastHit(a, n - 1, v)
  }

  /** Pixel `(x, y)` after the columns `0 .. ni - 1` of the sample buffer
      have been scattered onto `target`. */
  function Scattered(src: seq<seq<Rgb>>, ax: Axis, ay: Axis, target: seq<seq<Rgb>>, ni: int, x: int, y: int): Rgb
    requires 0 <= ni <= ax.rect && ay.rect >= 0 && IsGrid(src, ax.rect, ay.rect)
    requires IsGrid(target, ax.size, ay.size) && 0 <= x < ax.size && 0 <= y < ay.size
  {
    match (LastHit(ax, ni, x), LastHit(ay, ay.rect, y))
    case (Some(i), Some(j)) => src[j][i]
    case _ => target[y][x]
  }

  /** `ExpandSampledFrameRectCPU`, in its loop order (`i` outer, `j`
      inner). A pixel that some sample lands on holds the last such sample,
      channels unchanged; every other pixel keeps its value. */
  method ExpandSampledFrameRectCPU(src: seq<seq<Rgb>>, ax: Axis, ay: Axis, target: seq<seq<Rgb>>)
    returns (out: seq<seq<Rgb>>)
    requires ax.rect >= 0 && ay.rect >= 0 && IsGrid(src, ax.rect, ay.rect)
    requires IsGrid(target, ax.size, ay.size)
    ensures IsGrid(out, ax.size, ay.size)
    ensures forall y, x :: 0 <= y < ay.size && 0 <= x < ax.size ==>
      out[y][x] == match (LastHit(ax, ax.rect, x), LastHit(ay, ay.rect, y))
                   case (Some(i), Some(j)) => src[j][i]
                   case _ => target[y][x]
  {
    out := target;
    for i := 0 to ax.rect
      invariant IsGrid(out, ax.size, ay.size)
      invariant forall y, x :: 0 <= y < ay.size && 0 <= x < ax.size ==>
        out[y][x] == Scattered(src, ax, ay, target, i, x, y)
    {
      out := ScatterColumn(src, ax, ay, target, i, out);
    }
  }

  /** The inner loop of the scatter: column `i` of the sample buffer. */
  method ScatterColumn(src: seq<seq<Rgb>>, ax: Axis, ay: Axis, target: seq<seq<Rgb>>, i: int, cur: seq<seq<Rgb>>)
    returns (out: seq<seq<Rgb>>)
    requires 0 <= i < ax.rect && ay.rect >= 0 && IsGrid(src, ax.rect, ay.rect)
    requires IsGrid(target, ax.size, ay.size) && IsGrid(cur, ax.size, ay.size)
    requires forall y, x :: 0 <= y < ay.size && 0 <= x < ax.size ==>
      cur[y][x] == Scattered(src, ax, ay, target, i, x, y)
    ensures IsGrid(out, ax.size, ay.size)
    ensures forall y, x :: 0 <= y < ay.size && 0 <= x < ax.size ==>
      out[y][x] == Scattered(src, ax, ay, target, i + 1, x, y)
  {
    out := cur;
    var xPos := Pos(ax, i);
    for j := 0 to ay.rect
      invariant IsGrid(out, ax.size, ay.size)
      invariant forall y, x :: 0 <= y < ay.size && 0 <= x < ax.size ==>
        out[y][x] == if x == xPos && LastHit(ay, j, y).Some? then src[LastHit(ay, j, y).value][i]
                     else Scattered(src, ax, ay, target, i, x, y)
    {
      var yPos := Pos(ay, j);
      if 0 <= xPos < ax.size && 0 <= yPos < ay.size {
        out := out[yPos := out[yPos][xPos := src[j][i]]];
      }
    }
  }

  // ---------------------------------------------------------------------
  // InterpolateFrameRectCPU, one axis at a time

  /** `(int)(centre * size)`, the pixel of the foveation centre. */
  function CentrePos(a: Axis): int
  {
    Trunc(a.centre * a.size as real)
  }

  /** The sample offset `u` estimated for pixel `pos`: the abstract
      inverse estimate with the sign of the pixel's offset `d` from the
      centre, replaced by `d` itself when it overshoots (`|u| > |d|`) or is
      zero. The result has the sign of `d`, is no larger than `d` in
      magnitude and is zero only at the centre. */
  function Estimate(a: Axis, pos: int): (u: int)
    ensures var d := pos - CentrePos(a);
      Sign(u) == Sign(d) && Abs(u) <= Abs(d) && (u == 0 <==> d == 0)
  {
    var d := pos - CentrePos(a);
    var u0 := a.est(Abs(d)) * Sign(d);
    if Abs(u0) > Abs(d) || u0 == 0 then d else u0
  }

  /** The per-axis state of one interpolated pixel: the estimate `u`,
      whether the forward warp of `u` reproduces the pixel's offset, the
      pixel span `[minPos, maxPos]` that `u` and its neighbour towards the
      centre land on, the sample offsets `lo <= hi` the blend reads after
      the bounds that leave the frame have been collapsed, and the blend
      weight. */
  datatype Bracket = Bracket(u: int, hit: bool, minPos: int, maxPos: int, lo: int, hi: int, ratio: real)

  /** The blend weight of pixel `pos` in the span `[minPos, maxPos]`:
      0 for a one-pixel span, else its relative position clamped to [0, 1]. */
  function Ratio(pos: int, minPos: int, maxPos: int): (r: real)
    ensures 0.0 <= r <= 1.0
    ensures minPos == maxPos ==> r == 0.0
    ensures pos <= minPos < maxPos ==> r == 0.0
    ensures minPos < maxPos <= pos ==> r == 1.0
  {
    if maxPos == minPos then 0.0
    else Clamp((pos - minPos) as real / (maxPos - minPos) as real, 0.0, 1.0)
  }

  /** `(pos < centre) - (pos > centre)`: one step towards the centre. */
  function TowardsCentre(a: Axis, pos: int): int
  {
    (if pos < CentrePos(a) then 1 else 0) - (if pos > CentrePos(a) then 1 else 0)
  }

  function AxisBracket(a: Axis, pos: int): (b: Bracket)
    ensures b.u == Estimate(a, pos)
    ensures b.hit <==> Delta(b.u, a.g) == pos - CentrePos(a)
    ensures b.minPos <= b.maxPos
    ensures b.lo <= b.hi && b.hi - b.lo <= 1
    ensures b.u - 1 <= b.lo && b.hi <= b.u + 1
    ensures 0.0 <= b.ratio <= 1.0
    ensures b.minPos == b.maxPos ==> b.ratio == 0.0
  {
    var cp, u := CentrePos(a), Estimate(a, pos);
    var dc := Delta(u, a.g);
    var du := TowardsCentre(a, pos);
    var dmin := Magnitude(Abs(u + du), a.g) * Sign(u);
    var minPos, maxPos := Min(cp + dmin, cp + dc), Max(cp + dmin, cp + dc);
    var minU, maxU := Min(u, u + du), Max(u, u + du);
    var lo := if minPos < 0 then maxU else minU;
    var hi := if maxPos >= a.size then lo else maxU;
    Bracket(u, dc == pos - cp, minPos, maxPos, lo, hi, Ratio(pos, minPos, maxPos))
  }

  /** Where sample offset `k` lands on the axis in the bracket search:
      the centre pixel plus the forward warp of `k`. */
  function Landing(a: Axis, k: int): int
  {
    CentrePos(a) + Delta(k, a.g)
  }

  predicate InFrame(a: Axis, k: int)
  {
    0 <= Landing(a, k) < a.size
  }

  /** For a magnitude term that is non-decreasing and 0 at 0, the span
      `[minPos, maxPos]` runs from the landing of the lower of the two
      candidate samples, `u` and its neighbour towards the centre, to the
      landing of the upper one. */
  lemma BracketSpan(a: Axis, pos: int)
    requires a.g(0) == 0
    requires forall m: nat, n: nat :: m <= n ==> a.g(m) <= a.g(n)
    ensures var b, du := AxisBracket(a, pos), TowardsCentre(a, pos);
      b.minPos == Landing(a, Min(b.u, b.u + du)) && b.maxPos == Landing(a, Max(b.u, b.u + du))
  {
    var u, du := Estimate(a, pos), TowardsCentre(a, pos);
    NeighbourLanding(a, pos);
    DeltaMonotone(Min(u, u + du), Max(u, u + du), a.g);
  }

  /** What the collapse achieves, under the same conditions: when either
      candidate lands inside the frame, the blend reads exactly the
      candidates that do; a candidate landing outside the frame is
      replaced by the other one. */
  lemma BracketKeepsInFrame(a: Axis, pos: int)
    requires a.g(0) == 0
    requires forall m: nat, n: nat :: m <= n ==> a.g(m) <= a.g(n)
    ensures var b, du := AxisBracket(a, pos), TowardsCentre(a, pos);
      var minU, maxU := Min(b.u, b.u + du), Max(b.u, b.u + du);
      && (b.lo == minU || b.lo == maxU) && (b.hi == minU || b.hi == maxU)
      && (InFrame(a, minU) ==> b.lo == minU)
      && (InFrame(a, maxU) ==> b.hi == maxU)
      && (InFrame(a, minU) || InFrame(a, maxU) ==> InFrame(a, b.lo) && InFrame(a, b.hi))
  {
    BracketSpan(a, pos);
  }

  /** The neighbour's offset is computed with the sign of `u`; it is the
      warp of the neighbour all the same, because the neighbour lies
      between `u` and 0 and the magnitude term is 0 at 0. */
  lemma NeighbourLanding(a: Axis, pos: int)
    requires a.g(0) == 0
    ensures var u, du := Estimate(a, pos), TowardsCentre(a, pos);
      Magnitude(Abs(u + du), a.g) * Sign(u) == Delta(u + du, a.g)
  {
    var u, du := Estimate(a, pos), TowardsCentre(a, pos);
    if u + du == 0 {
      assert Magnitude(0, a.g) == 0;
    }
  }

  /** Inside a span of more than one pixel that contains the pixel, the
      weight is the pixel's exact relative position in the span: the clamp
      only acts on pixels outside their span. */
  lemma RatioInSpan(pos: int, minPos: int, maxPos: int)
    requires minPos <= pos <= maxPos && minPos < maxPos
    ensures Ratio(pos, minPos, maxPos) == (pos - minPos) as real / (maxPos - minPos) as real
  {
    var n, m := (pos - minPos) as real, (maxPos - minPos) as real;
    var q := n / m;
    assert q * m == n;
  }

  /** The pixel of the foveation centre is always an exact hit, of the
      sample offset 0. */
  lemma CentreIsHit(a: Axis)
    ensures AxisBracket(a, CentrePos(a)).hit
    ensures AxisBracket(a, CentrePos(a)).u == 0
  {
    assert Estimate(a, CentrePos(a)) == 0;
    DeltaProperties(0, a.g);
  }

  // ---------------------------------------------------------------------
  // InterpolateFrameRectCPU, the whole pixel

  /** A read of sample `(i, j)` from the packed sample buffer. The source
      forms the flat offset `j * rect_w + i` (scaled by the pixel size) and
      checks neither index on its own, so a column index past either end
      of a row reads the neighbouring row. `None` where the flat offset
      falls outside the buffer. */
  function Read(src: seq<seq<Rgb>>, w: int, h: int, i: int, j: int): (r: Option<Rgb>)
    requires IsGrid(src, w, h)
    ensures r.Some? <==> w > 0 && 0 <= j * w + i < w * h
    ensures 0 <= i < w && 0 <= j < h ==> r == Some(src[j][i])
    ensures r.Some? ==> exists y, x :: 0 <= y < h && 0 <= x < w && r.value == src[y][x]
  {
    var k := j * w + i;
    if w > 0 && 0 <= k < w * h then
      OffsetRow(k, w, h);
      if 0 <= i < w && 0 <= j < h then CellOffset(i, j, w, h); Some(src[k / w][k % w])
      else Some(src[k / w][k % w])
    else
      if 0 <= i < w && 0 <= j < h then CellOffset(i, j, w, h); None else None
  }

  /** An in-range cell has an in-range flat offset, which maps back to it. */
  lemma CellOffset(i: int, j: int, w: int, h: int)
    requires 0 <= i < w && 0 <= j < h
    ensures 0 <= j * w + i < w * h && (j * w + i) / w == j && (j * w + i) % w == i
  {
    ModUnique(j * w + i, w, j, i);
    var d := h - j - 1;
    assert w * h == j * w + w + d * w;
    assert 0 <= j * w && 0 <= d * w;
  }

  /** Every in-range flat offset names a row of the buffer. */
  lemma OffsetRow(k: int, w: int, h: int)
    requires w > 0 && 0 <= k < w * h
    ensures 0 <= k / w < h
  {
  }

  /** A column index one row length past the right edge does not fail:
      it reads the start of the next row. */
  lemma ColumnOverrunReadsNextRow(src: seq<seq<Rgb>>, w: int, h: int, i: int, j: int)
    requires IsGrid(src, w, h) && w <= i < 2 * w && 0 <= j < h - 1
    ensures Read(src, w, h, i, j) == Some(src[j + 1][i - w])
  {
    assert j * w + i == (j + 1) * w + (i - w);
    CellOffset(i - w, j + 1, w, h);
  }

  /** `(uint8_t) lerp(lerp(tl, bl, yr), lerp(tr, br, yr), xr)`: blend the
      left and right columns vertically, then the two results
      horizontally, and store by truncation. */
  function BlendChannel(tl: int, tr: int, bl: int, br: int, xr: real, yr: real): int
  {
    Trunc(Lerp(Lerp(tl as real, bl as real, yr), Lerp(tr as real, br as real, yr), xr))
  }

  function Blend(tl: Rgb, tr: Rgb, bl: Rgb, br: Rgb, xr: real, yr: real): (q: Rgb)
    ensures forall c: Channel :: Chan(q, c) == BlendChannel(Chan(tl, c), Chan(tr, c), Chan(bl, c), Chan(br, c), xr, yr)
  {
    Rgb(BlendChannel(tl.r, tr.r, bl.r, br.r, xr, yr), BlendChannel(tl.g, tr.g, bl.g, br.g, xr, yr),
        BlendChannel(tl.b, tr.b, bl.b, br.b, xr, yr))
  }

  /** The colour two brackets select from a `w` x `h` sample buffer: on
      an exact hit in both axes the sample `(u + w / 2, v + h / 2)`,
      otherwise the blend of the four bracketing samples; `None` when a
      read falls outside the sample buffer. */
  function BracketPixel(src: seq<seq<Rgb>>, w: int, h: int, xb: Bracket, yb: Bracket): (r: Option<Rgb>)
    requires IsGrid(src, w, h)
  {
    var hx, hy := w / 2, h / 2;
    if xb.hit && yb.hit then
      Read(src, w, h, xb.u + hx, yb.u + hy)
    else
      var tl, tr := Read(src, w, h, xb.lo + hx, yb.lo + hy), Read(src, w, h, xb.hi + hx, yb.lo + hy);
      var bl, br := Read(src, w, h, xb.lo + hx, yb.hi + hy), Read(src, w, h, xb.hi + hx, yb.hi + hy);
      if tl.None? || tr.None? || bl.None? || br.None? then None
      else Some(Blend(tl.value, tr.value, bl.value, br.value, xb.ratio, yb.ratio))
  }

  /** The colour of pixel `(x, y)`. */
  function InterpolatePixel(src: seq<seq<Rgb>>, ax: Axis, ay: Axis, x: int, y: int): (r: Option<Rgb>)
    requires IsGrid(src, ax.rect, ay.rect)
  {
    BracketPixel(src, ax.rect, ay.rect, AxisBracket(ax, x), AxisBracket(ay, y))
  }

  /** Pixel `(x, y)` after `InterpolateFrameRectCPU` has visited it. */
  function Interpolated(src: seq<seq<Rgb>>, ax: Axis, ay: Axis, target: seq<seq<Rgb>>, x: int, y: int): Rgb
    requires IsGrid(src, ax.rect, ay.rect) && IsGrid(target, ax.size, ay.size)
    requires 0 <= x < ax.size && 0 <= y < ay.size
  {
    match InterpolatePixel(src, ax, ay, x, y)
    case Some(q) => q
    case None => target[y][x]
  }

  /** `InterpolateFrameRectCPU`, in its loop order (`x` outer, `y`
      inner): every pixel gets its interpolated colour. */
  method InterpolateFrameRectCPU(src: seq<seq<Rgb>>, ax: Axis, ay: Axis, target: seq<seq<Rgb>>)
    returns (out: seq<seq<Rgb>>)
    requires ax.size >= 0 && IsGrid(src, ax.rect, ay.rect) && IsGrid(target, ax.size, ay.size)
    ensures IsGrid(out, ax.size, ay.size)
    ensures forall y, x :: 0 <= y < ay.size && 0 <= x < ax.size ==>
      out[y][x] == match InterpolatePixel(src, ax, ay, x, y) case Some(q) => q case None => target[y][x]
  {
    out := target;
    for x := 0 to ax.size
      invariant IsGrid(out, ax.size, ay.size)
      invariant forall y, x' :: 0 <= y < ay.size && 0 <= x' < ax.size ==>
        out[y][x'] == if x' < x then Interpolated(src, ax, ay, target, x', y) else target[y][x']
    {
      out := InterpolateColumn(src, ax, ay, target, x, out);
    }
  }

  /** The inner loop of the interpolation: pixel column `x`. */
  method InterpolateColumn(src: seq<seq<Rgb>>, ax: Axis, ay: Axis, target: seq<seq<Rgb>>, x: int, cur: seq<seq<Rgb>>)
    returns (out: seq<seq<Rgb>>)
    requires IsGrid(src, ax.rect, ay.rect) && IsGrid(target, ax.size, ay.size) && IsGrid(cur, ax.size, ay.size)
    requires 0 <= x < ax.size
    requires forall y, x' :: 0 <= y < ay.size && 0 <= x' < ax.size ==>
      cur[y][x'] == if x' < x then Interpolated(src, ax, ay, target, x', y) else target[y][x']
    ensures IsGrid(out, ax.size, ay.size)
    ensures forall y, x' :: 0 <= y < ay.size && 0 <= x' < ax.size ==>
      out[y][x'] == if x' <= x then Interpolated(src, ax, ay, target, x', y) else target[y][x']
  {
    out := cur;
    for y := 0 to ay.size
      invariant IsGrid(out, ax.size, ay.size)
      invariant forall y', x' :: 0 <= y' < ay.size && 0 <= x' < ax.size ==>
        out[y'][x'] == if x' < x || (x' == x && y' < y) then Interpolated(src, ax, ay, target, x', y')
                       else target[y'][x']
    {
      var r := InterpolatePixel(src, ax, ay, x, y);
      if r.Some? {
        out := out[y := out[y][x := r.value]];
      }
    }
  }

  // ---------------------------------------------------------------------
  // Properties of the interpolation

  /** The blend of four bytes under weights in [0, 1] is a byte: the
      8-bit store never wraps. */
  lemma BlendChannelIsByte(tl: int, tr: int, bl: int, br: int, xr: real, yr: real)
    requires IsByte(tl) && IsByte(tr) && IsByte(bl) && IsByte(br)
    requires 0.0 <= xr <= 1.0 && 0.0 <= yr <= 1.0
    ensures IsByte(BlendChannel(tl, tr, bl, br, xr, yr))
  {
    var left := Lerp(tl as real, bl as real, yr);
    var right := Lerp(tr as real, br as real, yr);
    LerpBetween(tl as real, bl as real, yr);
    LerpBetween(tr as real, br as real, yr);
    assert 0.0 <= left <= 255.0 && 0.0 <= right <= 255.0;
    LerpBetween(left, right, xr);
    var m := Lerp(left, right, xr);
    assert 0.0 <= m <= 255.0;
    assert Trunc(m) == m.Floor;
  }

  /** Four equal samples blend to that sample, whatever the weights. */
  lemma BlendChannelUniform(v: int, xr: real, yr: real)
    ensures BlendChannel(v, v, v, v, xr, yr) == v
  {
    LerpSame(v as real, yr);
    LerpSame(v as real, xr);
  }

  /** With both weights 0 the blend is the top-left sample. */
  lemma BlendChannelAtZero(tl: int, tr: int, bl: int, br: int)
    ensures BlendChannel(tl, tr, bl, br, 0.0, 0.0) == tl
  {
    LerpEndpoints(tl as real, bl as real);
    LerpEndpoints(tr as real, br as real);
    LerpEndpoints(Lerp(tl as real, bl as real, 0.0), Lerp(tr as real, br as real, 0.0));
  }

  ghost predicate GridBytes(g: seq<seq<Rgb>>)
  {
    forall y, x :: 0 <= y < |g| && 0 <= x < |g[y]| ==> RgbIsBytes(g[y][x])
  }

  /** Whatever a successful read returns is a cell of the buffer, so an
      8-bit buffer reads 8-bit colours, overruns included. */
  lemma ReadsAreBytes(src: seq<seq<Rgb>>, w: int, h: int)
    requires IsGrid(src, w, h) && GridBytes(src)
    ensures forall i, j :: Read(src, w, h, i, j).Some? ==> RgbIsBytes(Read(src, w, h, i, j).value)
  {
    forall i, j | Read(src, w, h, i, j).Some?
      ensures RgbIsBytes(Read(src, w, h, i, j).value)
    {
      var y, x :| 0 <= y < h && 0 <= x < w && Read(src, w, h, i, j).value == src[y][x];
    }
  }

  /** Every interpolated colour of an 8-bit sample buffer is 8-bit. */
  lemma InterpolatedIsBytes(src: seq<seq<Rgb>>, ax: Axis, ay: Axis, x: int, y: int)
    requires IsGrid(src, ax.rect, ay.rect) && GridBytes(src)
    requires InterpolatePixel(src, ax, ay, x, y).Some?
    ensures RgbIsBytes(InterpolatePixel(src, ax, ay, x, y).value)
  {
    var xb, yb := AxisBracket(ax, x), AxisBracket(ay, y);
    BracketPixelIsBytes(src, ax.rect, ay.rect, xb, yb);
  }

  /** Two brackets with weights in [0, 1] select an 8-bit colour from an
      8-bit buffer. */
  lemma BracketPixelIsBytes(src: seq<seq<Rgb>>, w: int, h: int, xb: Bracket, yb: Bracket)
    requires IsGrid(src, w, h) && GridBytes(src)
    requires 0.0 <= xb.ratio <= 1.0 && 0.0 <= yb.ratio <= 1.0
    requires BracketPixel(src, w, h, xb, yb).Some?
    ensures RgbIsBytes(BracketPixel(src, w, h, xb, yb).value)
  {
    ReadsAreBytes(src, w, h);
    if !(xb.hit && yb.hit) {
      var hx, hy := w / 2, h / 2;
      var tl, tr := Read(src, w, h, xb.lo + hx, yb.lo + hy), Read(src, w, h, xb.hi + hx, yb.lo + hy);
      var bl, br := Read(src, w, h, xb.lo + hx, yb.hi + hy), Read(src, w, h, xb.hi + hx, yb.hi + hy);
      BlendIsBytes(tl.value, tr.value, bl.value, br.value, xb.ratio, yb.ratio);
    }
  }

  /** Blending four 8-bit colours with weights in [0, 1] gives an 8-bit
      colour. */
  lemma BlendIsBytes(tl: Rgb, tr: Rgb, bl: Rgb, br: Rgb, xr: real, yr: real)
    requires RgbIsBytes(tl) && RgbIsBytes(tr) && RgbIsBytes(bl) && RgbIsBytes(br)
    requires 0.0 <= xr <= 1.0 && 0.0 <= yr <= 1.0
    ensures RgbIsBytes(Blend(tl, tr, bl, br, xr, yr))
  {
    BlendChannelIsByte(tl.r, tr.r, bl.r, br.r, xr, yr);
    BlendChannelIsByte(tl.g, tr.g, bl.g, br.g, xr, yr);
    BlendChannelIsByte(tl.b, tr.b, bl.b, br.b, xr, yr);
  }

  /** A single-colour sample buffer interpolates to that colour wherever
      the reads stay inside it. */
  lemma InterpolateOfUniform(src: seq<seq<Rgb>>, ax: Axis, ay: Axis, x: int, y: int, v: Rgb)
    requires IsGrid(src, ax.rect, ay.rect)
    requires forall j, i :: 0 <= j < ay.rect && 0 <= i < ax.rect ==> src[j][i] == v
    requires InterpolatePixel(src, ax, ay, x, y).Some?
    ensures InterpolatePixel(src, ax, ay, x, y).value == v
  {
    var brX, brY := AxisBracket(ax, x), AxisBracket(ay, y);
    if !(brX.hit && brY.hit) {
      var q := Blend(v, v, v, v, brX.ratio, brY.ratio);
      BlendChannelUniform(v.r, brX.ratio, brY.ratio);
      BlendChannelUniform(v.g, brX.ratio, brY.ratio);
      BlendChannelUniform(v.b, brX.ratio, brY.ratio);
      assert q == v;
    }
  }

  /** The pixel of the foveation centre copies the middle sample. */
  lemma FoveaCopiesMiddleSample(src: seq<seq<Rgb>>, ax: Axis, ay: Axis)
    requires IsGrid(src, ax.rect, ay.rect)
    ensures InterpolatePixel(src, ax, ay, CentrePos(ax), CentrePos(ay))
         == Read(src, ax.rect, ay.rect, ax.rect / 2, ay.rect / 2)
  {
    CentreIsHit(ax);
    CentreIsHit(ay);
  }

  /** Interpolation undoes the scatter on exact hits: for a centre in
      [0, 1], an in-frame pixel that is a hit along an axis is exactly where
      the scatter places the sample the interpolator reads. */
  lemma HitIsScatterTarget(a: Axis, pos: int)
    requires a.centre >= 0.0 && a.size >= 0 && pos >= 0
    requires AxisBracket(a, pos).hit
    ensures Pos(a, AxisBracket(a, pos).u + a.rect / 2) == pos
  {
    var u := AxisBracket(a, pos).u;
    var d := Delta(u, a.g);
    assert CentrePos(a) + d == pos;
    PlaceFromCentre(a, d);
    assert Pos(a, u + a.rect / 2) == Place(a.centre, a.size, d);
  }

  lemma PlaceFromCentre(a: Axis, d: int)
    requires a.centre >= 0.0 && a.size >= 0 && CentrePos(a) + d >= 0
    ensures Place(a.centre, a.size, d) == CentrePos(a) + d
  {
    var r := a.centre * a.size as real;
    NonNegProduct(a.centre, a.size as real);
    TruncShift(r, d);
  }

  lemma NonNegProduct(x: real, y: real)
    requires x >= 0.0 && y >= 0.0
    ensures x * y >= 0.0
  {
  }
}
