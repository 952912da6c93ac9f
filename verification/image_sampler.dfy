/** The CPU paths that only `ImageSampler` has: the point sampler
    `SampleFrameRectCPU`, which reads one source pixel per sample-buffer
    cell instead of a summed-area box, and the integer side of
    `InterpolateFrameLogPolarCPU`. Its scatter and rectangular interpolation
    are the shared ones of `RectInterpolation`. */
module ImageSampler {

  import opened Common
  import opened Helpers
  import opened Warp
  import opened RectInterpolation

  // ---------------------------------------------------------------------
  // SampleFrameRectCPU (the point sampler)

  /** A `uint32_t` channel stored into a `uint8_t`. */
  function Narrow(p: Rgb): (q: Rgb)
    ensures RgbIsBytes(q)
    ensures RgbIsBytes(p) ==> q == p
  {
    Rgb(p.r % U8, p.g % U8, p.b % U8)
  }

  /** Sample-buffer cell `(i, j)` lands inside the source frame. The
      source reads it without a bounds check, so this is what its callers
      must guarantee for every cell. */
  predicate Lands(ax: Axis, ay: Axis, i: int, j: int)
  {
    0 <= Pos(ax, i) < ax.size && 0 <= Pos(ay, j) < ay.size
  }

  /** The source pixel cell `(i, j)` lands on. */
  function Landing(src: seq<seq<Rgb>>, ax: Axis, ay: Axis, i: int, j: int): Rgb
    requires IsGrid(src, ax.size, ay.size) && Lands(ax, ay, i, j)
  {
    src[Pos(ay, j)][Pos(ax, i)]
  }

  /** `ImageSampler::SampleFrameRectCPU`, in its loop order (`i` outer,
      `j` inner). `ax` and `ay` describe the source frame (`size`) and the
      sample buffer (`rect`); the source holds `uint32_t` channels. Every
      cell of the buffer receives the source pixel its warped position
      lands on, narrowed to 8 bits. */
  method SampleFrameRectCPU(src: seq<seq<Rgb>>, ax: Axis, ay: Axis) returns (out: seq<seq<Rgb>>)
    requires ax.rect >= 0 && ay.rect >= 0 && IsGrid(src, ax.size, ay.size)
    requires forall j, i :: 0 <= j < ay.rect && 0 <= i < ax.rect ==> Lands(ax, ay, i, j)
    ensures IsGrid(out, ax.rect, ay.rect)
    ensures forall j, i :: 0 <= j < ay.rect && 0 <= i < ax.rect ==>
      out[j][i] == Narrow(Landing(src, ax, ay, i, j))
  {
    out := seq(ay.rect, _ => seq(ax.rect, _ => Rgb(0, 0, 0)));
    for i := 0 to ax.rect
      invariant IsGrid(out, ax.rect, ay.rect)
      invariant forall j, i' :: 0 <= j < ay.rect && 0 <= i' < i ==>
        out[j][i'] == Narrow(Landing(src, ax, ay, i', j))
    {
      for j := 0 to ay.rect
        invariant IsGrid(out, ax.rect, ay.rect)
        invariant forall j', i' :: 0 <= j' < ay.rect && 0 <= i' < i ==>
          out[j'][i'] == Narrow(Landing(src, ax, ay, i', j'))
        invariant forall j' :: 0 <= j' < j ==> out[j'][i] == Narrow(Landing(src, ax, ay, i, j'))
      {
        assert Lands(ax, ay, i, j);
        out := out[j := out[j][i := Narrow(Landing(src, ax, ay, i, j))]];
      }
    }
  }

  /** Point sampling followed by the scatter gives back the 8-bit image
      at every pixel some sample lands on: whichever of the samples that
      land on a pixel the scatter keeps, it is that pixel's own colour. */
  lemma SampleThenExpand(img: seq<seq<Rgb>>, samples: seq<seq<Rgb>>, ax: Axis, ay: Axis,
                         target: seq<seq<Rgb>>, x: int, y: int)
    requires ax.rect >= 0 && ay.rect >= 0 && IsGrid(img, ax.size, ay.size) && IsGrid(samples, ax.rect, ay.rect)
    requires IsGrid(target, ax.size, ay.size) && 0 <= x < ax.size && 0 <= y < ay.size
    requires forall j, i :: 0 <= j < ay.rect && 0 <= i < ax.rect ==> Lands(ax, ay, i, j)
    requires forall j, i :: 0 <= j < ay.rect && 0 <= i < ax.rect ==>
      samples[j][i] == Narrow(Landing(img, ax, ay, i, j))
    requires RgbIsBytes(img[y][x])
    requires LastHit(ax, ax.rect, x).Some? && LastHit(ay, ay.rect, y).Some?
    ensures Scattered(samples, ax, ay, target, ax.rect, x, y) == img[y][x]
  {
    var i, j := LastHit(ax, ax.rect, x).value, LastHit(ay, ay.rect, y).value;
    assert samples[j][i] == Narrow(img[y][x]);
  }

  // ---------------------------------------------------------------------
  // InterpolateFrameLogPolarCPU: the index logic

  /** C `round`: to the nearest integer, halves away from zero. */
  function Round(r: real): (k: int)
    ensures (k as real) - 0.5 <= r <= (k as real) + 0.5
  {
    if r >= 0.0 then (r + 0.5).Floor else -((-r + 0.5).Floor)
  }

  /** C `ceil`. */
  function Ceil(r: real): (k: int)
    ensures r <= k as real < r + 1.0
  {
    -((-r).Floor)
  }

  /** C `fmod`: the remainder of a division truncated toward zero, with
      the sign of the dividend. */
  function FMod(x: real, m: real): (r: real)
    requires m > 0.0
    ensures -m < r < m
    ensures x >= 0.0 ==> 0.0 <= r
  {
    var t := Trunc(x / m);
    FModBounds(x, m, t);
    x - m * t as real
  }

  lemma FModBounds(x: real, m: real, t: int)
    requires m > 0.0 && t == Trunc(x / m)
    ensures -m < x - m * t as real < m
    ensures x >= 0.0 ==> 0.0 <= x - m * t as real
  {
    var q := x / m;
    TruncFraction(q);
    SignOfQuotient(x, m);
    RemainderBounds(x, m, q, t as real, q - t as real);
  }

  /** The remainder is `m` times the dropped fraction `e` of the quotient,
      so it lies strictly within one `m` of zero, on the side of `x`. */
  lemma RemainderBounds(x: real, m: real, q: real, t: real, e: real)
    requires m > 0.0 && q == x / m && e == q - t
    requires q >= 0.0 ==> 0.0 <= e < 1.0
    requires q < 0.0 ==> -1.0 < e <= 0.0
    requires x >= 0.0 <==> q >= 0.0
    ensures -m < x - m * t < m
    ensures x >= 0.0 ==> 0.0 <= x - m * t
  {
    assert q * m == x;
    assert x - m * t == m * e;
    if q >= 0.0 {
      assert m * (1.0 - e) > 0.0;
    } else {
      assert m * (1.0 + e) > 0.0;
      assert m * (-e) >= 0.0;
    }
  }

  lemma SignOfQuotient(x: real, m: real)
    requires m > 0.0
    ensures x >= 0.0 <==> x / m >= 0.0
  {
    assert (x / m) * m == x;
  }

  /** What truncation drops is less than one, with the sign of its input. */
  lemma TruncFraction(q: real)
    ensures q >= 0.0 ==> 0.0 <= q - Trunc(q) as real < 1.0
    ensures q < 0.0 ==> -1.0 < q - Trunc(q) as real <= 0.0
  {
  }

  /** `(int) clamp(k, 0, n - 1)` of a whole-numbered float. */
  function ClampIndex(k: int, n: int): (r: int)
    requires n >= 1
    ensures 0 <= r < n
    ensures 0 <= k < n ==> r == k
    ensures k < 0 ==> r == 0
    ensures k >= n ==> r == n - 1
  {
    Trunc(Clamp(k as real, 0.0, (n - 1) as real))
  }

  /** The sample-buffer indices of one log-polar pixel: the nearest cell
      `(i, j)` and the bracket `minI..maxI` x `minJ..maxJ` with its blend
      weights. */
  datatype PolarIndex = PolarIndex(i: int, j: int, minI: int, maxI: int, minJ: int, maxJ: int,
                                   iRatio: real, jRatio: real)

  /** The indices for radial coordinate `iF` and angular coordinate `jF`
      in a `w x h` sample buffer. Every index is inside the buffer; the
      radial bracket is clamped while the angular one wraps around `h`, so
      its upper row is the lower one or the row after it, modulo `h`. */
  function PolarIndices(w: int, h: int, iF: real, jF: real): (p: PolarIndex)
    requires w >= 1 && h >= 1 && jF > -(h as real)
    ensures 0 <= p.i < w && 0 <= p.minI <= p.maxI < w && p.maxI <= p.minI + 1
    ensures 0 <= p.j < h && 0 <= p.minJ < h && 0 <= p.maxJ < h
    ensures p.maxJ == p.minJ || p.maxJ == (p.minJ + 1) % h
    ensures 0.0 <= p.iRatio < 1.0 && 0.0 <= p.jRatio < 1.0
    ensures iF == 0.0 ==> p.i == 0 && p.minI == 0 && p.maxI == 0 && p.iRatio == 0.0
  {
    var lowJ, highJ := (jF + h as real).Floor, Ceil(jF + h as real);
    WrapStep(lowJ, highJ, h);
    PolarIndex(ClampIndex(Round(iF), w), ClampIndex(Round(jF), h),
               ClampIndex(iF.Floor, w), ClampIndex(Ceil(iF), w),
               CRem(lowJ, h), CRem(highJ, h),
               iF - iF.Floor as real, jF - jF.Floor as real)
  }

  lemma WrapStep(lo: int, hi: int, h: int)
    requires h >= 1 && 0 <= lo && (hi == lo || hi == lo + 1)
    ensures 0 <= CRem(lo, h) < h && 0 <= CRem(hi, h) < h
    ensures CRem(hi, h) == CRem(lo, h) || CRem(hi, h) == (CRem(lo, h) + 1) % h
  {
    if hi == lo + 1 {
      ModAdd(lo, 1, h);
    }
  }

  /** The angular coordinate: `fmod(angle + 2h, h)` off the vertical
      axis through the centre (`angle` stands for the arctangent term, left
      abstract), and a quarter or three quarters of a turn on it. */
  function AngleCoord(h: int, dx: int, dy: int, angle: real): (jF: real)
    requires h >= 1
    ensures -(h as real) < jF < h as real
    ensures dx == 0 ==> 0.0 <= jF < h as real
  {
    if dx != 0 then FMod(angle + 2.0 * h as real, h as real)
    else if dy < 0 then 3.0 * h as real / 4.0
    else h as real / 4.0
  }

  /** The float parts of the log-polar mapping, left abstract: the radial
      coordinate of an offset from the centre, its arctangent term, and
      the pixel the forward mapping sends a sample-buffer cell to. */
  datatype PolarTrig = PolarTrig(radial: (int, int) -> real, angle: (int, int) -> real,
                                 forward: (int, int) -> (int, int))

  /** The indices of pixel `(x, y)`, with the centre at `(cx, cy)`; the
      centre pixel itself has radial coordinate 0. */
  function PixelIndices(w: int, h: int, cx: int, cy: int, trig: PolarTrig, x: int, y: int): (p: PolarIndex)
    requires w >= 1 && h >= 1
  {
    var dx, dy := x - cx, y - cy;
    var iF := if dx == 0 && dy == 0 then 0.0 else trig.radial(dx, dy);
    PolarIndices(w, h, iF, AngleCoord(h, dx, dy, trig.angle(dx, dy)))
  }

  /** The colour of pixel `(x, y)`: the nearest sample when the forward
      mapping of its indices hits the pixel, otherwise the bilinear blend
      of the bracket, weighted by the fractional parts of the coordinates.
      Every read is inside the buffer. */
  function LogPolarPixel(src: seq<seq<Rgb>>, w: int, h: int, cx: int, cy: int, trig: PolarTrig, x: int, y: int): Rgb
    requires w >= 1 && h >= 1 && IsGrid(src, w, h)
  {
    var p := PixelIndices(w, h, cx, cy, trig, x, y);
    if trig.forward(p.i, p.j) == (x, y) then src[p.j][p.i]
    else Blend(src[p.minJ][p.minI], src[p.minJ][p.maxI], src[p.maxJ][p.minI], src[p.maxJ][p.maxI],
               p.iRatio, p.jRatio)
  }

  /** `ImageSampler::InterpolateFrameLogPolarCPU`, in its loop order (`x`
      outer, `y` inner): every pixel of the `tw x th` frame is written. */
  method InterpolateFrameLogPolarCPU(src: seq<seq<Rgb>>, w: int, h: int, centreX: real, centreY: real,
                                     trig: PolarTrig, tw: int, th: int) returns (out: seq<seq<Rgb>>)
    requires w >= 1 && h >= 1 && IsGrid(src, w, h) && tw >= 0 && th >= 0
    ensures IsGrid(out, tw, th)
    ensures forall y, x :: 0 <= y < th && 0 <= x < tw ==>
      out[y][x] == LogPolarPixel(src, w, h, Trunc(centreX * tw as real), Trunc(centreY * th as real), trig, x, y)
  {
    var cx, cy := Trunc(centreX * tw as real), Trunc(centreY * th as real);
    out := seq(th, _ => seq(tw, _ => Rgb(0, 0, 0)));
    for x := 0 to tw
      invariant IsGrid(out, tw, th)
      invariant forall y, x' :: 0 <= y < th && 0 <= x' < x ==> out[y][x'] == LogPolarPixel(src, w, h, cx, cy, trig, x', y)
    {
      out := LogPolarColumn(src, w, h, cx, cy, trig, tw, th, x, out);
    }
  }

  /** The inner loop: pixel column `x`, leaving the other columns alone. */
  method LogPolarColumn(src: seq<seq<Rgb>>, w: int, h: int, cx: int, cy: int, trig: PolarTrig,
                        tw: int, th: int, x: int, cur: seq<seq<Rgb>>) returns (out: seq<seq<Rgb>>)
    requires w >= 1 && h >= 1 && IsGrid(src, w, h) && 0 <= x < tw && th >= 0 && IsGrid(cur, tw, th)
    ensures IsGrid(out, tw, th)
    ensures forall y :: 0 <= y < th ==> out[y][x] == LogPolarPixel(src, w, h, cx, cy, trig, x, y)
    ensures forall y, x' :: 0 <= y < th && 0 <= x' < tw && x' != x ==> out[y][x'] == cur[y][x']
  {
    out := cur;
    for y := 0 to th
      invariant IsGrid(out, tw, th)
      invariant forall y', x' :: 0 <= y' < th && 0 <= x' < tw && x' != x ==> out[y'][x'] == cur[y'][x']
      invariant forall y' :: 0 <= y' < y ==> out[y'][x] == LogPolarPixel(src, w, h, cx, cy, trig, x, y')
    {
      out := out[y := out[y][x := LogPolarPixel(src, w, h, cx, cy, trig, x, y)]];
    }
  }

  /** The centre pixel reads radial index 0: column 0 of the buffer, with
      no radial blending. */
  lemma CentreReadsFirstColumn(w: int, h: int, cx: int, cy: int, trig: PolarTrig)
    requires w >= 1 && h >= 1
    ensures var p := PixelIndices(w, h, cx, cy, trig, cx, cy);
      p.i == 0 && p.minI == 0 && p.maxI == 0 && p.iRatio == 0.0
  {
  }

  /** Every log-polar colour of an 8-bit buffer is 8-bit. */
  lemma LogPolarIsBytes(src: seq<seq<Rgb>>, w: int, h: int, cx: int, cy: int, trig: PolarTrig, x: int, y: int)
    requires w >= 1 && h >= 1 && IsGrid(src, w, h) && GridBytes(src)
    ensures RgbIsBytes(LogPolarPixel(src, w, h, cx, cy, trig, x, y))
  {
    var p := PixelIndices(w, h, cx, cy, trig, x, y);
    if trig.forward(p.i, p.j) != (x, y) {
      var tl, tr := src[p.minJ][p.minI], src[p.minJ][p.maxI];
      var bl, br := src[p.maxJ][p.minI], src[p.maxJ][p.maxI];
      assert RgbIsBytes(tl) && RgbIsBytes(tr) && RgbIsBytes(bl) && RgbIsBytes(br);
      var q := Blend(tl, tr, bl, br, p.iRatio, p.jRatio);
      forall c: Channel
        ensures IsByte(Chan(q, c))
      {
        BlendChannelIsByte(Chan(tl, c), Chan(tr, c), Chan(bl, c), Chan(br, c), p.iRatio, p.jRatio);
      }
      assert IsByte(Chan(q, 0)) && IsByte(Chan(q, 1)) && IsByte(Chan(q, 2));
    }
  }

  /** A single-colour buffer interpolates to that colour everywhere. */
  lemma LogPolarOfUniform(src: seq<seq<Rgb>>, w: int, h: int, cx: int, cy: int, trig: PolarTrig, x: int, y: int, v: Rgb)
    requires w >= 1 && h >= 1 && IsGrid(src, w, h)
    requires forall j, i :: 0 <= j < h && 0 <= i < w ==> src[j][i] == v
    ensures LogPolarPixel(src, w, h, cx, cy, trig, x, y) == v
  {
    var p := PixelIndices(w, h, cx, cy, trig, x, y);
    if trig.forward(p.i, p.j) != (x, y) {
      BlendChannelUniform(v.r, p.iRatio, p.jRatio);
      BlendChannelUniform(v.g, p.iRatio, p.jRatio);
      BlendChannelUniform(v.b, p.iRatio, p.jRatio);
      assert Blend(v, v, v, v, p.iRatio, p.jRatio) == v;
    }
  }
}
