/** The CPU paths of `SATDecoder` that read a summed-area table:
    `DecodeFrameCPU`, which recovers every pixel from its 2x2 neighbourhood
    of table cells, and `SampleFrameRectCPU`, which averages a warped box of
    the source for every cell of the foveated sample buffer. Table reads are
    `uint32_t` (so differences wrap modulo 2^32), divisions are unsigned and
    every store into the 8-bit output keeps the value modulo 2^8. */
module SatDecoder {

  import opened Common
  import opened SatSums
  import opened SatEncoder
  import opened Warp

  /** The `uint32_t` value `br - tr + tl - bl` of four table reads. */
  function Corners(br: int, tr: int, tl: int, bl: int): int
  {
    (br - tr + tl - bl) % U32
  }

  /** One output channel of `DecodeFrameCPU` at `(x, y)`. Each of the four
      branches divides by `min(x, 1) * min(y, 1)` or a factor of it, which
      is 1 wherever the branch is taken. */
  function DecodeChannel(t: seq<seq<Rgb>>, w: int, h: int, x: int, y: int, c: Channel): (v: int)
    requires IsGrid(t, w, h) && 0 <= x < w && 0 <= y < h
    ensures IsByte(v)
  {
    var s0 := Chan(t[y][x], c);
    if x > 0 && y > 0 then
      var size := Min(x, 1) * Min(y, 1);
      (Corners(s0, Chan(t[y - Min(y, 1)][x], c), Chan(t[y - Min(y, 1)][x - Min(x, 1)], c),
               Chan(t[y][x - Min(x, 1)], c)) / size) % U8
    else if x > 0 then
      (((s0 - Chan(t[y][x - Min(x, 1)], c)) % U32) / Min(x, 1)) % U8
    else if y > 0 then
      (((s0 - Chan(t[y - Min(y, 1)][x], c)) % U32) / Min(y, 1)) % U8
    else
      s0 % U8
  }

  function DecodePixel(t: seq<seq<Rgb>>, w: int, h: int, x: int, y: int): (q: Rgb)
    requires IsGrid(t, w, h) && 0 <= x < w && 0 <= y < h
    ensures forall c: Channel :: Chan(q, c) == DecodeChannel(t, w, h, x, y, c)
  {
    Rgb(DecodeChannel(t, w, h, x, y, 0), DecodeChannel(t, w, h, x, y, 1), DecodeChannel(t, w, h, x, y, 2))
  }

  /** A single-cell box is its pixel. */
  lemma CellBox(p: seq<seq<Rgb>>, c: Channel, x: int, y: int)
    requires 0 <= y < |p| && 0 <= x && RowsReach(p, x)
    ensures BoxSum(p, c, x - 1, x, y - 1, y) == Chan(p[y][x], c)
  {
    assert BoxSum(p, c, x - 1, x, y - 1, y - 1) == 0;
    assert RowSpan(p, c, y, x - 1, x - 1) == 0;
    assert RowSpan(p, c, y, x - 1, x) == Chan(p[y][x], c);
  }

  /** A table read in which a coordinate of -1 (the border the source
      never reads) stands for 0. */
  function SatRead(t: seq<seq<Rgb>>, w: int, h: int, x: int, y: int, c: Channel): int
    requires IsGrid(t, w, h) && -1 <= x < w && -1 <= y < h
  {
    if x < 0 || y < 0 then 0 else Chan(t[y][x], c)
  }

  lemma {:induction false} PrefixLeftEdge(p: seq<seq<Rgb>>, c: Channel, y: int)
    requires -1 <= y < |p|
    ensures Prefix(p, c, -1, y) == 0
    decreases y
  {
    if y >= 0 {
      PrefixLeftEdge(p, c, y - 1);
      assert BoxSum(p, c, -1, -1, -1, y) == BoxSum(p, c, -1, -1, -1, y - 1) + RowSpan(p, c, y, -1, -1);
    }
  }

  /** Every read of the table, the border included, is the prefix sum
      reduced modulo 2^32. */
  lemma SatReadIsPrefix(t: seq<seq<Rgb>>, p: seq<seq<Rgb>>, w: int, h: int, x: int, y: int, c: Channel)
    requires IsSatOf(t, p, w, h) && -1 <= x < w && -1 <= y < h
    ensures SatRead(t, w, h, x, y, c) == Prefix(p, c, x, y) % U32
  {
    if x < 0 {
      PrefixLeftEdge(p, c, y);
    } else if y < 0 {
      assert Prefix(p, c, x, y) == 0;
    }
  }

  /** Four table reads give the `uint32_t` sum of any box: the identity
      behind every branch of the decoder and the sampler. */
  lemma TableBox(t: seq<seq<Rgb>>, p: seq<seq<Rgb>>, w: int, h: int, xm: int, x: int, ym: int, y: int, c: Channel)
    requires IsSatOf(t, p, w, h) && -1 <= xm <= x < w && -1 <= ym <= y < h
    ensures (SatRead(t, w, h, x, y, c) - SatRead(t, w, h, x, ym, c)
             + SatRead(t, w, h, xm, ym, c) - SatRead(t, w, h, xm, y, c)) % U32
         == BoxSum(p, c, xm, x, ym, y) % U32
  {
    SatReadIsPrefix(t, p, w, h, x, y, c);
    SatReadIsPrefix(t, p, w, h, x, ym, c);
    SatReadIsPrefix(t, p, w, h, xm, ym, c);
    SatReadIsPrefix(t, p, w, h, xm, y, c);
    BoxFromPrefixes(p, c, xm, x, ym, y);
    ModCombine(Prefix(p, c, x, y), Prefix(p, c, x, ym), Prefix(p, c, xm, ym), Prefix(p, c, xm, y), U32);
  }

  /** A byte is its own residue modulo 2^32 and modulo 2^8. */
  lemma ByteResidues(v: int)
    requires IsByte(v)
    ensures v % U32 == v && (v % U32) % U8 == v && v % U8 == v
  {
  }

  lemma DecodeChannelRoundTrip(t: seq<seq<Rgb>>, p: seq<seq<Rgb>>, w: int, h: int, x: int, y: int, c: Channel)
    requires IsSatOf(t, p, w, h) && AllBytes(p) && 0 <= x < w && 0 <= y < h
    ensures DecodeChannel(t, w, h, x, y, c) == Chan(p[y][x], c)
  {
    TableBox(t, p, w, h, x - 1, x, y - 1, y, c);
    CellBox(p, c, x, y);
    assert RgbIsBytes(p[y][x]);
    var v := Chan(p[y][x], c);
    ByteResidues(v);
    assert Min(x, 1) == (if x > 0 then 1 else 0) && Min(y, 1) == (if y > 0 then 1 else 0);
  }

  /** Decoding inverts encoding: every pixel of an 8-bit image comes back
      from its summed-area table, even when the table has wrapped around
      2^32, because every branch is a difference of table cells. */
  lemma DecodeRoundTrip(t: seq<seq<Rgb>>, p: seq<seq<Rgb>>, w: int, h: int, x: int, y: int)
    requires IsSatOf(t, p, w, h) && AllBytes(p) && 0 <= x < w && 0 <= y < h
    ensures DecodePixel(t, w, h, x, y) == p[y][x]
  {
    DecodeChannelRoundTrip(t, p, w, h, x, y, 0);
    DecodeChannelRoundTrip(t, p, w, h, x, y, 1);
    DecodeChannelRoundTrip(t, p, w, h, x, y, 2);
    var q := DecodePixel(t, w, h, x, y);
    assert Chan(q, 0) == Chan(p[y][x], 0) && Chan(q, 1) == Chan(p[y][x], 1) && Chan(q, 2) == Chan(p[y][x], 2);
  }

  /** `SATDecoder::DecodeFrameCPU` (lines 212-299), in its loop order. Its
      output is an 8-bit image, and for the table of any 8-bit image it is
      that image. */
  method DecodeFrameCPU(t: seq<seq<Rgb>>, w: int, h: int, ghost p: seq<seq<Rgb>>) returns (out: seq<seq<Rgb>>)
    requires w >= 0 && IsGrid(t, w, h)
    ensures IsGrid(out, w, h) && AllBytes(out)
    ensures IsSatOf(t, p, w, h) && AllBytes(p) ==> out == p
  {
    out := seq(h, _ => seq(w, _ => Rgb(0, 0, 0)));
    for x := 0 to w
      invariant IsGrid(out, w, h)
      invariant forall y, x' :: 0 <= y < h && 0 <= x' < x ==> out[y][x'] == DecodePixel(t, w, h, x', y)
      invariant forall y, x' :: 0 <= y < h && x <= x' < w ==> out[y][x'] == Rgb(0, 0, 0)
    {
      for y := 0 to h
        invariant IsGrid(out, w, h)
        invariant forall y', x' :: 0 <= y' < h && 0 <= x' < x ==> out[y'][x'] == DecodePixel(t, w, h, x', y')
        invariant forall y' :: 0 <= y' < y ==> out[y'][x] == DecodePixel(t, w, h, x, y')
        invariant forall y', x' :: 0 <= y' < h && x <= x' < w && (x' > x || y' >= y) ==> out[y'][x'] == Rgb(0, 0, 0)
      {
        out := out[y := out[y][x := DecodePixel(t, w, h, x, y)]];
      }
    }
    forall y, x | 0 <= y < h && 0 <= x < w
      ensures RgbIsBytes(out[y][x])
    {
      var q := DecodePixel(t, w, h, x, y);
      assert IsByte(Chan(q, 0)) && IsByte(Chan(q, 1)) && IsByte(Chan(q, 2));
    }
    if IsSatOf(t, p, w, h) && AllBytes(p) {
      forall y | 0 <= y < h
        ensures out[y] == p[y]
      {
        forall x | 0 <= x < w
          ensures out[y][x] == p[y][x]
        {
          DecodeRoundTrip(t, p, w, h, x, y);
        }
      }
    }
  }

  // ---------------------------------------------------------------------
  // SampleFrameRectCPU

  /** The sampling geometry of one call: the source (table) size, the size
      of the sample buffer, the foveation centre in [0, 1] units and the
      warp magnitude term of each axis. */
  datatype Geometry = Geometry(
    srcW: int, srcH: int, rectW: int, rectH: int,
    cx: real, cy: real, gx: nat -> nat, gy: nat -> nat)

  /** `min(max(m, 0), p - 1)`, the clamp of the "minus" neighbour. */
  function ClampMinus(m: int, p: int): (r: int)
    requires p >= 0
    ensures p > 0 ==> 0 <= r < p
    ensures p == 0 ==> r == -1
    ensures 0 <= m < p ==> r == m
  {
    Min(Max(m, 0), p - 1)
  }

  /** The table cell `(x, y)` and its clamped "minus" neighbour `(xm, ym)`
      that the sample buffer cell `(i, j)` averages over. */
  datatype Box = Box(x: int, xm: int, y: int, ym: int)

  /** The unclamped box of buffer cell `(i, j)`: the forward warp of
      `u = i - rectW / 2` and of `u - 1`, placed around the centre. */
  function RawBox(geo: Geometry, i: int, j: int): Box
    requires geo.rectW > 0 && geo.rectH > 0
  {
    var u, v := i - geo.rectW / 2, j - geo.rectH / 2;
    Box(Place(geo.cx, geo.srcW, Delta(u, geo.gx)), Place(geo.cx, geo.srcW, Delta(u - 1, geo.gx)),
        Place(geo.cy, geo.srcH, Delta(v, geo.gy)), Place(geo.cy, geo.srcH, Delta(v - 1, geo.gy)))
  }

  predicate InSource(geo: Geometry, b: Box)
  {
    0 <= b.x < geo.srcW && 0 <= b.y < geo.srcH
  }

  /** `(x - xm) * (y - ym)`, the number of source pixels in the box. */
  function Area(b: Box): (a: int)
    requires b.xm < b.x && b.ym < b.y
    ensures a >= 1
  {
    MulPositive(b.x - b.xm, b.y - b.ym);
    (b.x - b.xm) * (b.y - b.ym)
  }

  /** One channel of a written sample, for a box with `xm < x` and
      `ym < y` (`xm = -1` and `ym = -1` stand for the edges). */
  function SampleChannel(t: seq<seq<Rgb>>, w: int, h: int, b: Box, c: Channel): (v: int)
    requires IsGrid(t, w, h) && 0 <= b.x < w && 0 <= b.y < h
    requires -1 <= b.xm < b.x && -1 <= b.ym < b.y
    requires b.x > 0 <==> b.xm >= 0
    requires b.y > 0 <==> b.ym >= 0
    ensures IsByte(v)
  {
    if b.x > 0 && b.y > 0 then
      (Corners(Chan(t[b.y][b.x], c), Chan(t[b.ym][b.x], c), Chan(t[b.ym][b.xm], c), Chan(t[b.y][b.xm], c))
        / Area(b)) % U8
    else if b.x > 0 then
      (((Chan(t[0][b.x], c) - Chan(t[0][b.xm], c)) % U32) / (b.x - b.xm)) % U8
    else if b.y > 0 then
      (((Chan(t[b.y][0], c) - Chan(t[b.ym][0], c)) % U32) / (b.y - b.ym)) % U8
    else
      Chan(t[0][0], c) % U8
  }

  /** The box actually averaged for buffer cell `(i, j)`, or `None` when
      the warped position falls outside the source and nothing is written. */
  function SampleBox(geo: Geometry, i: int, j: int): (r: Option<Box>)
    requires geo.rectW > 0 && geo.rectH > 0
    ensures r.Some? <==> InSource(geo, RawBox(geo, i, j))
    ensures r.Some? ==> var b := r.value;
      && 0 <= b.x < geo.srcW && 0 <= b.y < geo.srcH
      && -1 <= b.xm < b.x && -1 <= b.ym < b.y
      && (b.x > 0 <==> b.xm >= 0) && (b.y > 0 <==> b.ym >= 0)
  {
    var raw := RawBox(geo, i, j);
    if InSource(geo, raw) then
      Some(Box(raw.x, ClampMinus(raw.xm, raw.x), raw.y, ClampMinus(raw.ym, raw.y)))
    else
      None
  }

  /** The colour written to buffer cell `(i, j)`, if any. */
  function SampleCell(t: seq<seq<Rgb>>, geo: Geometry, i: int, j: int): (r: Option<Rgb>)
    requires geo.rectW > 0 && geo.rectH > 0 && IsGrid(t, geo.srcW, geo.srcH)
    ensures r.Some? <==> InSource(geo, RawBox(geo, i, j))
    ensures r.Some? ==> RgbIsBytes(r.value)
  {
    match SampleBox(geo, i, j)
    case None => None
    case Some(b) =>
      Some(Rgb(SampleChannel(t, geo.srcW, geo.srcH, b, 0), SampleChannel(t, geo.srcW, geo.srcH, b, 1),
               SampleChannel(t, geo.srcW, geo.srcH, b, 2)))
  }

  /** `SATDecoder::SampleFrameRectCPU` (lines 400-532), in its loop order:
      every buffer cell whose warped position lies in the source receives
      its box average; every other cell keeps what `target` held. */
  method SampleFrameRectCPU(t: seq<seq<Rgb>>, geo: Geometry, target: seq<seq<Rgb>>) returns (out: seq<seq<Rgb>>)
    requires geo.rectW > 0 && geo.rectH > 0 && IsGrid(t, geo.srcW, geo.srcH)
    requires IsGrid(target, geo.rectW, geo.rectH)
    ensures IsGrid(out, geo.rectW, geo.rectH)
    ensures forall j, i :: 0 <= j < geo.rectH && 0 <= i < geo.rectW ==>
      out[j][i] == match SampleCell(t, geo, i, j) case Some(q) => q case None => target[j][i]
  {
    var w, h := geo.rectW, geo.rectH;
    out := target;
    for i := 0 to w
      invariant IsGrid(out, w, h)
      invariant forall j, i' :: 0 <= j < h && 0 <= i' < w ==>
        out[j][i'] == if i' < i then (match SampleCell(t, geo, i', j) case Some(q) => q case None => target[j][i'])
                      else target[j][i']
    {
      for j := 0 to h
        invariant IsGrid(out, w, h)
        invariant forall j', i' :: 0 <= j' < h && 0 <= i' < w ==>
          out[j'][i'] == if i' < i || (i' == i && j' < j)
                         then (match SampleCell(t, geo, i', j') case Some(q) => q case None => target[j'][i'])
                         else target[j'][i']
      {
        var r := SampleCell(t, geo, i, j);
        if r.Some? {
          out := out[j := out[j][i := r.value]];
        }
      }
    }
  }

  /** The box identity: whatever branch is taken, each channel of a
      written sample is the `uint32_t` sum of the source over the box
      `(xm, x] x (ym, y]` divided by its area, stored modulo 2^8 - for a
      table that has wrapped as much as for one that has not. */
  lemma SampleIsBoxAverage(t: seq<seq<Rgb>>, p: seq<seq<Rgb>>, w: int, h: int, b: Box, c: Channel)
    requires IsSatOf(t, p, w, h) && 0 <= b.x < w && 0 <= b.y < h
    requires -1 <= b.xm < b.x && -1 <= b.ym < b.y
    requires b.x > 0 <==> b.xm >= 0
    requires b.y > 0 <==> b.ym >= 0
    ensures SampleChannel(t, w, h, b, c) == ((BoxSum(p, c, b.xm, b.x, b.ym, b.y) % U32) / Area(b)) % U8
  {
    TableBox(t, p, w, h, b.xm, b.x, b.ym, b.y, c);
    if b.x > 0 && b.y > 0 {
    } else if b.x > 0 {
      assert Area(b) == b.x - b.xm;
    } else if b.y > 0 {
      assert Area(b) == b.y - b.ym;
    } else {
      assert Area(b) == 1;
      assert Chan(t[0][0], c) % U32 == Chan(t[0][0], c);
    }
  }

  lemma MulPositive(a: int, b: int)
    requires a >= 1 && b >= 1
    ensures a * b >= 1
  {
  }

  /** For a box of area `A` with `255 * A < 2^32` (every box of a frame
      with `255 * W * H < 2^32`) the stored value is the exact mean of
      the box, and that mean lies in 0..255: the 8-bit store never
      truncates. */
  lemma SampleIsExactMean(t: seq<seq<Rgb>>, p: seq<seq<Rgb>>, w: int, h: int, b: Box, c: Channel)
    requires IsSatOf(t, p, w, h) && AllBytes(p) && 0 <= b.x < w && 0 <= b.y < h
    requires -1 <= b.xm < b.x && -1 <= b.ym < b.y
    requires b.x > 0 <==> b.xm >= 0
    requires b.y > 0 <==> b.ym >= 0
    requires 255 * Area(b) < U32
    ensures SampleChannel(t, w, h, b, c) == BoxSum(p, c, b.xm, b.x, b.ym, b.y) / Area(b)
    ensures 0 <= SampleChannel(t, w, h, b, c) <= 255
  {
    SampleIsBoxAverage(t, p, w, h, b, c);
    BoxSumBytes(p, c, b.xm, b.x, b.ym, b.y);
    var area := Area(b);
    var s := BoxSum(p, c, b.xm, b.x, b.ym, b.y);
    assert 0 <= s <= 255 * area;
    assert s % U32 == s;
    DivBound(s, area, 255);
    ByteResidues(s / area);
  }

  lemma DivBound(s: int, a: int, k: int)
    requires a >= 1 && k >= 0 && 0 <= s <= k * a
    ensures 0 <= s / a <= k
  {
    var q := s / a;
    assert q * a <= s;
    assert (q - k) * a <= 0;
  }

  /** A single-colour source yields that colour in every written sample. */
  lemma SampleOfUniform(t: seq<seq<Rgb>>, p: seq<seq<Rgb>>, w: int, h: int, b: Box, c: Channel, v: int)
    requires IsSatOf(t, p, w, h) && Uniform(p, c, v) && IsByte(v) && 0 <= b.x < w && 0 <= b.y < h
    requires -1 <= b.xm < b.x && -1 <= b.ym < b.y
    requires b.x > 0 <==> b.xm >= 0
    requires b.y > 0 <==> b.ym >= 0
    requires 255 * Area(b) < U32
    ensures SampleChannel(t, w, h, b, c) == v
  {
    SampleIsBoxAverage(t, p, w, h, b, c);
    BoxSumUniform(p, c, v, b.xm, b.x, b.ym, b.y);
    var area := Area(b);
    assert BoxSum(p, c, b.xm, b.x, b.ym, b.y) == v * area;
    MulMono(v, area, 255, area);
    assert 0 <= v * area < U32;
    ModUnique(v * area, U32, 0, v * area);
    ModUnique(v * area, area, v, 0);
    ByteResidues(v);
  }

  /** A sample buffer cell whose warped position lands in the source
      holds the mean colour of its box (exactly so for frames small enough
      that no box sum reaches 2^32); every divisor is at least 1. */
  lemma SampleCellIsMean(t: seq<seq<Rgb>>, p: seq<seq<Rgb>>, geo: Geometry, i: int, j: int, c: Channel)
    requires geo.rectW > 0 && geo.rectH > 0 && IsSatOf(t, p, geo.srcW, geo.srcH) && AllBytes(p)
    requires 255 * (geo.srcW * geo.srcH) < U32
    requires InSource(geo, RawBox(geo, i, j))
    ensures SampleCell(t, geo, i, j).Some?
    ensures var b := SampleBox(geo, i, j).value;
      Chan(SampleCell(t, geo, i, j).value, c) == BoxSum(p, c, b.xm, b.x, b.ym, b.y) / Area(b)
  {
    var b := SampleBox(geo, i, j).value;
    MulMono(b.x - b.xm, b.y - b.ym, geo.srcW, geo.srcH);
    MulMono(255, Area(b), 255, geo.srcW * geo.srcH);
    SampleIsExactMean(t, p, geo.srcW, geo.srcH, b, c);
    var q := SampleCell(t, geo, i, j).value;
    assert Chan(q, c) == SampleChannel(t, geo.srcW, geo.srcH, b, c);
  }

  // ---------------------------------------------------------------------
  // The table's flat layout

  /** Offset of channel `c` of table cell `(x, y)` in the encoder's output
      buffer, whose line size is `3 * W` (sat_encoder.cc, lines 141-149). */
  function EncoderOffset(x: int, y: int, c: Channel, w: int): int
  {
    y * (3 * w) + 3 * x + c
  }

  /** Offset of the same value as `SampleFrameRectCPU` computes it, with
      its line size of `4 * W` and 3 values per pixel (lines 407-408). */
  function SamplerOffset(x: int, y: int, c: Channel, w: int): int
  {
    y * (4 * w) + 3 * x + c
  }

  /** The encoder's buffer layout is a bijection between cells and
      offsets `[0, 3 * W * H)`: distinct cells never share an offset. */
  lemma EncoderLayoutInjective(x: int, y: int, c: Channel, x': int, y': int, c': Channel, w: int, h: int)
    requires 0 <= x < w && 0 <= y < h && 0 <= x' < w && 0 <= y' < h
    requires EncoderOffset(x, y, c, w) == EncoderOffset(x', y', c', w)
    ensures x == x' && y == y' && c == c'
    ensures 0 <= EncoderOffset(x, y, c, w) < 3 * w * h
  {
    var o := EncoderOffset(x, y, c, w);
    ModUnique(o, 3 * w, y, 3 * x + c);
    ModUnique(o, 3 * w, y', 3 * x' + c');
    ModUnique(3 * x + c, 3, x, c);
    ModUnique(3 * x' + c', 3, x', c');
    MulMono(y + 1, 3 * w, h, 3 * w);
    assert o < (y + 1) * (3 * w);
  }

  /** The encoder's table written out at its own offsets. */
  function Flatten(t: seq<seq<Rgb>>, w: int, h: int): (buf: seq<int>)
    requires w > 0 && h >= 0 && IsGrid(t, w, h)
    ensures |buf| == 3 * w * h
  {
    seq(3 * w * h, k requires 0 <= k < 3 * w * h =>
      FlatCell(t, w, h, k))
  }

  function FlatCell(t: seq<seq<Rgb>>, w: int, h: int, k: int): int
    requires w > 0 && h >= 0 && IsGrid(t, w, h) && 0 <= k < 3 * w * h
  {
    var y, r := k / (3 * w), k % (3 * w);
    DivBelow(k, 3 * w, h);
    Chan(t[y][r / 3], r % 3)
  }

  lemma DivBelow(k: int, m: int, h: int)
    requires m > 0 && 0 <= k < m * h
    ensures 0 <= k / m < h
  {
    var q := k / m;
    assert q * m <= k;
    assert (q - h) * m < 0;
  }

  lemma FlattenAt(t: seq<seq<Rgb>>, w: int, h: int, x: int, y: int, c: Channel)
    requires w > 0 && h >= 0 && IsGrid(t, w, h) && 0 <= x < w && 0 <= y < h
    ensures 0 <= EncoderOffset(x, y, c, w) < |Flatten(t, w, h)|
    ensures Flatten(t, w, h)[EncoderOffset(x, y, c, w)] == Chan(t[y][x], c)
  {
    EncoderLayoutInjective(x, y, c, x, y, c, w, h);
    var o := EncoderOffset(x, y, c, w);
    ModUnique(o, 3 * w, y, 3 * x + c);
    ModUnique(3 * x + c, 3, x, c);
  }

  /** One channel of a sample exactly as lines 461-523 compute it from the
      flat buffer, with the 4 * W line size; `None` when a read falls past
      the end of the buffer. */
  function SampleChannelAsWritten(buf: seq<int>, w: int, b: Box, c: Channel): Option<int>
    requires -1 <= b.xm < b.x && -1 <= b.ym < b.y
    requires b.x > 0 <==> b.xm >= 0
    requires b.y > 0 <==> b.ym >= 0
  {
    var at := (k: int) => if 0 <= k < |buf| then Some(buf[k]) else None;
    if b.x > 0 && b.y > 0 then
      var br, tr, tl, bl := at(SamplerOffset(b.x, b.y, c, w)), at(SamplerOffset(b.x, b.ym, c, w)),
                            at(SamplerOffset(b.xm, b.ym, c, w)), at(SamplerOffset(b.xm, b.y, c, w));
      if br.None? || tr.None? || tl.None? || bl.None? then None
      else Some((Corners(br.value, tr.value, tl.value, bl.value) / Area(b)) % U8)
    else if b.x > 0 then
      var r, l := at(3 * b.x + c), at(3 * b.xm + c);
      if r.None? || l.None? then None
      else Some((((r.value - l.value) % U32) / (b.x - b.xm)) % U8)
    else if b.y > 0 then
      var bo, to := at(b.y * (4 * w) + c), at(b.ym * (4 * w) + c);
      if bo.None? || to.None? then None
      else Some((((bo.value - to.value) % U32) / (b.y - b.ym)) % U8)
    else if c < |buf| then Some(buf[c] % U8)
    else None
  }

  /** Past the first row the two line sizes disagree: the sampler's
      offset overshoots the encoder's by `y * W` values. */
  lemma StrideMismatch(x: int, y: int, c: Channel, w: int)
    requires w >= 1 && y >= 1
    ensures SamplerOffset(x, y, c, w) == EncoderOffset(x, y, c, w) + y * w
    ensures SamplerOffset(x, y, c, w) != EncoderOffset(x, y, c, w)
  {
  }

  /** A 1 x 2 image with pixels (10, 20, 30) above (1, 2, 3): its table is
      (10, 20, 30), (11, 22, 33), laid out as [10, 20, 30, 11, 22, 33].
      For the bottom pixel (box (-1, 0] x (0, 1]) the flat read as written
      returns 22 - 10 = 12 for red, mixing the green of the second row with
      the red of the first, while the pixel's red is 1; the grid-indexed
      sampler returns 1. */
  lemma StrideMismatchExample()
    ensures var p := [[Rgb(10, 20, 30)], [Rgb(1, 2, 3)]];
      var t := [[Rgb(10, 20, 30)], [Rgb(11, 22, 33)]];
      var b := Box(0, -1, 1, 0);
      && IsSatOf(t, p, 1, 2)
      && Flatten(t, 1, 2) == [10, 20, 30, 11, 22, 33]
      && SampleChannelAsWritten(Flatten(t, 1, 2), 1, b, 0) == Some(12)
      && SampleChannel(t, 1, 2, b, 0) == 1 == Chan(p[1][0], 0)
  {
    ExampleIsSat();
    ExampleLayout();
  }

  /** The table of the example image. */
  lemma ExampleIsSat()
    ensures IsSatOf([[Rgb(10, 20, 30)], [Rgb(11, 22, 33)]], [[Rgb(10, 20, 30)], [Rgb(1, 2, 3)]], 1, 2)
  {
    var p := [[Rgb(10, 20, 30)], [Rgb(1, 2, 3)]];
    var t := [[Rgb(10, 20, 30)], [Rgb(11, 22, 33)]];
    forall y, x, c: Channel | 0 <= y < 2 && 0 <= x < 1
      ensures Chan(t[y][x], c) == Prefix(p, c, x, y) % U32
    {
      assert x == 0;
      if y == 1 {
        assert Prefix(p, c, 0, 1) == Prefix(p, c, 0, 0) + RowPrefix(p, c, 1, 0);
      }
    }
  }

  /** The example table in the encoder's flat layout. */
  lemma ExampleLayout()
    ensures Flatten([[Rgb(10, 20, 30)], [Rgb(11, 22, 33)]], 1, 2) == [10, 20, 30, 11, 22, 33]
  {
    var t := [[Rgb(10, 20, 30)], [Rgb(11, 22, 33)]];
    var buf := Flatten(t, 1, 2);
    forall k | 0 <= k < 6
      ensures buf[k] == [10, 20, 30, 11, 22, 33][k]
    {
      assert buf[k] == FlatCell(t, 1, 2, k);
    }
  }
}
