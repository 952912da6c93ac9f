/** `SATEncoder::EncodeFrameCPU`: the CPU reference that turns an 8-bit RGB(A)
    frame into a summed-area table of `uint32_t` triples. It runs three
    passes, each in the source's loop order: widen every pixel's first three
    bytes to 32 bits, prefix-sum every row, then prefix-sum every column.
    Every addition is a `uint32_t` addition and is reduced modulo 2^32. */
module SatEncoder {

  import opened Common
  import opened SatSums

  /** A decoded frame as the encoder reads it: `height` rows of `linesize`
      bytes, pixel `x` of a row starting at byte `x * (linesize / width)`. */
  datatype Frame = Frame(width: int, height: int, linesize: int, rows: seq<seq<int>>)

  /** `input_linesize / width`; any bytes of a pixel beyond the third (an
      alpha channel, padding) are never read. */
  function BytesPerPixel(f: Frame): int
    requires f.width > 0 && f.linesize >= 0
  {
    f.linesize / f.width
  }

  /** The frame the source can read without leaving a row: the three
      bytes of the last pixel lie inside the row. */
  ghost predicate WellFormed(f: Frame)
  {
    && f.width > 0 && f.height >= 0 && f.linesize >= 0
    && (f.width - 1) * BytesPerPixel(f) + 2 < f.linesize
    && |f.rows| == f.height
    && (forall y :: 0 <= y < f.height ==> |f.rows[y]| == f.linesize)
    && (forall y, k :: 0 <= y < f.height && 0 <= k < |f.rows[y]| ==> IsByte(f.rows[y][k]))
  }

  lemma PixelBytesInRow(f: Frame, x: int)
    requires WellFormed(f) && 0 <= x < f.width
    ensures 0 <= x * BytesPerPixel(f) && x * BytesPerPixel(f) + 2 < f.linesize
  {
    assert x * BytesPerPixel(f) <= (f.width - 1) * BytesPerPixel(f);
  }

  /** The colour of pixel `(x, y)`: the first three bytes at its offset. */
  function Pixel(f: Frame, x: int, y: int): (p: Rgb)
    requires WellFormed(f) && 0 <= x < f.width && 0 <= y < f.height
    ensures RgbIsBytes(p)
  {
    PixelBytesInRow(f, x);
    var o := x * BytesPerPixel(f);
    Rgb(f.rows[y][o], f.rows[y][o + 1], f.rows[y][o + 2])
  }

  /** The frame as a `height x width` grid of colours, the image whose
      summed-area table the encoder computes. */
  function Image(f: Frame): (g: seq<seq<Rgb>>)
    requires WellFormed(f)
    ensures IsGrid(g, f.width, f.height)
    ensures forall y, x :: 0 <= y < f.height && 0 <= x < f.width ==> g[y][x] == Pixel(f, x, y)
  {
    seq(f.height, y requires 0 <= y < f.height =>
      seq(f.width, x requires 0 <= x < f.width => Pixel(f, x, y)))
  }

  ghost predicate AllWords(g: seq<seq<Rgb>>)
  {
    forall y, x :: 0 <= y < |g| && 0 <= x < |g[y]| ==> RgbIsWords(g[y][x])
  }

  /** `t` is the summed-area table of `p` as `uint32_t` arithmetic leaves
      it: every channel of every cell is the inclusive prefix sum reduced
      modulo 2^32. */
  ghost predicate IsSatOf(t: seq<seq<Rgb>>, p: seq<seq<Rgb>>, w: int, h: int)
  {
    && w >= 0 && IsGrid(t, w, h) && IsGrid(p, w, h)
    && forall y, x, c: Channel :: 0 <= y < h && 0 <= x < w ==>
         Chan(t[y][x], c) == Prefix(p, c, x, y) % U32
  }

  /** Channel-wise `uint32_t` addition. */
  function AddWrap(a: Rgb, b: Rgb): (s: Rgb)
    ensures forall c: Channel :: Chan(s, c) == (Chan(a, c) + Chan(b, c)) % U32
    ensures RgbIsWords(s)
  {
    Rgb((a.r + b.r) % U32, (a.g + b.g) % U32, (a.b + b.b) % U32)
  }

  /** First pass (lines 146-156): each cell receives the first three bytes
      of its pixel, widened. */
  method WidenPass(f: Frame) returns (t: seq<seq<Rgb>>)
    requires WellFormed(f)
    ensures IsGrid(t, f.width, f.height)
    ensures forall y, x :: 0 <= y < f.height && 0 <= x < f.width ==> t[y][x] == Image(f)[y][x]
  {
    var w, h := f.width, f.height;
    t := seq(h, _ => seq(w, _ => Rgb(0, 0, 0)));
    for x := 0 to w
      invariant IsGrid(t, w, h)
      invariant forall y, x' :: 0 <= y < h && 0 <= x' < x ==> t[y][x'] == Pixel(f, x', y)
    {
      for y := 0 to h
        invariant IsGrid(t, w, h)
        invariant forall y', x' :: 0 <= y' < h && 0 <= x' < x ==> t[y'][x'] == Pixel(f, x', y')
        invariant forall y' :: 0 <= y' < y ==> t[y'][x] == Pixel(f, x, y')
      {
        t := t[y := t[y][x := Pixel(f, x, y)]];
      }
    }
  }

  /** `v` is the row prefix of `t0` at `(x, y)` modulo 2^32. */
  ghost predicate RowDone(v: Rgb, t0: seq<seq<Rgb>>, y: int, x: int)
    requires 0 <= y < |t0| && 0 <= x < |t0[y]|
  {
    forall c: Channel :: Chan(v, c) == RowPrefix(t0, c, y, x) % U32
  }

  /** Column `x` of `t` holds the row prefixes of `t0`. */
  ghost predicate ColumnRowDone(t: seq<seq<Rgb>>, t0: seq<seq<Rgb>>, w: int, h: int, x: int)
    requires IsGrid(t, w, h) && IsGrid(t0, w, h) && 0 <= x < w
  {
    forall y :: 0 <= y < h ==> RowDone(t[y][x], t0, y, x)
  }

  /** `v` is the column prefix of `t0` at `(x, y)` modulo 2^32. */
  ghost predicate ColDone(v: Rgb, t0: seq<seq<Rgb>>, y: int, x: int)
    requires 0 <= y < |t0| && 0 <= x && RowsReach(t0, x)
  {
    forall c: Channel :: Chan(v, c) == ColPrefix(t0, c, x, y) % U32
  }

  /** Row `y` of `t` holds the column prefixes of `t0`. */
  ghost predicate RowColDone(t: seq<seq<Rgb>>, t0: seq<seq<Rgb>>, w: int, h: int, y: int)
    requires IsGrid(t, w, h) && IsGrid(t0, w, h) && 0 <= y < h
  {
    forall x :: 0 <= x < w ==> ColDone(t[y][x], t0, y, x)
  }

  /** The inner loop of the row pass for one column `x >= 1`. */
  method RowScanColumn(t: seq<seq<Rgb>>, t0: seq<seq<Rgb>>, w: int, h: int, x: int)
    returns (t': seq<seq<Rgb>>)
    requires IsGrid(t, w, h) && IsGrid(t0, w, h) && 1 <= x < w
    requires ColumnRowDone(t, t0, w, h, x - 1)
    requires forall y :: 0 <= y < h ==> t[y][x] == t0[y][x]
    ensures IsGrid(t', w, h)
    ensures ColumnRowDone(t', t0, w, h, x)
    ensures forall y, x' :: 0 <= y < h && 0 <= x' < w && x' != x ==> t'[y][x'] == t[y][x']
  {
    t' := t;
    for y := 0 to h
      invariant IsGrid(t', w, h)
      invariant forall y' :: 0 <= y' < y ==> RowDone(t'[y'][x], t0, y', x)
      invariant forall y', x' :: 0 <= y' < h && 0 <= x' < w && (x' != x || y' >= y) ==> t'[y'][x'] == t[y'][x']
    {
      var sum := AddWrap(t'[y][x], t'[y][x - 1]);
      assert RowDone(t[y][x - 1], t0, y, x - 1);
      forall c: Channel
        ensures Chan(sum, c) == RowPrefix(t0, c, y, x) % U32
      {
        ModAdd(Chan(t0[y][x], c), RowPrefix(t0, c, y, x - 1), U32);
      }
      t' := t'[y := t'[y][x := sum]];
    }
  }

  /** Second pass (lines 158-170): for `x` from 1, in every row, add the
      cell to the left. Column 0 keeps its value. */
  method RowPass(t0: seq<seq<Rgb>>, w: int, h: int) returns (t: seq<seq<Rgb>>)
    requires w >= 0 && IsGrid(t0, w, h) && AllWords(t0)
    ensures IsGrid(t, w, h)
    ensures forall y, x :: 0 <= y < h && 0 <= x < w ==> RowDone(t[y][x], t0, y, x)
    ensures forall y :: 0 <= y < h && w > 0 ==> t[y][0] == t0[y][0]
  {
    t := t0;
    if w == 0 {
      return;
    }
    forall y | 0 <= y < h
      ensures RowDone(t[y][0], t0, y, 0)
    {
      assert RgbIsWords(t0[y][0]);
    }
    var x := 1;
    while x < w
      invariant 1 <= x <= w
      invariant IsGrid(t, w, h)
      invariant forall x' :: 0 <= x' < x ==> ColumnRowDone(t, t0, w, h, x')
      invariant forall y, x' :: 0 <= y < h && x <= x' < w ==> t[y][x'] == t0[y][x']
      invariant forall y :: 0 <= y < h ==> t[y][0] == t0[y][0]
    {
      var t' := RowScanColumn(t, t0, w, h, x);
      forall x' | 0 <= x' < x
        ensures ColumnRowDone(t', t0, w, h, x')
      {
        assert ColumnRowDone(t, t0, w, h, x');
      }
      t := t';
      x := x + 1;
    }
    forall y, x' | 0 <= y < h && 0 <= x' < w
      ensures RowDone(t[y][x'], t0, y, x')
    {
      assert ColumnRowDone(t, t0, w, h, x');
    }
  }

  /** The inner loop of the column pass for one row `y >= 1`. */
  method ColumnScanRow(t: seq<seq<Rgb>>, t0: seq<seq<Rgb>>, w: int, h: int, y: int)
    returns (t': seq<seq<Rgb>>)
    requires IsGrid(t, w, h) && IsGrid(t0, w, h) && 1 <= y < h && w >= 0
    requires RowColDone(t, t0, w, h, y - 1)
    requires t[y] == t0[y]
    ensures IsGrid(t', w, h)
    ensures RowColDone(t', t0, w, h, y)
    ensures forall y' :: 0 <= y' < h && y' != y ==> t'[y'] == t[y']
  {
    t' := t;
    for x := 0 to w
      invariant IsGrid(t', w, h)
      invariant forall x' :: 0 <= x' < x ==> ColDone(t'[y][x'], t0, y, x')
      invariant forall x' :: x <= x' < w ==> t'[y][x'] == t0[y][x']
      invariant forall y' :: 0 <= y' < h && y' != y ==> t'[y'] == t[y']
    {
      var sum := AddWrap(t'[y][x], t'[y - 1][x]);
      assert ColDone(t[y - 1][x], t0, y - 1, x);
      forall c: Channel
        ensures Chan(sum, c) == ColPrefix(t0, c, x, y) % U32
      {
        ModAdd(Chan(t0[y][x], c), ColPrefix(t0, c, x, y - 1), U32);
      }
      t' := t'[y := t'[y][x := sum]];
    }
  }

  /** Third pass (lines 172-184): for `y` from 1, in every column, add the
      cell above. Row 0 keeps its value. */
  method ColumnPass(t0: seq<seq<Rgb>>, w: int, h: int) returns (t: seq<seq<Rgb>>)
    requires w >= 0 && IsGrid(t0, w, h) && AllWords(t0)
    ensures IsGrid(t, w, h)
    ensures forall y, x :: 0 <= y < h && 0 <= x < w ==> ColDone(t[y][x], t0, y, x)
    ensures h > 0 ==> t[0] == t0[0]
  {
    t := t0;
    if h == 0 {
      return;
    }
    forall x | 0 <= x < w
      ensures ColDone(t[0][x], t0, 0, x)
    {
      assert RgbIsWords(t0[0][x]);
    }
    var y := 1;
    while y < h
      invariant 1 <= y <= h
      invariant IsGrid(t, w, h)
      invariant forall y' :: 0 <= y' < y ==> RowColDone(t, t0, w, h, y')
      invariant forall y' :: y <= y' < h ==> t[y'] == t0[y']
      invariant t[0] == t0[0]
    {
      var t' := ColumnScanRow(t, t0, w, h, y);
      forall y' | 0 <= y' < y
        ensures RowColDone(t', t0, w, h, y')
      {
        assert RowColDone(t, t0, w, h, y');
      }
      t := t';
      y := y + 1;
    }
    forall y', x | 0 <= y' < h && 0 <= x < w
      ensures ColDone(t[y'][x], t0, y', x)
    {
      assert RowColDone(t, t0, w, h, y');
    }
  }

  /** Column prefixes of row prefixes reduced modulo 2^32 are the 2-D
      prefixes reduced modulo 2^32: the row pass followed by the column
      pass computes the summed-area table. */
  lemma {:induction false} ColumnsOfRowPrefixes(s: seq<seq<Rgb>>, p: seq<seq<Rgb>>, w: int, h: int, c: Channel, x: int, y: int)
    requires IsGrid(s, w, h) && IsGrid(p, w, h) && 0 <= x < w && -1 <= y < h
    requires forall y', c': Channel :: 0 <= y' < h ==> Chan(s[y'][x], c') == RowPrefix(p, c', y', x) % U32
    ensures ColPrefix(s, c, x, y) % U32 == Prefix(p, c, x, y) % U32
    decreases y
  {
    if y >= 0 {
      ColumnsOfRowPrefixes(s, p, w, h, c, x, y - 1);
      var a, a' := ColPrefix(s, c, x, y - 1), Prefix(p, c, x, y - 1);
      var b := RowPrefix(p, c, y, x);
      calc {
        ColPrefix(s, c, x, y) % U32;
        (a + b % U32) % U32;
        { ModAdd(a, b, U32); }
        (a + b) % U32;
        { ModAdd(a, b, U32); ModAdd(a', b, U32); }
        (a' + b) % U32;
        { PrefixStep(p, c, x, y); }
        Prefix(p, c, x, y) % U32;
      }
    }
  }

  /** `SATEncoder::EncodeFrameCPU`: the result is the `uint32_t` summed-area
      table of the frame's RGB image. */
  method EncodeFrameCPU(f: Frame) returns (t: seq<seq<Rgb>>)
    requires WellFormed(f)
    ensures IsSatOf(t, Image(f), f.width, f.height)
  {
    var w, h := f.width, f.height;
    var p := Image(f);
    var widened := WidenPass(f);
    assert widened == p by {
      assert forall y :: 0 <= y < h ==> widened[y] == p[y];
    }
    var rows := RowPass(widened, w, h);
    forall y, x | 0 <= y < h && 0 <= x < w
      ensures RgbIsWords(rows[y][x])
    {
      assert RowDone(rows[y][x], widened, y, x);
      assert Chan(rows[y][x], 0) == rows[y][x].r;
      assert Chan(rows[y][x], 1) == rows[y][x].g;
      assert Chan(rows[y][x], 2) == rows[y][x].b;
    }
    t := ColumnPass(rows, w, h);
    forall y, x, c: Channel | 0 <= y < h && 0 <= x < w
      ensures Chan(t[y][x], c) == Prefix(p, c, x, y) % U32
    {
      assert ColDone(t[y][x], rows, y, x);
      forall y', c': Channel | 0 <= y' < h
        ensures Chan(rows[y'][x], c') == RowPrefix(p, c', y', x) % U32
      {
        assert RowDone(rows[y'][x], widened, y', x);
      }
      ColumnsOfRowPrefixes(rows, p, w, h, c, x, y);
    }
  }

  /** `f` with byte `k` of row `y` replaced by `v`. */
  function WithByte(f: Frame, y: int, k: int, v: int): (f': Frame)
    requires 0 <= y < |f.rows| && 0 <= k < |f.rows[y]|
  {
    f.(rows := f.rows[y := f.rows[y][k := v]])
  }

  /** Only the first three bytes of each pixel are read: overwriting an
      alpha byte (offset 3 or more within a pixel) or a padding byte past
      the last pixel leaves the image, hence the table, unchanged. */
  lemma PaddingIgnored(f: Frame, y: int, k: int, v: int)
    requires WellFormed(f) && BytesPerPixel(f) >= 3 && 0 <= y < f.height && 0 <= k < f.linesize
    requires k % BytesPerPixel(f) >= 3 || k >= f.width * BytesPerPixel(f)
    requires IsByte(v)
    ensures WellFormed(WithByte(f, y, k, v))
    ensures Image(WithByte(f, y, k, v)) == Image(f)
  {
    var f' := WithByte(f, y, k, v);
    var bpp := BytesPerPixel(f);
    assert f'.width == f.width && f'.linesize == f.linesize && BytesPerPixel(f') == bpp;
    assert WellFormed(f');
    var i, i' := Image(f), Image(f');
    forall y' | 0 <= y' < f.height
      ensures i[y'] == i'[y']
    {
      forall x | 0 <= x < f.width
        ensures i[y'][x] == i'[y'][x]
      {
        NotAChannelByte(x, bpp, f.width, k);
        PixelBytesInRow(f, x);
        var o := x * bpp;
        assert f'.rows[y'][o] == f.rows[y'][o];
        assert f'.rows[y'][o + 1] == f.rows[y'][o + 1];
        assert f'.rows[y'][o + 2] == f.rows[y'][o + 2];
      }
    }
  }

  lemma NotAChannelByte(x: int, bpp: int, w: int, k: int)
    requires 0 <= x < w && bpp >= 3 && (k % bpp >= 3 || k >= w * bpp)
    ensures k != x * bpp && k != x * bpp + 1 && k != x * bpp + 2
  {
    ModUnique(x * bpp, bpp, x, 0);
    ModUnique(x * bpp + 1, bpp, x, 1);
    ModUnique(x * bpp + 2, bpp, x, 2);
    MulMono(x, bpp, w - 1, bpp);
  }

  lemma MulMono(a: int, b: int, c: int, d: int)
    requires 0 <= a <= c && 0 <= b <= d
    ensures a * b <= c * d
  {
    assert a * b <= c * b;
    assert c * b <= c * d;
  }

  /** No `uint32_t` wrap-around for frames with `255 * W * H < 2^32`: the
      table then holds the exact prefix sums, each at most
      `255 * (x + 1) * (y + 1)`. */
  lemma SatExactWhenSmall(t: seq<seq<Rgb>>, p: seq<seq<Rgb>>, w: int, h: int)
    requires IsSatOf(t, p, w, h) && AllBytes(p) && 255 * (w * h) < U32
    ensures forall y, x, c: Channel :: 0 <= y < h && 0 <= x < w ==>
      Chan(t[y][x], c) == Prefix(p, c, x, y) <= 255 * ((x + 1) * (y + 1))
  {
    forall y, x, c: Channel | 0 <= y < h && 0 <= x < w
      ensures Chan(t[y][x], c) == Prefix(p, c, x, y) <= 255 * ((x + 1) * (y + 1))
    {
      BoxSumBytes(p, c, -1, x, -1, y);
      MulMono(x + 1, y + 1, w, h);
    }
  }

  /** Under the same bound the table is non-decreasing along each axis. */
  lemma SatMonotoneWhenSmall(t: seq<seq<Rgb>>, p: seq<seq<Rgb>>, w: int, h: int,
                             x: int, y: int, x': int, y': int)
    requires IsSatOf(t, p, w, h) && AllBytes(p) && 255 * (w * h) < U32
    requires 0 <= x <= x' < w && 0 <= y <= y' < h
    ensures forall c: Channel :: Chan(t[y][x], c) <= Chan(t[y'][x'], c)
  {
    SatExactWhenSmall(t, p, w, h);
    forall c: Channel
      ensures Chan(t[y][x], c) <= Chan(t[y'][x'], c)
    {
      PrefixMonotone(p, c, x, y, x', y');
    }
  }

  /** The corner cell is the corner pixel, and the first row and first
      column are one-dimensional prefix sums. */
  lemma SatEdges(t: seq<seq<Rgb>>, p: seq<seq<Rgb>>, w: int, h: int)
    requires IsSatOf(t, p, w, h) && AllBytes(p)
    ensures w > 0 && h > 0 ==> t[0][0] == p[0][0]
    ensures forall x, c: Channel :: 0 <= x < w && h > 0 ==>
      Chan(t[0][x], c) == RowPrefix(p, c, 0, x) % U32
    ensures forall y, c: Channel :: 0 <= y < h && w > 0 ==>
      Chan(t[y][0], c) == ColPrefix(p, c, 0, y) % U32
  {
    forall y, c: Channel | 0 <= y < h && w > 0
      ensures Chan(t[y][0], c) == ColPrefix(p, c, 0, y) % U32
    {
      FirstColumnPrefix(p, c, y);
    }
    if w > 0 && h > 0 {
      var a, b := t[0][0], p[0][0];
      assert RgbIsBytes(b);
      assert Chan(a, 0) == Chan(b, 0) && Chan(a, 1) == Chan(b, 1) && Chan(a, 2) == Chan(b, 2);
    }
  }

  lemma {:induction false} FirstColumnPrefix(p: seq<seq<Rgb>>, c: Channel, y: int)
    requires -1 <= y < |p| && RowsReach(p, 0)
    ensures Prefix(p, c, 0, y) == ColPrefix(p, c, 0, y)
    decreases y
  {
    if y >= 0 {
      FirstColumnPrefix(p, c, y - 1);
    }
  }
}
