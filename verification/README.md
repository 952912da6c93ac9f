# Foveated 360° video: the CPU SAT foveation path, in Dafny

This project models the CPU reference path of the summed-area-table (SAT) foveation pipeline of
foveated-360-video, together with the small helpers around it, and proves what that code promises.

- **`SatEncoder`** (`EncodeFrameCPU`) widens an RGB(A) frame to 32-bit channels. It then prefix-sums
  every row and then every column, with `uint32_t` wrap-around written out.
- **`SatDecoder`**:
  - `DecodeFrameCPU` recovers the pixels from the table.
  - `SampleFrameRectCPU` averages a warped box `(x_minus, x] × (y_minus, y]` for every cell of the
    small sample buffer, using four table lookups.
- **`Warp`** is the separable foveation warp `delta(u) = sign(u)·max(|u|, G(|u|))`. `G` (built from
  `exp`/`pow`) stays an arbitrary `nat → nat`.
- **`RectInterpolation`** is the inverse direction that `SATDecoder` and `ImageSampler` both carry:
  - `ExpandSampledFrameRectCPU` scatters the samples back;
  - `InterpolateFrameRectCPU` estimates, falls back, brackets, collapses and blends.
- **`ImageSampler`** holds what only that class has:
  - the point sampler;
  - the integer index logic of `InterpolateFrameLogPolarCPU`, with its trigonometry left abstract.
- **`GridCache`** holds the `InitializeGrid` / `InitializeLogpolarGrid` / `FreeClResources` cache rules
  of both classes. The GPU work they guard is not part of the model.
- **`Helpers`** holds `ROUND_UP_TO`, `clamp` and `lerp` from the headers.
- **`SatSums`** holds the reference sums the table is measured against: row spans, boxes and prefixes.
- **`ByteFifo`** holds the client's receive FIFO (`on_message` append, `ReadPacket`) and the server's
  muxer buffer (`WritePacket`).
- **`VideoClient`** holds:
  - `GazeToIndex`;
  - the de-duplicated gaze requests and their packet counter;
  - the 256-frame counter;
  - the `TryOpenInput` gate.
- **`VideoServer`** holds:
  - session ids;
  - `videoRequest` handling;
  - the sent frame number;
  - the metadata queue discipline.
- **`GazeViewPoints`** is the gaze-log reader, with the predicted-point rule.
- **`SaveFrame`** is the `.png` suffix rule of `SaveFramePNG` / `LoadFramePNG`.
- **`MakeGnomonic`** covers `main`'s extension dispatch and the argument guards of its two tools.
- **`OpenClErrors`** is the `GetCLErrorString` table.

The model has these conventions:

- Images and tables are `seq<seq<Rgb>>` indexed `[y][x]`.
- Floats are `real`. A float-to-`int` cast is truncation toward zero (`Trunc`).
- Anything the source computes with `exp`, `pow`, `log`, `atan`, `regex` or `stof` is a function
  parameter, so every property holds for all such functions.
- Reads the C++ does without a bounds check return `Option` (`None` for an out-of-range read). The
  alternative would be a precondition stronger than the source's.
- The model follows the code. Where the code contradicts itself or its evident intent, both the
  version as written and the corrected one are modelled (see "## Findings"). For example, the grid
  cache as written is keyed by the byte size of the target lattice only (sat_decoder.cc:139-149),
  and a keyed variant rebuilds on any change of dimensions.

## Model

| member | source | states |
|---|---|---|
| Warp.Magnitude | src/sat_decoder.cc:429-450 | the warped magnitude is at least both `|u|` and `G(|u|)`, and is one of the two |
| Warp.DeltaProperties | src/sat_decoder.cc:429-450 | for every magnitude term `G`: the warp fixes 0, keeps the sign of `u`, never shrinks `|u|` and is odd |
| Warp.DeltaMonotone | src/sat_decoder.cc:429-450 | for a non-decreasing `G` the warp is monotone, so a cell's minus neighbour never lands beyond the cell |
| Helpers.RoundUpToIsLeastMultiple | src/image_sampler.h:20-21 | `ROUND_UP_TO(x, y)` is a multiple of `y`, at least `x`, and less than `x + y`: the least such multiple |
| Helpers.RoundUpToExample | src/image_sampler.h:20 | the documented example `ROUND_UP_TO(5, 8) == 8` holds |
| Helpers.Clamp | src/sat_decoder.h:41 | for `b <= c` the result lies in `[b, c]`; it is `a` inside the range and the nearer bound outside it (same helper at image_sampler.h:50) |
| Helpers.LerpEndpoints | src/sat_decoder.h:42 | `lerp` gives `a` at weight 0 and `b` at weight 1 |
| Helpers.LerpBetween | src/image_sampler.h:51 | for a weight in [0, 1] the result lies between the two endpoints, whichever is larger |
| Helpers.LerpSame | src/sat_decoder.h:42 | blending a value with itself gives it back, whatever the weight |
| SatSums.BoxFromPrefixes | src/sat_decoder.cc:461-487 | the sum over any box `(x0, x1] × (y0, y1]` is the four-prefix combination the decoder evaluates |
| SatSums.BoxSumBytes | src/sat_decoder.cc:471-519 | a box of 8-bit pixels sums to between 0 and 255 times its area |
| SatSums.BoxSumUniform | src/sat_decoder.cc:471-519 | a box of a single-colour channel sums to the colour times its area |
| SatSums.PrefixMonotone | src/sat_encoder.cc:150-184 | the exact prefix sums of 8-bit pixels never decrease along either axis |
| SatEncoder.Image | src/sat_encoder.cc:146-156 | pixel `x` of row `y` is the first three bytes at `x * bytes_per_pixel`; the result is a W×H grid of 8-bit triples |
| SatEncoder.PaddingIgnored | src/sat_encoder.cc:146-156 | changing a 4th byte of a pixel or a padding byte past `W * bytes_per_pixel` leaves the decoded image unchanged |
| SatEncoder.WidenPass | src/sat_encoder.cc:146-156 | after the widen pass every cell holds exactly the three 8-bit channels of its pixel |
| SatEncoder.AddWrap | src/sat_encoder.cc:158-184 | each channel of a table addition is the sum modulo 2^32, and stays a 32-bit word |
| SatEncoder.RowScanColumn | src/sat_encoder.cc:160-169 | one column step of the row pass extends every row's prefix sum by one cell and touches no other column |
| SatEncoder.RowPass | src/sat_encoder.cc:158-170 | after the row pass every cell holds its row's prefix sum mod 2^32, and column 0 is unchanged |
| SatEncoder.ColumnScanRow | src/sat_encoder.cc:174-183 | one row step of the column pass extends every column's running sum by one row and touches no other row |
| SatEncoder.ColumnPass | src/sat_encoder.cc:172-184 | after the column pass every cell holds its column's running sum mod 2^32, and row 0 is unchanged |
| SatEncoder.ColumnsOfRowPrefixes | src/sat_encoder.cc:172-184 | column-summing the row prefixes gives the 2-D prefix sum modulo 2^32 |
| SatEncoder.EncodeFrameCPU | src/sat_encoder.cc:137-185 | the output is the summed-area table of the frame's image: every cell is its 2-D prefix sum mod 2^32 |
| SatEncoder.SatExactWhenSmall | src/sat_encoder.cc:150-184 | when `255·W·H < 2^32` nothing wraps: every cell is the exact prefix sum, at most `255·(x+1)·(y+1)` |
| SatEncoder.SatMonotoneWhenSmall | src/sat_encoder.cc:150-184 | under the same bound the table is non-decreasing along both axes |
| SatEncoder.SatEdges | src/sat_encoder.cc:158-184 | cell (0,0) is pixel (0,0); row 0 and column 0 are 1-D prefix sums |
| SatDecoder.EncoderLayoutInjective | src/sat_encoder.cc:141-149 | the encoder's output layout with line size `3·W` maps cells one-to-one into `[0, 3·W·H)` |
| SatDecoder.FlattenAt | src/sat_encoder.cc:141-149 | in the flat output, channel `c` of cell `(x, y)` sits at `y·3W + 3x + c`, independent of the input line size |
| SatDecoder.DecodeChannel | src/sat_decoder.cc:235-296 | each decoded channel is a byte, on all four branches (interior, top row, left column, origin) |
| SatDecoder.SatReadIsPrefix | src/sat_decoder.cc:235-296 | a table read, with row or column -1 read as 0, is the prefix sum modulo 2^32 |
| SatDecoder.TableBox | src/sat_decoder.cc:461-487 | the four-lookup expression equals the box sum modulo 2^32, even when the table has wrapped |
| SatDecoder.DecodeChannelRoundTrip | src/sat_decoder.cc:224-297 | decoding a channel of the table of an 8-bit image gives that image's channel back |
| SatDecoder.DecodeRoundTrip | src/sat_decoder.cc:224-297 | decoding a pixel of an encoded 8-bit image gives back exactly the original pixel |
| SatDecoder.DecodeFrameCPU | src/sat_decoder.cc:212-299 | the output is an 8-bit W×H image, and when the input is the table of an 8-bit image it is that image |
| SatDecoder.ClampMinus | src/sat_decoder.cc:458-459 | the clamped minus neighbour lies in `[0, p)` for `p > 0`, is -1 for `p == 0`, and is unchanged when already in range |
| SatDecoder.Area | src/sat_decoder.cc:470 | every box divisor (`rectangle_size`) is at least 1, so no branch divides by zero |
| SatDecoder.SampleChannel | src/sat_decoder.cc:461-524 | every sampled channel is a byte |
| SatDecoder.SampleBox | src/sat_decoder.cc:451-459 | a cell yields a box exactly when its warped position is inside the source, and the box is non-empty with `-1 <= x_minus < x` |
| SatDecoder.SampleCell | src/sat_decoder.cc:451-524 | a sample is written exactly when the warped position is inside the source, and it is an 8-bit colour |
| SatDecoder.SampleFrameRectCPU | src/sat_decoder.cc:400-532 | cells whose warped position is in range get the sample of their box; all others keep the target's value |
| SatDecoder.SampleIsBoxAverage | src/sat_decoder.cc:461-524 | on every branch the sample is the box sum (mod 2^32) divided by the box area, stored as a byte |
| SatDecoder.SampleIsExactMean | src/sat_decoder.cc:471-519 | for an 8-bit image with `255·area < 2^32` the sample is the exact floor mean of the box, in 0..255 |
| SatDecoder.SampleOfUniform | src/sat_decoder.cc:471-519 | a single-colour image samples to that colour on every branch |
| SatDecoder.SampleCellIsMean | src/sat_decoder.cc:451-524 | every written sample of an encoded 8-bit image is the floor mean of its box |
| SatDecoder.StrideMismatch | src/sat_decoder.cc:407-408 | below row 0 the sampler's offset `y·4W + 3x + c` overshoots the encoder's by `y·W` values |
| SatDecoder.StrideMismatchExample | src/sat_decoder.cc:407-408 | on a 1×2 image the flat read as written gives red 12 for the bottom pixel, whose red is 1; the grid model gives 1 |
| RectInterpolation.LastHit | src/sat_decoder.cc:577-616 | the last sample index landing on a pixel: it lands there, no later one does, and `None` iff none does |
| RectInterpolation.ScatterColumn | src/sat_decoder.cc:578-614 | scattering sample column `i` extends the result to the first `i + 1` columns |
| RectInterpolation.ExpandSampledFrameRectCPU | src/sat_decoder.cc:555-616 | each pixel hit by the scatter holds the last sample landing there, channels unchanged; every other pixel keeps its value |
| RectInterpolation.Estimate | src/sat_decoder.cc:647-661 | after the fallback the estimate has the sign of the pixel's offset, never exceeds it, and is 0 only at the centre |
| RectInterpolation.Ratio | src/sat_decoder.cc:737-744 | the blend weight lies in [0, 1], is 0 for a one-pixel span, and saturates outside the span |
| RectInterpolation.RatioInSpan | src/sat_decoder.cc:737-744 | inside a span of several pixels the weight is the pixel's exact relative position |
| RectInterpolation.AxisBracket | src/sat_decoder.cc:662-744 | exact hit iff the forward warp reproduces the offset; `minPos <= maxPos`; the collapsed bounds satisfy `lo <= hi <= lo + 1` and stay within one of `u`; weight in [0, 1] |
| RectInterpolation.BracketSpan | src/sat_decoder.cc:681-710 | for a non-decreasing magnitude term that is 0 at 0, the span `[min_x, max_x]` runs from the landing of the lower candidate sample to that of the upper one, although the neighbour's offset is computed with the sign of `u` |
| RectInterpolation.BracketKeepsInFrame | src/sat_decoder.cc:681-723 | under the same conditions the collapse keeps exactly the candidates that land inside the frame whenever one does, and replaces a candidate landing outside by the other one |
| RectInterpolation.CentreIsHit | src/sat_decoder.cc:642-678 | the pixel at the foveation centre is an exact hit of sample offset 0 |
| RectInterpolation.Read | src/sat_decoder.cc:673-735 | a read succeeds exactly when the flat offset `j·W + i` lies inside the packed buffer; an in-range `(i, j)` gives its own cell, and any successful read gives some cell of the buffer |
| RectInterpolation.ColumnOverrunReadsNextRow | src/sat_decoder.cc:724-735 | a column index up to one row length past the right edge reads the next row's sample, as the flat offset does, instead of failing |
| RectInterpolation.Blend | src/sat_decoder.cc:745-769 | every channel of the blend is the two-stage lerp of the same channel of the four corners |
| RectInterpolation.InterpolateFrameRectCPU | src/sat_decoder.cc:618-772 | every pixel gets its interpolated colour, column overruns reading the neighbouring row; a pixel whose flat read offset leaves the sample buffer keeps its value |
| RectInterpolation.InterpolateColumn | src/sat_decoder.cc:641-770 | interpolating pixel column `x` extends the result to the first `x + 1` columns |
| RectInterpolation.BlendChannelIsByte | src/sat_decoder.cc:745-769 | blending four bytes with weights in [0, 1] gives a byte, so the 8-bit store never wraps |
| RectInterpolation.BlendChannelUniform | src/sat_decoder.cc:745-769 | four equal samples blend to that sample under any weights |
| RectInterpolation.BlendChannelAtZero | src/sat_decoder.cc:745-769 | with both weights 0 the blend is the top-left sample |
| RectInterpolation.InterpolatedIsBytes | src/image_sampler.cc:417-529 | every interpolated colour of an 8-bit sample buffer is 8-bit |
| RectInterpolation.InterpolateOfUniform | src/image_sampler.cc:417-529 | a single-colour sample buffer interpolates to that colour wherever the reads stay inside it |
| RectInterpolation.FoveaCopiesMiddleSample | src/sat_decoder.cc:672-678 | the pixel of the foveation centre copies the middle sample `(W/2, H/2)` |
| RectInterpolation.HitIsScatterTarget | src/image_sampler.cc:363-373 | on an exact hit the scatter places sample `u + W/2` on that pixel, so interpolation and expansion agree |
| ImageSampler.Narrow | src/image_sampler.cc:302-306 | the 8-bit store yields bytes and leaves byte values unchanged |
| ImageSampler.SampleFrameRectCPU | src/image_sampler.cc:260-314 | given in-range positions, as the source needs, cell `(i, j)` holds the source pixel its warped position lands on |
| ImageSampler.SampleThenExpand | src/image_sampler.cc:363-373 | point-sampling and then scattering restores every 8-bit pixel the scatter hits |
| ImageSampler.Round | src/image_sampler.cc:661 | `round` is within one half of its argument |
| ImageSampler.Ceil | src/image_sampler.cc:694-695 | `ceil` is the least integer not below its argument |
| ImageSampler.FMod | src/image_sampler.cc:666 | `fmod` lies strictly within one divisor of 0, and is non-negative for a non-negative dividend |
| ImageSampler.ClampIndex | src/image_sampler.cc:661-671 | the clamped index lies in `[0, n)`, is the index itself when in range, and the nearer end otherwise |
| ImageSampler.PolarIndices | src/image_sampler.cc:654-695 | the radial indices lie in `[0, W)` with `max_i <= min_i + 1`; the angular ones lie in `[0, H)`, `max_j` is `min_j` or `min_j + 1` mod H; radius 0 gives index 0 with no blend |
| ImageSampler.AngleCoord | src/image_sampler.cc:662-670 | the angular coordinate lies in `(-H, H)`, and in `[0, H)` on the vertical through the centre |
| ImageSampler.InterpolateFrameLogPolarCPU | src/image_sampler.cc:626-736 | every pixel of the target frame gets its log-polar colour |
| ImageSampler.LogPolarColumn | src/image_sampler.cc:648-734 | one pass of the inner loop gives every pixel of column `x` its log-polar colour and changes no other column |
| ImageSampler.CentreReadsFirstColumn | src/image_sampler.cc:654-661 | the centre pixel reads radial index 0 with no radial blending |
| ImageSampler.LogPolarIsBytes | src/image_sampler.cc:683-733 | every log-polar colour of an 8-bit buffer is 8-bit, and every read is inside the buffer |
| ImageSampler.LogPolarOfUniform | src/image_sampler.cc:683-733 | a single-colour buffer interpolates to that colour everywhere |
| GridCache.FreshDecoder | src/sat_decoder.h:34 | a new decoder has a negative size, "no grid" |
| GridCache.DecoderInitializeGrid | src/sat_decoder.cc:139-149 | a grid is built exactly when the cached `int64_t` size, converted to `size_t`, differs from the lattice byte size; a build stores that size and no build leaves the state unchanged |
| GridCache.FreeClResources | src/sat_decoder.cc:130-137 | with OpenCL in use a positive size is reset to "no grid"; otherwise nothing changes |
| GridCache.KeyIsNotMinusOne | src/sat_decoder.cc:139-149 | no lattice byte size equals `-1` converted to `size_t` |
| GridCache.FreshDecoderBuilds | src/sat_decoder.h:34 | the first `InitializeGrid` of a new decoder always builds |
| GridCache.FreeThenInitializeBuilds | src/sat_decoder.cc:130-149 | after a release, the next `InitializeGrid` always builds |
| GridCache.DecoderInitializeIdempotent | src/sat_decoder.cc:139-149 | repeating `InitializeGrid` for the same target is a no-op, even with other source dimensions |
| GridCache.StaleGridExample | src/sat_decoder.cc:139-149 | a 1×3 target after a 3×1 one reuses the 3×1 grid, because the key is the byte size |
| GridCache.KeyedInitializeGrid | src/sat_decoder.cc:139-149 | keyed on all four dimensions: rebuilds exactly when they change, and afterwards holds them |
| GridCache.KeyedGridNotStale | src/sat_decoder.cc:139-149 | the keyed cache rebuilds on the 3×1 then 1×3 sequence |
| GridCache.FreshSampler | src/image_sampler.h:45-47 | a new sampler has both grid sizes 0 |
| GridCache.SamplerInitializeGrid | src/image_sampler.cc:128-138 | the rect grid is rebuilt exactly when the `size_t` byte size differs from the cached one, and then stores it; no rebuild leaves the state unchanged; the log-polar size is untouched |
| GridCache.SamplerInitializeLogpolarGrid | src/image_sampler.cc:162-172 | the log-polar grid is rebuilt exactly when the byte size differs from `logpolar_grid_size`, and then stores it; the rect size is untouched |
| GridCache.SamplerInitializeIdempotent | src/image_sampler.cc:128-172 | repeating either initialisation with the same target is a no-op |
| GridCache.RectGuardNeverFires | src/image_sampler.cc:219 | as written, the `grid_size == -1` guard builds nothing for a new sampler or after any `InitializeGrid` |
| GridCache.SampleLogpolarGpu | src/image_sampler.cc:546 | the `<= 0` guard builds the log-polar grid exactly when none is cached |
| GridCache.SampleRectGpu | src/image_sampler.cc:219 | the corrected guard builds the rect grid exactly when none is cached |
| GridCache.FreshSamplerBuildsGrid | src/image_sampler.h:45-47 | with the corrected guard, the first GPU sample of a new sampler builds both grids |
| ByteFifo.Append | src/video_client.cc:94-105 | a payload that does not fit fails (the process exits); otherwise it is queued after the existing bytes, which are preserved |
| ByteFifo.Dequeue | src/video_client.cc:148-165 | reference for a read: it takes `min(buf_size, bytesSet)` bytes from the front, and those bytes followed by what remains are the old queue |
| ByteFifo.ReadPacket | src/video_client.cc:148-165 | returns `min(buf_size, bytesSet)`; copies exactly the first `n` queued bytes and leaves the rest of `buf` alone; the FIFO becomes the reference's remainder |
| ByteFifo.CopyFront | src/video_client.cc:152 | the first `n` bytes of `buf` become the first `n` queued bytes and the rest of `buf` is untouched |
| ByteFifo.MoveDown | src/video_client.cc:153-157 | the bytes after the first `n` queued ones move to the front of the storage, overlap included, and the storage beyond them keeps its old contents |
| ByteFifo.RunClient | src/video_client.cc:94-165 | a run of appends and reads keeps the FIFO well-formed and its capacity fixed |
| ByteFifo.FifoOrder | src/video_client.cc:101-158 | the bytes delivered by the reads, followed by what is still queued, are the initial queue followed by every payload, in arrival order |
| ByteFifo.FreshServer | src/video_server.cc:244-247 | the server buffer starts empty with `maxSize = 1000000` |
| ByteFifo.WritePacket | src/video_server.cc:187-195 | accepts iff `buf_size + bytesSet < maxSize`: returns `buf_size` and appends after the pending bytes; otherwise returns 0 and leaves the buffer; `bytesSet < maxSize` is preserved |
| ByteFifo.Sent | src/video_server.cc:403-407 | after a successful send nothing is pending |
| ByteFifo.ServerTrace | src/video_server.cc:187-195 | the content-level trace keeps fewer than 1000000 bytes pending and only ever adds messages |
| ByteFifo.ServeEvents | src/video_server.cc:244-281 | from a fresh buffer the messages sent and bytes left are the content-level trace's; every message is under 1000000 bytes |
| VideoClient.GazeCell | src/video_client.cc:435-436 | a clamped coordinate's cell lies in [0, 10000] |
| VideoClient.GazeToIndex | src/video_client.cc:434-438 | the index lies in [0, 100010000] |
| VideoClient.IndexDeterminesCells | src/video_client.cc:434-438 | away from the right edge, two positions share an index iff they share both cells |
| VideoClient.GazeToIndexCollisions | src/video_client.cc:434-438 | the index is not injective: (1,0) and (0,0.0001) both give 10000, and (-1,-1) and (0,0) both give 0 |
| VideoClient.FreshGaze | src/video_client.h:57-79 | the counter starts at 0 and the last sent position is the negative (-1, -1) marker, outside the frame |
| VideoClient.UpdateGazePosition | src/video_client.cc:125-146 | no request iff both coordinates are within 1e-5 of the last sent position; a request carries the counter, which goes up by one; the position is recorded only when the send returns |
| VideoClient.RunGaze | src/video_client.cc:125-146 | over many calls the counter grows by exactly the number of requests built |
| VideoClient.PacketNumbersConsecutive | src/video_client.cc:139 | the k-th request built carries the starting counter plus k, even when earlier sends threw |
| VideoClient.NextFrameNum | src/video_client.cc:289-290 | the next frame number lies in [0, 256), inside the 2048-entry `gaze_vec` |
| VideoClient.FrameNumAfter | src/video_client.cc:274-290 | the counter always lies in [0, 256) |
| VideoClient.FrameNumIsCount | src/video_client.cc:274-290 | after k decoded frames the counter is `k mod 256`, so the first decoded frame reads slot 1 |
| VideoClient.TryOpenInput | src/video_client.cc:167-181 | opens iff at least 5000 bytes are buffered, nothing is open yet and the I/O context exists; below 5000 bytes it does nothing |
| VideoClient.OpensAtMostOnce | src/video_client.cc:167-181 | over any run the demuxer opens at most once; never if already open; exactly once iff a context exists and some call saw 5000 bytes |
| VideoServer.FreshServer | src/video_server.cc:16 | session ids start at 1 with no connections |
| VideoServer.OnOpen | src/video_server.cc:21-43 | the new connection gets the next session id and the counter goes up by one; other connections are untouched |
| VideoServer.SessionIdsCount | src/video_server.cc:21-43 | distinct connections opened in order get consecutive ids from the counter, and the counter advances by their number |
| VideoServer.FreshSessionIds | src/video_server.cc:16-43 | from a fresh server the i-th connection opened gets id `i + 1` |
| VideoServer.InitializeConnectionData | src/video_server.cc:45-86 | a request is ignored when the connection already streams or the file is missing; otherwise it streams `1080p_videos/<name>.mp4` |
| VideoServer.OnVideoRequest | src/video_server.cc:132-143 | a request on an unknown connection fails (the lookup throws); otherwise only that connection may change |
| VideoServer.FirstAvailable | src/video_server.cc:53-61 | the first request whose file exists, or none when no file exists |
| VideoServer.StreamsFirstAvailable | src/video_server.cc:45-61 | a connection streams the first requested video that exists; later requests are ignored |
| VideoServer.StaysInitialised | src/video_server.cc:49-52 | a connection that already streams ignores every further request |
| VideoServer.NextSentFrameNumber | src/video_server.cc:400-401 | the sent frame number stays in [0, 256) and wraps from 255 to 0 |
| VideoServer.SentFrameNumber | src/video_server.cc:285-286 | the sent frame number always lies in [0, 256) |
| VideoServer.SentFrameNumberIsCount | src/video_server.cc:400-401 | the k-th frame sent is numbered `k mod 256` |
| VideoServer.MetadataStep | src/video_server.cc:353-380 | each iteration pushes the current centre; a packet pops and reports the oldest pending centre; a failure reports the current centre and pops nothing |
| VideoServer.RunMetadata | src/video_server.cc:353-380 | one report per iteration |
| VideoServer.MetadataFifo | src/video_server.cc:353-380 | the popped centres, followed by what is still queued, are the initial queue followed by every pushed centre: FIFO order |
| VideoServer.MetadataBacklog | src/video_server.cc:375-380 | the queue grows by exactly the number of iterations without a packet |
| VideoServer.AllPacketsReportCurrent | src/video_server.cc:353-380 | when every iteration gets a packet, each report carries that iteration's own centre and the queue ends empty |
| GazeViewPoints.Matches | src/gaze_view_points.cc:6-14 | reference filter: at most one record per line |
| GazeViewPoints.Predicted | src/gaze_view_points.cc:21-31 | a point carries its record and predicts the given record's view and gaze |
| GazeViewPoints.ReadGazeViewPoints | src/gaze_view_points.cc:3-38 | an unopenable file gives no points; otherwise one point per matching line in file order; the first point predicts itself and every later point the previous one |
| GazeViewPoints.MatchesAppend | src/gaze_view_points.cc:6-32 | the records of two pieces of a log are those of the first followed by those of the second |
| GazeViewPoints.OneLine | src/gaze_view_points.cc:12-32 | a non-matching line contributes nothing and a matching line exactly its record |
| SaveFrame.NormalizePngPath | src/save_frame.h:15-19 | fails iff the path is shorter than 4; the result ends in ".png" and extends the path; unchanged iff it already ends in ".png", else 4 longer |
| SaveFrame.NormalizeIdempotent | src/save_frame.h:80-82 | normalising twice is normalising once, so `LoadFramePNG` reads the file `SaveFramePNG` wrote |
| MakeGnomonic.LastDot | src/make_gnomonic.cc:48 | the position found holds the last '.', and `None` means the name has no '.' |
| MakeGnomonic.LastDotUnique | src/make_gnomonic.cc:48 | any '.' with no '.' after it is the one found |
| MakeGnomonic.ExtensionIsDotFreeTail | src/make_gnomonic.cc:48 | the extension has no '.'; without a '.' it is the whole name, otherwise it is the tail after the last '.' |
| MakeGnomonic.MakeGnomonicImage | src/make_gnomonic.cc:64-84 | fails iff there are fewer than 3 arguments; the centre defaults to (0.5, 0.5) below 5 arguments; from 5 it is parsed, and the run aborts iff a parse fails |
| MakeGnomonic.MakeGnomonicVideo | src/make_gnomonic.cc:145-163 | fails iff there are at most 3 arguments; otherwise source, gaze file and output are arguments 1-3 |
| MakeGnomonic.MainJob | src/make_gnomonic.cc:44-56 | fewer than 2 arguments fail; a video job iff the extension is "mp4" with enough arguments; an image job only for "png"; any other extension fails |
| MakeGnomonic.DispatchExamples | src/make_gnomonic.cc:48-55 | "a.png.mp4" and a bare "mp4" dispatch to video, "a.mp4.png" to image at (0.5, 0.5), and "a.jpg" fails |
| OpenClErrors.RuntimeRoundTrip | src/opencl_manager.cc:72-112 | every run-time code 0..-19 is recovered from its name |
| OpenClErrors.CompileTimeRoundTrip | src/opencl_manager.cc:114-192 | every compile-time code -30..-68 is recovered from its name |
| OpenClErrors.ExtensionRoundTrip | src/opencl_manager.cc:194-206 | every extension code -1000..-1005 is recovered from its name |
| OpenClErrors.RoundTrip | src/opencl_manager.cc:69-208 | every listed code is recovered from its name |
| OpenClErrors.NamesInjective | src/opencl_manager.cc:73-206 | no two listed codes share a name |
| OpenClErrors.UnknownIffUnlisted | src/opencl_manager.cc:207-208 | a code maps to "Unknown OpenCL error" iff it is not listed (e.g. -20..-29 and every positive code) |

## Left out

- OpenCL and GPU work is not modelled: kernels, `*GPU` methods, reduced SATs, program builds, `InitializeContext`. The `.cl` sources are not part of this model. Only the grid-cache decisions that guard this work are modelled.
- The video encoder and decoder wrappers (FFmpeg/NVENC) are not modelled. Neither is the gnomonic projection, which exists only as a GPU kernel. Neither are the Eigen SVD tool, the CLI drivers or the SDL/GL rendering.
- Websocket, thread and mutex plumbing is not modelled. This covers `HandleTextMessage`, `HandleFrameRequest`, `DestroyConnectionData` and `on_close`, and the client's timing maps (`sent_time`/`recv_time`). A send's success is a boolean parameter.
- The PNG encode and decode in save_frame.h are I/O and are not modelled. Only the file-name rule is.
- The values of `exp`, `pow`, `log`, `sqrt`, `atan`, `cos`, `sin` are not modelled. The warp magnitude `G`, the inverse estimate and the log-polar coordinates are arbitrary functions, so the results hold for all of them.
- `regex_search`, `stoul` and `stof` are not modelled. They are parameters (`parse`, `stof`) returning `None` on a mismatch or an exception. For the gaze log, a `stoul` or `stof` exception (for example an out-of-range capture such as `1e50`) escapes the C++ constructor, because gaze_view_points.cc:16-20 has no `try`. The model does not model this: `parse` returns `None` and the line is skipped. In `MakeGnomonicImage` the same exception is modelled as an abort.
- Floats are modelled as exact reals. Rounding of `float` arithmetic is not modelled; for example, `GazeToIndex` multiplies a `float` by 10000 before the cast.
- The flat byte layout of frames is not modelled beyond the stride finding. Frames are `[y][x]` grids. The encoder's input keeps its line size and bytes per pixel.
- Integer overflow of counters is not modelled: `nextPacketNumber`, `m_next_sessionid` and the `int` products of the grid key. They are unbounded.
- A read past the sample buffer, which the C++ does not check, is not modelled as a value. It gives `None`, and the pixel keeps its previous value. A column index outside a row but inside the buffer is modelled: it reads the neighbouring row, as the flat offset does.
- The interpolator's sample buffer is taken as packed: its line size is `W` times the pixel size. With row padding, a column overrun would read padding instead of the next row.
- The log-polar forward test is not modelled: `calculated_x_pos == x_pos` uses `exp`/`cos`/`sin`. It is a parameter of `PolarTrig`. `ExpandSampledFrameLogPolarCPU` is not modelled either, since it is all float trigonometry.
- make_gnomonic.cc:208 reads `points[frame]` without a bounds check. This is not modelled, because the video tool's body is GPU work.
- The "already initialised" test of `InitializeConnectionData` is a proxy: the source checks `data->thread != NULL`, and the model checks whether a video is being streamed.
- OpenClErrors.CodeOf: only the round trip from a listed code is stated. No property is stated for a name that is not in the table.
- ImageSampler.SampleFrameRectCPU: it requires every warped position to be inside the source, because the source reads it without a check. An out-of-range position is undefined behaviour there.
- SaveFrame.NormalizePngPath: a path shorter than 4 characters gives `None`, which stands for the `std::out_of_range` thrown by `compare`.

## Findings

| source | as written | input that shows it | evidently intended | confidence | as-written member | corrected member |
|---|---|---|---|---|---|---|
| src/sat_decoder.cc:407-408 | `SampleFrameRectCPU` indexes the table with line size `4·W` and 3 values per pixel. The encoder writes line size `3·W` (sat_encoder.cc:143-144). | a 1×2 image with pixels (10,20,30) over (1,2,3): the bottom pixel's red samples as 22 − 10 = 12 | read cell `(x, y)` at `y·3W + 3x + c`, so a sample is the box mean of the source | not executed | SatDecoder.StrideMismatchExample | SatDecoder.SampleIsBoxAverage |
| src/sat_decoder.cc:139-149 | the grid cache key is the lattice byte size `(tw+1)(th+1)·4` only | a 3×1 target then a 1×3 target: both have key 32, so the second reuses the first grid | rebuild whenever a target or source dimension changes | not executed | GridCache.StaleGridExample | GridCache.KeyedGridNotStale |
| src/image_sampler.cc:219 | `if (grid_size == -1)` on a `size_t` that starts at 0 | a new sampler: the guard is false, so the first `SampleFrameRectGPU` runs with no grid | build when no grid is cached, as the log-polar path's `<= 0` test does | not executed | GridCache.RectGuardNeverFires | GridCache.FreshSamplerBuildsGrid |
