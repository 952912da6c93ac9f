/** The grid caches of `SATDecoder` and `ImageSampler`. Building a grid is
    GPU work and is left out; what is modelled is when a build happens.
    `InitializeGrid` computes the byte size `(tw + 1) * (th + 1) *
    sizeof(int16_t) * 2` of the target lattice and rebuilds only when it
    differs from the cached size, so the size is the whole cache key.
    `SATDecoder` keeps the size in an `int64_t` that starts at -1 and is
    compared with a `size_t`; `ImageSampler` keeps two `size_t` sizes that
    start at 0. */
module GridCache {

  import opened Common

  /** 2^64: the modulus of `size_t` and of an `int64_t` converted to it. */
  const U64: int := 0x1_0000_0000_0000_0000

  /** `(tw + 1) * (th + 1) * sizeof(int16_t) * 2`: two 16-bit coordinates
      per lattice point of the target. */
  function GridKey(tw: nat, th: nat): nat
  {
    (tw + 1) * (th + 1) * 4
  }

  /** `a == b` between an `int64_t` and a `size_t`: the signed operand is
      converted to `size_t` first. */
  predicate SizeEquals(signed: int, unsigned: nat)
  {
    signed % U64 == unsigned % U64
  }

  // ---------------------------------------------------------------------
  // SATDecoder

  /** The decoder's cache: whether OpenCL is in use and `grid_size`. */
  datatype DecoderGrid = DecoderGrid(useOpenCl: bool, size: int)

  /** A freshly constructed decoder: `grid_size = -1`, "no grid". */
  function FreshDecoder(useOpenCl: bool): (s: DecoderGrid)
    ensures s.size < 0
  {
    DecoderGrid(useOpenCl, -1)
  }

  /** `SATDecoder::InitializeGrid`: the new state and whether a grid was
      built. The source dimensions are passed but play no part. */
  function DecoderInitializeGrid(s: DecoderGrid, tw: nat, th: nat, sw: nat, sh: nat): (r: (DecoderGrid, bool))
    ensures r.0.useOpenCl == s.useOpenCl
    ensures r.1 <==> !SizeEquals(s.size, GridKey(tw, th))
    ensures r.1 ==> r.0.size == GridKey(tw, th)
    ensures !r.1 ==> r.0 == s
  {
    var key := GridKey(tw, th);
    if SizeEquals(s.size, key) then (s, false) else (s.(size := key), true)
  }

  /** `SATDecoder::FreeClResources`: with OpenCL in use, a positive size
      goes back to -1; otherwise nothing changes. */
  function FreeClResources(s: DecoderGrid): (r: DecoderGrid)
    ensures r.useOpenCl == s.useOpenCl
    ensures r.size <= 0 || r == s
    ensures s.size <= 0 || !s.useOpenCl ==> r == s
  {
    if s.useOpenCl && s.size > 0 then s.(size := -1) else s
  }

  /** A key is a multiple of 4, so it is never `(size_t) -1`. */
  lemma KeyIsNotMinusOne(tw: nat, th: nat)
    ensures !SizeEquals(-1, GridKey(tw, th))
  {
    var key := GridKey(tw, th);
    var q := key / U64;
    assert key == q * U64 + key % U64;
    assert key % 4 == 0;
    assert (q * U64) % 4 == 0 by {
      assert q * U64 == 4 * (q * 0x4000_0000_0000_0000);
    }
    assert (key % U64) % 4 == 0 by {
      assert key % U64 == 4 * ((key - q * U64) / 4);
    }
    assert (-1) % U64 == U64 - 1;
  }

  /** "No grid" is never taken for a cached grid: the first
      `InitializeGrid` of a fresh decoder, and the first after a
      `FreeClResources` that released a grid, always builds. */
  lemma FreshDecoderBuilds(useOpenCl: bool, tw: nat, th: nat, sw: nat, sh: nat)
    ensures DecoderInitializeGrid(FreshDecoder(useOpenCl), tw, th, sw, sh).1
  {
    KeyIsNotMinusOne(tw, th);
  }

  lemma FreeThenInitializeBuilds(s: DecoderGrid, tw: nat, th: nat, sw: nat, sh: nat)
    requires s.useOpenCl && s.size > 0
    ensures DecoderInitializeGrid(FreeClResources(s), tw, th, sw, sh).1
  {
    KeyIsNotMinusOne(tw, th);
  }

  /** A second `InitializeGrid` with the same target is a no-op. */
  lemma DecoderInitializeIdempotent(s: DecoderGrid, tw: nat, th: nat, sw: nat, sh: nat, sw': nat, sh': nat)
    ensures var r := DecoderInitializeGrid(s, tw, th, sw, sh);
      DecoderInitializeGrid(r.0, tw, th, sw', sh') == (r.0, false)
  {
  }

  /** Two targets of the same lattice size share a key: a 1 x 3 target
      after a 3 x 1 one reuses the 3 x 1 grid, built for other dimensions. */
  lemma StaleGridExample(useOpenCl: bool)
    ensures var built := DecoderInitializeGrid(FreshDecoder(useOpenCl), 3, 1, 8, 8);
      built.1 && DecoderInitializeGrid(built.0, 1, 3, 8, 8) == (built.0, false)
  {
    KeyIsNotMinusOne(3, 1);
    assert GridKey(3, 1) == GridKey(1, 3) == 32;
  }

  /** The grid as its dimensions determine it: the cache keyed on all four
      dimensions that the grid kernel receives. */
  datatype KeyedGrid = KeyedGrid(dims: Option<(nat, nat, nat, nat)>)

  /** An `InitializeGrid` keyed on every input of the grid: it rebuilds
      exactly when the cached grid was built for other dimensions (or
      there is none), and afterwards the cache holds the requested ones. */
  function KeyedInitializeGrid(s: KeyedGrid, tw: nat, th: nat, sw: nat, sh: nat): (r: (KeyedGrid, bool))
    ensures r.0.dims == Some((tw, th, sw, sh))
    ensures r.1 <==> s.dims != Some((tw, th, sw, sh))
  {
    if s.dims == Some((tw, th, sw, sh)) then (s, false) else (KeyedGrid(Some((tw, th, sw, sh))), true)
  }

  /** The keyed cache never serves a grid built for other dimensions:
      the 3 x 1 then 1 x 3 sequence rebuilds. */
  lemma KeyedGridNotStale()
    ensures var built := KeyedInitializeGrid(KeyedGrid(None), 3, 1, 8, 8);
      built.1 && KeyedInitializeGrid(built.0, 1, 3, 8, 8).1
  {
  }

  // ---------------------------------------------------------------------
  // ImageSampler

  /** The sampler's two caches, `grid_size` and `logpolar_grid_size`,
      both `size_t`. */
  datatype SamplerGrids = SamplerGrids(rectSize: nat, logpolarSize: nat)

  /** A fresh sampler: both sizes 0. */
  function FreshSampler(): (s: SamplerGrids)
    ensures s.rectSize == 0 && s.logpolarSize == 0
  {
    SamplerGrids(0, 0)
  }

  /** `ImageSampler::InitializeGrid`: rebuilds the rectangular grid iff
      the key differs from `grid_size`. */
  function SamplerInitializeGrid(s: SamplerGrids, tw: nat, th: nat, sw: nat, sh: nat): (r: (SamplerGrids, bool))
    ensures r.0.logpolarSize == s.logpolarSize
    ensures r.1 <==> s.rectSize != GridKey(tw, th) % U64
    ensures r.1 ==> r.0.rectSize == GridKey(tw, th) % U64
    ensures !r.1 ==> r.0 == s
  {
    var key := GridKey(tw, th) % U64;
    if s.rectSize == key then (s, false) else (s.(rectSize := key), true)
  }

  /** `ImageSampler::InitializeLogpolarGrid`: the same rule on the
      log-polar size. */
  function SamplerInitializeLogpolarGrid(s: SamplerGrids, tw: nat, th: nat, sw: nat, sh: nat): (r: (SamplerGrids, bool))
    ensures r.0.rectSize == s.rectSize
    ensures r.1 <==> s.logpolarSize != GridKey(tw, th) % U64
    ensures r.1 ==> r.0.logpolarSize == GridKey(tw, th) % U64
    ensures !r.1 ==> r.0 == s
  {
    var key := GridKey(tw, th) % U64;
    if s.logpolarSize == key then (s, false) else (s.(logpolarSize := key), true)
  }

  /** Both sampler caches rebuild iff the byte size changes, so repeating
      a call is a no-op. */
  lemma SamplerInitializeIdempotent(s: SamplerGrids, tw: nat, th: nat, sw: nat, sh: nat)
    ensures var r := SamplerInitializeGrid(s, tw, th, sw, sh);
      SamplerInitializeGrid(r.0, tw, th, sw, sh) == (r.0, false)
    ensures var r := SamplerInitializeLogpolarGrid(s, tw, th, sw, sh);
      SamplerInitializeLogpolarGrid(r.0, tw, th, sw, sh) == (r.0, false)
  {
  }

  /** `SampleFrameRectGPU`'s guard as written: `grid_size == -1` on a
      `size_t`, which compares with `SIZE_MAX`. The result is the state
      after the guard and whether it built a grid. */
  function SampleRectGpuAsWritten(s: SamplerGrids, tw: nat, th: nat, sw: nat, sh: nat): (r: (SamplerGrids, bool))
    ensures !r.1 ==> r.0 == s
  {
    if s.rectSize == U64 - 1 then SamplerInitializeGrid(s, tw, th, sw, sh) else (s, false)
  }

  /** `SampleFrameLogPolarGPU`'s guard: `logpolar_grid_size <= 0`, which on
      a `size_t` means "is 0". */
  function SampleLogpolarGpu(s: SamplerGrids, tw: nat, th: nat, sw: nat, sh: nat): (r: (SamplerGrids, bool))
    ensures s.logpolarSize == 0 && GridKey(tw, th) < U64 ==> r.1 && r.0.logpolarSize == GridKey(tw, th)
    ensures s.logpolarSize > 0 ==> r == (s, false)
  {
    if s.logpolarSize <= 0 then SamplerInitializeLogpolarGrid(s, tw, th, sw, sh) else (s, false)
  }

  /** As written, the rectangular guard never fires on a fresh sampler,
      nor on any size an `InitializeGrid` can store: the first GPU sample
      runs without a grid. */
  lemma RectGuardNeverFires(tw: nat, th: nat, sw: nat, sh: nat, tw': nat, th': nat)
    ensures SampleRectGpuAsWritten(FreshSampler(), tw, th, sw, sh) == (FreshSampler(), false)
    ensures var s := SamplerInitializeGrid(FreshSampler(), tw', th', sw, sh).0;
      !SampleRectGpuAsWritten(s, tw, th, sw, sh).1
  {
    var s := SamplerInitializeGrid(FreshSampler(), tw', th', sw, sh).0;
    KeyIsNotMinusOne(tw', th');
    assert s.rectSize != U64 - 1;
  }

  /** The guard with the test the log-polar path uses (`grid_size <= 0`). */
  function SampleRectGpu(s: SamplerGrids, tw: nat, th: nat, sw: nat, sh: nat): (r: (SamplerGrids, bool))
    ensures s.rectSize == 0 && GridKey(tw, th) < U64 ==> r.1 && r.0.rectSize == GridKey(tw, th)
    ensures s.rectSize > 0 ==> r == (s, false)
  {
    if s.rectSize <= 0 then SamplerInitializeGrid(s, tw, th, sw, sh) else (s, false)
  }

  /** With that guard the first GPU sample of a fresh sampler builds its
      grid, exactly as the log-polar path does. */
  lemma FreshSamplerBuildsGrid(tw: nat, th: nat, sw: nat, sh: nat)
    requires GridKey(tw, th) < U64
    ensures SampleRectGpu(FreshSampler(), tw, th, sw, sh).1
    ensures SampleLogpolarGpu(FreshSampler(), tw, th, sw, sh).1
    ensures SampleRectGpu(FreshSampler(), tw, th, sw, sh).0.rectSize == GridKey(tw, th) % U64
  {
  }
}
