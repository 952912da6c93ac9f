/** The file-name rule shared by `SaveFramePNG` and `LoadFramePNG`: a path
    whose last four characters are not ".png" gets ".png" appended. The
    test is `compare(length - 4, 4, ".png")`; for a path shorter than four
    characters the position wraps around as a `size_t` and `compare`
    throws `std::out_of_range`, modelled as `None`. */
module SaveFrame {

  import opened Common

  const PngSuffix: string := ".png"

  predicate EndsWithPng(p: string)
  {
    |p| >= 4 && p[|p| - 4..] == PngSuffix
  }

  /** The suffix rule of `SaveFramePNG` (and of `LoadFramePNG`). */
  function NormalizePngPath(p: string): (r: Option<string>)
    ensures r.None? <==> |p| < 4
    ensures r.Some? ==> EndsWithPng(r.value)
    ensures r.Some? ==> |r.value| >= |p| && r.value[..|p|] == p
    ensures r.Some? && EndsWithPng(p) ==> r.value == p
    ensures r.Some? && !EndsWithPng(p) ==> |r.value| == |p| + 4
  {
    if |p| < 4 then None
    else if p[|p| - 4..] == PngSuffix then Some(p)
    else
      var q := p + PngSuffix;
      assert q[|q| - 4..] == PngSuffix;
      assert q[..|p|] == p;
      Some(q)
  }

  /** Normalising twice is normalising once: the file `SaveFramePNG`
      writes is the file `LoadFramePNG` reads back under the same name. */
  lemma NormalizeIdempotent(p: string)
    requires |p| >= 4
    ensures NormalizePngPath(NormalizePngPath(p).value) == NormalizePngPath(p)
  {
  }
}
