/** The command line of `make_gnomonic`: `main` picks the image or the
    video tool from the extension of its first argument, and each tool
    checks its argument count before doing any work. The projection
    itself runs on the GPU and is not modelled; a run is summarised by
    the job it would start. `stof` is a parameter (`None` when it
    throws). */
module MakeGnomonic {

  import opened Common

  /** `find_last_of('.')`: the position of the last '.', if any. */
  function LastDot(s: string): (r: Option<nat>)
    ensures r.Some? ==> r.value < |s| && s[r.value] == '.'
    ensures r.Some? ==> forall k :: r.value < k < |s| ==> s[k] != '.'
    ensures r.None? ==> forall k :: 0 <= k < |s| ==> s[k] != '.'
    decreases |s|
  {
    if |s| == 0 then None
    else if s[|s| - 1] == '.' then Some(|s| - 1)
    else
      var r := LastDot(s[..|s| - 1]);
      assert forall k :: 0 <= k < |s| - 1 ==> s[..|s| - 1][k] == s[k];
      r
  }

  /** `input_file.substr(input_file.find_last_of(".") + 1)`. Without a
      '.', `npos + 1` wraps around to 0 and the whole name is taken. */
  function Extension(s: string): string
  {
    match LastDot(s)
    case None => s
    case Some(i) => s[i + 1..]
  }

  /** The last '.' is determined by the name: any '.' with no other '.'
      after it is the one `LastDot` finds. */
  lemma LastDotUnique(s: string, i: nat)
    requires i < |s| && s[i] == '.' && forall k :: i < k < |s| ==> s[k] != '.'
    ensures LastDot(s) == Some(i)
  {
    assert LastDot(s).Some?;
  }

  /** The extension is the dot-free tail of the name: the name ends in
      '.' followed by it when the name has a '.', and is it otherwise. */
  lemma ExtensionIsDotFreeTail(s: string)
    ensures '.' !in Extension(s)
    ensures '.' !in s ==> Extension(s) == s
    ensures '.' in s ==>
      |Extension(s)| < |s| && s[|s| - |Extension(s)| - 1] == '.' && s[|s| - |Extension(s)|..] == Extension(s)
  {
    match LastDot(s)
    case None =>
      assert '.' !in s;
    case Some(i) =>
      var e := s[i + 1..];
      assert forall k :: 0 <= k < |e| ==> e[k] == s[i + 1 + k];
      assert '.' in s;
  }

  /** What a run of the tool starts. */
  datatype Job =
    | Failed
    | Aborted
    | ImageJob(source: string, output: string, centreX: real, centreY: real)
    | VideoJob(source: string, gazeFile: string, output: string)

  /** `MakeGnomonicImage`'s argument handling: source and output are
      required; the centre is (0.5, 0.5) unless two more arguments give
      it. */
  function MakeGnomonicImage(args: seq<string>, stof: string -> Option<real>): (j: Job)
    ensures |args| < 3 <==> j == Failed
    ensures j.ImageJob? ==> j.source == args[1] && j.output == args[2]
    ensures |args| < 5 && j.ImageJob? ==> j.centreX == 0.5 && j.centreY == 0.5
    ensures 3 <= |args| < 5 ==> j.ImageJob?
    ensures |args| >= 5 ==> (j == Aborted <==> stof(args[3]).None? || stof(args[4]).None?)
    ensures |args| >= 5 && j.ImageJob? ==> Some(j.centreX) == stof(args[3]) && Some(j.centreY) == stof(args[4])
  {
    if |args| < 3 then Failed
    else if |args| < 5 then ImageJob(args[1], args[2], 0.5, 0.5)
    else match (stof(args[3]), stof(args[4]))
      case (Some(x), Some(y)) => ImageJob(args[1], args[2], x, y)
      case _ => Aborted
  }

  /** `MakeGnomonicVideo`'s argument handling: source, gaze file and
      output are all required. */
  function MakeGnomonicVideo(args: seq<string>): (j: Job)
    ensures |args| <= 3 <==> j == Failed
    ensures j.VideoJob? ==> j == VideoJob(args[1], args[2], args[3])
  {
    if |args| > 3 then VideoJob(args[1], args[2], args[3]) else Failed
  }

  /** `main`: dispatch on the extension of the first argument; the job it
      starts. */
  function MainJob(args: seq<string>, stof: string -> Option<real>): (j: Job)
    ensures |args| < 2 ==> j == Failed
    ensures j.VideoJob? <==> |args| > 3 && Extension(args[1]) == "mp4"
    ensures j.ImageJob? ==> |args| >= 3 && Extension(args[1]) == "png"
    ensures |args| >= 2 && Extension(args[1]) != "mp4" && Extension(args[1]) != "png" ==> j == Failed
  {
    if |args| < 2 then Failed
    else
      var e := Extension(args[1]);
      if e == "mp4" then MakeGnomonicVideo(args)
      else if e == "png" then MakeGnomonicImage(args, stof)
      else Failed
  }

  /** Only the text after the last '.' counts, and a name without any '.'
      is its own extension, so a file called just "mp4" is taken for a
      video. */
  lemma DispatchExamples(stof: string -> Option<real>)
    ensures MainJob(["make_gnomonic", "a.png.mp4", "g.txt", "out.mp4"], stof).VideoJob?
    ensures MainJob(["make_gnomonic", "mp4", "g.txt", "out.mp4"], stof).VideoJob?
    ensures MainJob(["make_gnomonic", "a.mp4.png", "out.png"], stof) == ImageJob("a.mp4.png", "out.png", 0.5, 0.5)
    ensures MainJob(["make_gnomonic", "a.jpg", "out.png"], stof) == Failed
  {
    ExtensionExamples();
    VideoDispatch(["make_gnomonic", "a.png.mp4", "g.txt", "out.mp4"], stof);
    VideoDispatch(["make_gnomonic", "mp4", "g.txt", "out.mp4"], stof);
    ImageDispatch(["make_gnomonic", "a.mp4.png", "out.png"], stof);
    var jpg := ["make_gnomonic", "a.jpg", "out.png"];
    assert Extension(jpg[1]) != "mp4" && Extension(jpg[1]) != "png" by {
      assert "jpg"[0] != "mp4"[0] && "jpg"[0] != "png"[0];
    }
  }

  lemma VideoDispatch(args: seq<string>, stof: string -> Option<real>)
    requires |args| == 4 && Extension(args[1]) == "mp4"
    ensures MainJob(args, stof) == VideoJob(args[1], args[2], args[3])
  {
  }

  lemma ImageDispatch(args: seq<string>, stof: string -> Option<real>)
    requires |args| == 3 && Extension(args[1]) == "png"
    ensures MainJob(args, stof) == ImageJob(args[1], args[2], 0.5, 0.5)
  {
    assert "png" != "mp4" by { assert "png"[0] != "mp4"[0]; }
  }

  /** The extensions the examples above dispatch on. */
  lemma ExtensionExamples()
    ensures Extension("a.png.mp4") == "mp4" && Extension("mp4") == "mp4"
    ensures Extension("a.mp4.png") == "png" && Extension("a.jpg") == "jpg"
  {
    LastDotUnique("a.png.mp4", 5);
    LastDotUnique("a.mp4.png", 5);
    LastDotUnique("a.jpg", 1);
    assert LastDot("mp4") == None by {
      assert forall k :: 0 <= k < 3 ==> "mp4"[k] != '.';
    }
  }
}
