/** `GazeViewPoints`: the gaze log reader. Each line of the log that
    contains a `frame,N,forward,X,Y,eye,X,Y` record yields one point, in
    file order; the point also carries a prediction, the previous point's
    view and gaze (or its own for the first point). Matching a line
    against the pattern and converting its numbers (`std::regex_search`,
    `stoul`, `stof`) is a parameter of the model. A conversion that
    throws in the source ends the constructor with the exception; here
    `parse` returns `None` for it and the line is skipped. */
module GazeViewPoints {

  import opened Common

  /** The five captures of a matching line: frame, view point (the forward
      pair) and gaze point (the eye pair). */
  datatype Record = Record(frame: nat, viewX: real, viewY: real, gazeX: real, gazeY: real)

  /** A `GazeViewPoint`: the record and the predicted view and gaze. */
  datatype Point = Point(rec: Record, predViewX: real, predViewY: real, predGazeX: real, predGazeY: real)

  /** The records of the matching lines, in file order: the reference
      the reader is measured against. */
  function Matches(lines: seq<string>, parse: string -> Option<Record>): (rs: seq<Record>)
    ensures |rs| <= |lines|
    decreases |lines|
  {
    if |lines| == 0 then []
    else
      var rest := Matches(lines[..|lines| - 1], parse);
      match parse(lines[|lines| - 1])
      case None => rest
      case Some(r) => rest + [r]
  }

  /** A point that predicts the position `prev` had. */
  function Predicted(r: Record, prev: Record): (p: Point)
    ensures p.rec == r
    ensures p.predViewX == prev.viewX && p.predViewY == prev.viewY
    ensures p.predGazeX == prev.gazeX && p.predGazeY == prev.gazeY
  {
    Point(r, prev.viewX, prev.viewY, prev.gazeX, prev.gazeY)
  }

  /** The constructor `GazeViewPoints(file_path)`. `file` is `None` when
      the file cannot be opened, which leaves the list empty. */
  method ReadGazeViewPoints(file: Option<seq<string>>, parse: string -> Option<Record>) returns (points: seq<Point>)
    ensures file.None? ==> points == []
    ensures file.Some? ==> |points| == |Matches(file.value, parse)|
    ensures file.Some? ==> forall k :: 0 <= k < |points| ==> points[k].rec == Matches(file.value, parse)[k]
    ensures |points| > 0 ==> points[0] == Predicted(points[0].rec, points[0].rec)
    ensures forall k :: 0 < k < |points| ==> points[k] == Predicted(points[k].rec, points[k - 1].rec)
  {
    points := [];
    if file.Some? {
      var lines := file.value;
      var n := 0;
      while n < |lines|
        invariant 0 <= n <= |lines|
        invariant |points| == |Matches(lines[..n], parse)|
        invariant forall k :: 0 <= k < |points| ==> points[k].rec == Matches(lines[..n], parse)[k]
        invariant |points| > 0 ==> points[0] == Predicted(points[0].rec, points[0].rec)
        invariant forall k :: 0 < k < |points| ==> points[k] == Predicted(points[k].rec, points[k - 1].rec)
      {
        assert lines[..n + 1][..n] == lines[..n];
        match parse(lines[n]) {
          case None =>
          case Some(r) =>
            var p := Predicted(r, r);
            if |points| > 0 {
              p := Predicted(r, points[|points| - 1].rec);
            }
            points := points + [p];
        }
        n := n + 1;
      }
      assert lines[..n] == lines;
    }
  }

  /** Reading is compositional over the file: the records of two pieces
      of a log are those of the first piece followed by those of the
      second, so no line's record moves relative to another's. */
  lemma {:induction false} MatchesAppend(a: seq<string>, b: seq<string>, parse: string -> Option<Record>)
    ensures Matches(a + b, parse) == Matches(a, parse) + Matches(b, parse)
    decreases |b|
  {
    if |b| > 0 {
      var b' := b[..|b| - 1];
      assert (a + b)[..|a + b| - 1] == a + b';
      assert (a + b)[|a + b| - 1] == b[|b| - 1];
      MatchesAppend(a, b', parse);
    } else {
      assert a + b == a;
    }
  }

  /** A line that does not match contributes nothing; one that does
      contributes exactly its record. */
  lemma OneLine(line: string, parse: string -> Option<Record>)
    ensures parse(line).None? ==> Matches([line], parse) == []
    ensures parse(line).Some? ==> Matches([line], parse) == [parse(line).value]
  {
    assert [line][..0] == [];
  }
}
