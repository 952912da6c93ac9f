/** The client's bookkeeping around the byte FIFO: the gaze index used to
    key timing maps, the de-duplicated gaze requests with their packet
    numbers, the 256-frame counter into `gaze_vec`, and the gate that opens
    the demuxer once enough bytes have arrived. Floats are modelled as
    reals; the websocket send is a parameter saying whether it threw. */
module VideoClient {

  import opened Common
  import Helpers

  /** `std::clamp(v, 0, 1) * 10000` converted to `int`. */
  function GazeCell(v: real): (k: int)
    ensures 0 <= k <= 10000
  {
    var c := Helpers.Clamp(v, 0.0, 1.0);
    assert 0.0 <= c * 10000.0 <= 10000.0;
    Trunc(c * 10000.0)
  }

  /** `VideoClient::GazeToIndex`: the x cell plus 10000 times the y cell. */
  function GazeToIndex(x: real, y: real): (idx: int)
    ensures 0 <= idx <= 100010000
  {
    GazeCell(x) + GazeCell(y) * 10000
  }

  /** Away from the right edge the index determines both cells: it is a
      base-10000 numeral with the x cell as its low digit. */
  lemma IndexDeterminesCells(x: real, y: real, x': real, y': real)
    requires GazeCell(x) < 10000 && GazeCell(x') < 10000
    ensures GazeToIndex(x, y) == GazeToIndex(x', y') <==>
      GazeCell(x) == GazeCell(x') && GazeCell(y) == GazeCell(y')
  {
    if GazeToIndex(x, y) == GazeToIndex(x', y') {
      ModUnique(GazeToIndex(x, y), 10000, GazeCell(y), GazeCell(x));
      ModUnique(GazeToIndex(x', y'), 10000, GazeCell(y'), GazeCell(x'));
    }
  }

  /** The index is not injective: the right edge of one row meets the left
      edge of the next, `(1, 0)` and `(0, 0.0001)` both give 10000, and the
      "no position" marker `(-1, -1)` shares 0 with the top-left corner. */
  lemma GazeToIndexCollisions()
    ensures GazeToIndex(1.0, 0.0) == GazeToIndex(0.0, 0.0001) == 10000
    ensures GazeToIndex(-1.0, -1.0) == GazeToIndex(0.0, 0.0) == 0
  {
    assert Helpers.Clamp(0.0001, 0.0, 1.0) * 10000.0 == 1.0;
  }

  // ---------------------------------------------------------------------
  // Gaze requests

  /** `last_sent_pos` (initially `(-1, -1)`) and `nextPacketNumber`
      (initially 0). */
  datatype GazeState = GazeState(lastX: real, lastY: real, nextPacket: nat)

  function FreshGaze(): (s: GazeState)
    ensures s.nextPacket == 0 && s.lastX < 0.0 && s.lastY < 0.0
  {
    GazeState(-1.0, -1.0, 0)
  }

  /** The `frameRequest` message: centre and packet number. */
  datatype FrameRequest = FrameRequest(x: real, y: real, packetNumber: nat)

  /** `pow(10, -5)`. */
  const Eps: real := 0.00001

  function RealAbs(r: real): real { if r < 0.0 then -r else r }

  /** Both coordinates within `Eps` of the last position sent. */
  predicate Unmoved(s: GazeState, x: real, y: real)
  {
    RealAbs(s.lastX - x) < Eps && RealAbs(s.lastY - y) < Eps
  }

  /** `VideoClient::UpdateGazePosition` with `sendOk` saying whether the
      websocket send returned normally: the new state and the request
      built, if any. The packet number is taken (and the counter bumped)
      before the send, so a send that throws still uses up its number but
      leaves `last_sent_pos` as it was. */
  function UpdateGazePosition(s: GazeState, x: real, y: real, sendOk: bool): (r: (GazeState, Option<FrameRequest>))
    ensures r.1.None? <==> Unmoved(s, x, y)
    ensures r.1.None? ==> r.0 == s
    ensures r.1.Some? ==>
      r.1.value == FrameRequest(x, y, s.nextPacket) && r.0.nextPacket == s.nextPacket + 1
    ensures r.1.Some? && sendOk ==> r.0.lastX == x && r.0.lastY == y && Unmoved(r.0, x, y)
    ensures r.1.Some? && !sendOk ==> r.0.lastX == s.lastX && r.0.lastY == s.lastY
  {
    if Unmoved(s, x, y) then (s, None)
    else
      var req := FrameRequest(x, y, s.nextPacket);
      var s1 := s.(nextPacket := s.nextPacket + 1);
      if sendOk then (s1.(lastX := x, lastY := y), Some(req)) else (s1, Some(req))
  }

  /** One frame of the render loop: the normalised mouse position and
      whether the send succeeded. */
  datatype GazeInput = GazeInput(x: real, y: real, sendOk: bool)

  /** The requests a sequence of `UpdateGazePosition` calls sends, in
      order, and the final state. */
  function RunGaze(s: GazeState, ins: seq<GazeInput>): (r: (seq<FrameRequest>, GazeState))
    ensures r.1.nextPacket == s.nextPacket + |r.0|
    decreases |ins|
  {
    if |ins| == 0 then ([], s)
    else
      var (s1, req) := UpdateGazePosition(s, ins[0].x, ins[0].y, ins[0].sendOk);
      var (reqs, s2) := RunGaze(s1, ins[1..]);
      ((if req.Some? then [req.value] else []) + reqs, s2)
  }

  /** Packet numbers are consecutive from the starting counter: the k-th
      request built carries `start + k`, whether or not earlier sends
      threw. */
  lemma {:induction false} PacketNumbersConsecutive(s: GazeState, ins: seq<GazeInput>)
    ensures forall k :: 0 <= k < |RunGaze(s, ins).0| ==>
      RunGaze(s, ins).0[k].packetNumber == s.nextPacket + k
    decreases |ins|
  {
    if |ins| > 0 {
      var (s1, req) := UpdateGazePosition(s, ins[0].x, ins[0].y, ins[0].sendOk);
      PacketNumbersConsecutive(s1, ins[1..]);
      var reqs := RunGaze(s1, ins[1..]).0;
      var all := RunGaze(s, ins).0;
      assert all == (if req.Some? then [req.value] else []) + reqs;
      if req.Some? {
        assert s1.nextPacket == s.nextPacket + 1;
        forall k | 0 <= k < |all|
          ensures all[k].packetNumber == s.nextPacket + k
        {
          if k > 0 { assert all[k] == reqs[k - 1]; }
        }
      }
    }
  }

  // ---------------------------------------------------------------------
  // Frame counter

  /** `gaze_vec(2048)`: the number of entries of the received-centre log. */
  const GazeLogSize: int := 2048

  /** `frame_num = (frame_num + 1) % 256`: stays a valid index into
      `gaze_vec` from the initial -1 or any non-negative value (C++ `%`). */
  function NextFrameNum(n: int): (r: int)
    requires n >= -1
    ensures 0 <= r < 256 && r < GazeLogSize
    ensures 0 <= n < 255 ==> r == n + 1
  {
    CRem(n + 1, 256)
  }

  /** The counter after `k` decoded frames, starting from 0. */
  function FrameNumAfter(k: nat): (n: int)
    ensures 0 <= n < 256
  {
    if k == 0 then 0 else NextFrameNum(FrameNumAfter(k - 1))
  }

  /** After `k` decoded frames the client looks up entry `k % 256`, the
      slot the server fills for the frame it numbers `k`: the first frame
      decoded reads slot 1, not slot 0. */
  lemma {:induction false} FrameNumIsCount(k: nat)
    ensures FrameNumAfter(k) == k % 256
  {
    if k > 0 {
      FrameNumIsCount(k - 1);
      var q, r := (k - 1) / 256, (k - 1) % 256;
      assert k == q * 256 + r + 1;
      if r < 255 {
        ModUnique(k, 256, q, r + 1);
      } else {
        ModUnique(k, 256, q + 1, 0);
      }
    }
  }

  // ---------------------------------------------------------------------
  // Opening the demuxer

  /** Fewer buffered bytes than this and the demuxer is not opened. */
  const OpenThreshold: int := 5000

  /** The outcome of `VideoClient::TryOpenInput`. */
  datatype OpenOutcome = Waiting | AlreadyOpen | NoContext | Opened

  /** `VideoClient::TryOpenInput` given the buffered byte count, whether
      the format is already open and whether the I/O context exists. */
  function TryOpenInput(bytesSet: int, isOpen: bool, haveContext: bool): (r: OpenOutcome)
    ensures r == Opened <==> bytesSet >= OpenThreshold && !isOpen && haveContext
    ensures r == NoContext <==> bytesSet >= OpenThreshold && !isOpen && !haveContext
    ensures bytesSet < OpenThreshold ==> r == Waiting
  {
    if bytesSet < OpenThreshold then Waiting
    else if isOpen then AlreadyOpen
    else if !haveContext then NoContext
    else Opened
  }

  /** The C++ return value: -1 only for a missing I/O context. */
  function ReturnCode(r: OpenOutcome): int
  {
    if r == NoContext then -1 else 0
  }

  /** Calls of `TryOpenInput` over a run of buffered byte counts, with the
      open flag set by a successful open: the number of opens. */
  function CountOpens(isOpen: bool, haveContext: bool, counts: seq<int>): (n: nat)
    decreases |counts|
  {
    if |counts| == 0 then 0
    else
      var r := TryOpenInput(counts[0], isOpen, haveContext);
      (if r == Opened then 1 else 0) + CountOpens(isOpen || r == Opened, haveContext, counts[1..])
  }

  /** The demuxer is opened at most once, and not at all once it is open;
      it is opened exactly when some call saw at least 5000 bytes with a
      context present. */
  lemma {:induction false} OpensAtMostOnce(isOpen: bool, haveContext: bool, counts: seq<int>)
    ensures CountOpens(isOpen, haveContext, counts) <= 1
    ensures isOpen ==> CountOpens(isOpen, haveContext, counts) == 0
    ensures !isOpen ==> (CountOpens(isOpen, haveContext, counts) == 1 <==>
      haveContext && exists k :: 0 <= k < |counts| && counts[k] >= OpenThreshold)
    decreases |counts|
  {
    if |counts| > 0 {
      var r := TryOpenInput(counts[0], isOpen, haveContext);
      OpensAtMostOnce(isOpen || r == Opened, haveContext, counts[1..]);
      if !isOpen && haveContext && counts[0] < OpenThreshold {
        if exists k :: 0 <= k < |counts| && counts[k] >= OpenThreshold {
          var k :| 0 <= k < |counts| && counts[k] >= OpenThreshold;
          assert counts[1..][k - 1] == counts[k];
        }
        if exists k :: 0 <= k < |counts[1..]| && counts[1..][k] >= OpenThreshold {
          var k :| 0 <= k < |counts[1..]| && counts[1..][k] >= OpenThreshold;
          assert counts[k + 1] == counts[1..][k];
        }
      }
    }
  }
}
