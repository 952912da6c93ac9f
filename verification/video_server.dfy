/** The server's per-connection bookkeeping: session ids handed out by
    `on_open`, the one-time `InitializeConnectionData`, the 256-cycle
    frame number of the image messages, and the metadata queue that pairs
    each encoded packet with the gaze centre it was sampled for.
    Connection handles are abstract; the file system is a predicate. */
module VideoServer {

  import opened Common

  /** A websocket connection handle. */
  type Handle = nat

  /** A `connection_data`: its session id and, once initialised, the path
      of the video its thread streams (`thread != NULL`). */
  datatype Connection = Connection(sessionId: int, video: Option<string>)

  /** `m_next_sessionid` and `m_connections`. */
  datatype Server = Server(nextId: int, conns: map<Handle, Connection>)

  /** The constructor: ids start at 1 and there are no connections. */
  function FreshServer(): (s: Server)
    ensures s.nextId == 1 && s.conns == map[]
  {
    Server(1, map[])
  }

  /** `VideoServer::on_open`: the new connection gets the next id, which
      then advances by one. */
  function OnOpen(s: Server, h: Handle): (r: Server)
    ensures h in r.conns && r.conns[h] == Connection(s.nextId, None)
    ensures r.nextId == s.nextId + 1
    ensures forall g :: g in s.conns && g != h ==> g in r.conns && r.conns[g] == s.conns[g]
    ensures r.conns.Keys == s.conns.Keys + {h}
  {
    Server(s.nextId + 1, s.conns[h := Connection(s.nextId, None)])
  }

  /** The server after opening the given connections in order. */
  function OpenAll(s: Server, hs: seq<Handle>): (r: Server)
    decreases |hs|
  {
    if |hs| == 0 then s else OpenAll(OnOpen(s, hs[0]), hs[1..])
  }

  /** Session ids count connections: opening distinct handles on a fresh
      server gives the i-th one id i + 1, so ids are distinct and
      positive. */
  lemma {:induction false} SessionIdsCount(s: Server, hs: seq<Handle>)
    requires forall i, j :: 0 <= i < j < |hs| ==> hs[i] != hs[j]
    ensures OpenAll(s, hs).nextId == s.nextId + |hs|
    ensures forall i :: 0 <= i < |hs| ==>
      hs[i] in OpenAll(s, hs).conns && OpenAll(s, hs).conns[hs[i]].sessionId == s.nextId + i
    ensures forall g :: g in s.conns && g !in hs ==>
      g in OpenAll(s, hs).conns && OpenAll(s, hs).conns[g] == s.conns[g]
    decreases |hs|
  {
    if |hs| > 0 {
      var s1 := OnOpen(s, hs[0]);
      var rest := hs[1..];
      SessionIdsCount(s1, rest);
      var r := OpenAll(s, hs);
      assert r == OpenAll(s1, rest);
      assert hs[0] !in rest by {
        forall j | 0 <= j < |rest|
          ensures rest[j] != hs[0]
        {
          assert rest[j] == hs[j + 1];
        }
      }
      forall i | 0 <= i < |hs|
        ensures hs[i] in r.conns && r.conns[hs[i]].sessionId == s.nextId + i
      {
        if i > 0 { assert hs[i] == rest[i - 1]; }
      }
      forall g | g in s.conns && g !in hs
        ensures g in r.conns && r.conns[g] == s.conns[g]
      {
        assert g !in rest && g != hs[0];
      }
    }
  }

  lemma FreshSessionIds(hs: seq<Handle>)
    requires forall i, j :: 0 <= i < j < |hs| ==> hs[i] != hs[j]
    ensures forall i :: 0 <= i < |hs| ==>
      hs[i] in OpenAll(FreshServer(), hs).conns && OpenAll(FreshServer(), hs).conns[hs[i]].sessionId == i + 1
  {
    SessionIdsCount(FreshServer(), hs);
  }

  /** `"1080p_videos/" + video_request + ".mp4"`. */
  function VideoPath(request: string): string
  {
    "1080p_videos/" + request + ".mp4"
  }

  /** `VideoServer::InitializeConnectionData`: ignored if the connection
      already streams (its thread exists) or the file is missing;
      otherwise the connection starts streaming that file. */
  function InitializeConnectionData(c: Connection, request: string, fileExists: string -> bool): (r: Connection)
    ensures r.sessionId == c.sessionId
    ensures c.video.Some? || !fileExists(VideoPath(request)) ==> r == c
    ensures c.video.None? && fileExists(VideoPath(request)) ==> r.video == Some(VideoPath(request))
  {
    if c.video.Some? then c
    else if !fileExists(VideoPath(request)) then c
    else c.(video := Some(VideoPath(request)))
  }

  /** The `videoRequest` branch of `on_message`: `None` when the handle has
      no connection data (`GetConnectionDataFromHdl` throws). */
  function OnVideoRequest(s: Server, h: Handle, request: string, fileExists: string -> bool): (r: Option<Server>)
    ensures r.None? <==> h !in s.conns
    ensures r.Some? ==> r.value.nextId == s.nextId && r.value.conns.Keys == s.conns.Keys
    ensures r.Some? ==> forall g :: g in s.conns && g != h ==> r.value.conns[g] == s.conns[g]
  {
    if h !in s.conns then None
    else Some(s.(conns := s.conns[h := InitializeConnectionData(s.conns[h], request, fileExists)]))
  }

  /** A connection after a run of video requests. */
  function RequestAll(c: Connection, reqs: seq<string>, fileExists: string -> bool): Connection
    decreases |reqs|
  {
    if |reqs| == 0 then c else RequestAll(InitializeConnectionData(c, reqs[0], fileExists), reqs[1..], fileExists)
  }

  /** The first request whose file exists. */
  function FirstAvailable(reqs: seq<string>, fileExists: string -> bool): (r: Option<string>)
    ensures r.Some? ==> r.value in reqs && fileExists(VideoPath(r.value))
    ensures r.None? ==> forall q :: q in reqs ==> !fileExists(VideoPath(q))
    decreases |reqs|
  {
    if |reqs| == 0 then None
    else if fileExists(VideoPath(reqs[0])) then Some(reqs[0])
    else FirstAvailable(reqs[1..], fileExists)
  }

  /** A connection streams the first video requested that exists; later
      requests never change it. */
  lemma {:induction false} StreamsFirstAvailable(c: Connection, reqs: seq<string>, fileExists: string -> bool)
    requires c.video.None?
    ensures RequestAll(c, reqs, fileExists).sessionId == c.sessionId
    ensures RequestAll(c, reqs, fileExists).video ==
      (match FirstAvailable(reqs, fileExists) case None => None case Some(q) => Some(VideoPath(q)))
    decreases |reqs|
  {
    if |reqs| > 0 {
      var c1 := InitializeConnectionData(c, reqs[0], fileExists);
      if fileExists(VideoPath(reqs[0])) {
        StaysInitialised(c1, reqs[1..], fileExists);
      } else {
        StreamsFirstAvailable(c1, reqs[1..], fileExists);
      }
    }
  }

  /** Once a connection streams, every further request is ignored. */
  lemma {:induction false} StaysInitialised(c: Connection, reqs: seq<string>, fileExists: string -> bool)
    requires c.video.Some?
    ensures RequestAll(c, reqs, fileExists) == c
    decreases |reqs|
  {
    if |reqs| > 0 {
      StaysInitialised(c, reqs[1..], fileExists);
    }
  }

  // ---------------------------------------------------------------------
  // Frame numbers

  /** `sent_frame_number = (sent_frame_number + 1) % 256`. */
  function NextSentFrameNumber(n: int): (r: int)
    requires 0 <= n < 256
    ensures 0 <= r < 256
    ensures n < 255 ==> r == n + 1
    ensures n == 255 ==> r == 0
  {
    (n + 1) % 256
  }

  /** The number carried by the k-th image message (counting from 0). */
  function SentFrameNumber(k: nat): (n: int)
    ensures 0 <= n < 256
  {
    if k == 0 then 0 else NextSentFrameNumber(SentFrameNumber(k - 1))
  }

  /** The k-th image message carries `k % 256`. */
  lemma {:induction false} SentFrameNumberIsCount(k: nat)
    ensures SentFrameNumber(k) == k % 256
  {
    if k > 0 {
      SentFrameNumberIsCount(k - 1);
      var q, r := (k - 1) / 256, (k - 1) % 256;
      assert k == q * 256 + r + 1;
      if r < 255 {
        ModUnique(k, 256, q, r + 1);
      } else {
        ModUnique(k, 256, q + 1, 0);
      }
    }
  }

  // ---------------------------------------------------------------------
  // Metadata queue

  /** A gaze centre, as stored in `frame_metadata`. */
  datatype Centre = Centre(x: real, y: real)

  /** One iteration of `SendFrameLoop`: the centre sampled for this frame
      and whether the encoder produced a packet. */
  datatype Iteration = Iteration(centre: Centre, gotPacket: bool)

  /** The centre an image message reports and whether it came off the
      queue. */
  datatype Report = Report(centre: Centre, popped: bool)

  /** One iteration: push the sampled centre; if a packet came out, report
      and pop the oldest queued centre, otherwise report the current one
      and leave the queue longer by one. */
  function MetadataStep(q: seq<Centre>, it: Iteration): (r: (Report, seq<Centre>))
    ensures it.gotPacket ==> r.0 == Report((q + [it.centre])[0], true) && r.1 == (q + [it.centre])[1..]
    ensures !it.gotPacket ==> r.0 == Report(it.centre, false) && r.1 == q + [it.centre]
  {
    var q1 := q + [it.centre];
    if it.gotPacket then (Report(q1[0], true), q1[1..]) else (Report(it.centre, false), q1)
  }

  /** The reports of a run of iterations and the final queue. */
  function RunMetadata(q: seq<Centre>, its: seq<Iteration>): (r: (seq<Report>, seq<Centre>))
    ensures |r.0| == |its|
    decreases |its|
  {
    if |its| == 0 then ([], q)
    else
      var (rep, q1) := MetadataStep(q, its[0]);
      var (reps, q2) := RunMetadata(q1, its[1..]);
      ([rep] + reps, q2)
  }

  function Centres(its: seq<Iteration>): (cs: seq<Centre>)
    ensures |cs| == |its|
    decreases |its|
  {
    if |its| == 0 then [] else [its[0].centre] + Centres(its[1..])
  }

  function Failures(its: seq<Iteration>): nat
    decreases |its|
  {
    if |its| == 0 then 0 else (if its[0].gotPacket then 0 else 1) + Failures(its[1..])
  }

  /** The centres taken off the queue, in the order they were reported. */
  function PoppedCentres(reps: seq<Report>): seq<Centre>
    decreases |reps|
  {
    if |reps| == 0 then []
    else (if reps[0].popped then [reps[0].centre] else []) + PoppedCentres(reps[1..])
  }

  /** The queue is a FIFO of centres: the centres reported with a packet,
      followed by those still queued, are the initial queue followed by
      every centre sampled, in order. */
  lemma {:induction false} MetadataFifo(q: seq<Centre>, its: seq<Iteration>)
    ensures PoppedCentres(RunMetadata(q, its).0) + RunMetadata(q, its).1 == q + Centres(its)
    decreases |its|
  {
    if |its| > 0 {
      var (rep, q1) := MetadataStep(q, its[0]);
      var (reps, q2) := RunMetadata(q1, its[1..]);
      MetadataFifo(q1, its[1..]);
      assert RunMetadata(q, its) == ([rep] + reps, q2);
      assert Centres(its) == [its[0].centre] + Centres(its[1..]);
      assert PoppedCentres([rep] + reps) == (if rep.popped then [rep.centre] else []) + PoppedCentres(reps);
      StepFifo(q, its[0], rep, q1, PoppedCentres(reps), q2, Centres(its[1..]));
    }
  }

  /** One step of `MetadataFifo`: what the step pops, followed by what the
      rest of the run pops and leaves, is the queue with the new centre
      pushed, followed by the later centres. */
  lemma StepFifo(q: seq<Centre>, it: Iteration, rep: Report, q1: seq<Centre>,
                 p: seq<Centre>, q2: seq<Centre>, later: seq<Centre>)
    requires (rep, q1) == MetadataStep(q, it)
    requires p + q2 == q1 + later
    ensures ((if rep.popped then [rep.centre] else []) + p) + q2 == q + ([it.centre] + later)
  {
    var pushed := q + [it.centre];
    assert q + ([it.centre] + later) == pushed + later;
    if it.gotPacket {
      assert pushed == [pushed[0]] + q1;
      assert ([pushed[0]] + p) + q2 == [pushed[0]] + (p + q2);
      assert [pushed[0]] + (q1 + later) == ([pushed[0]] + q1) + later;
    } else {
      assert ([] + p) + q2 == p + q2;
    }
  }

  /** The queue grows by one for each iteration without a packet. */
  lemma {:induction false} MetadataBacklog(q: seq<Centre>, its: seq<Iteration>)
    ensures |RunMetadata(q, its).1| == |q| + Failures(its)
    decreases |its|
  {
    if |its| > 0 {
      var (rep, q1) := MetadataStep(q, its[0]);
      MetadataBacklog(q1, its[1..]);
    }
  }

  /** When every iteration yields a packet, each image message reports the
      centre its own frame was sampled with, and the queue ends empty. */
  lemma {:induction false} AllPacketsReportCurrent(its: seq<Iteration>)
    requires forall k :: 0 <= k < |its| ==> its[k].gotPacket
    ensures RunMetadata([], its).1 == []
    ensures forall k :: 0 <= k < |its| ==> RunMetadata([], its).0[k].centre == its[k].centre
    decreases |its|
  {
    if |its| > 0 {
      var (rep, q1) := MetadataStep([], its[0]);
      assert q1 == [];
      AllPacketsReportCurrent(its[1..]);
      var reps := RunMetadata([], its[1..]).0;
      assert RunMetadata([], its).0 == [rep] + reps;
      forall k | 0 < k < |its|
        ensures RunMetadata([], its).0[k].centre == its[k].centre
      {
        assert its[1..][k - 1] == its[k];
      }
    }
  }
}
