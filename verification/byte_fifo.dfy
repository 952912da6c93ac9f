/** The byte FIFOs between the network and FFmpeg. On the client, binary
    websocket messages are appended to an `IOOutput` buffer that
    `VideoClient::ReadPacket` drains into the demuxer. On the server,
    `VideoServer::WritePacket` collects the muxer's output in a fixed
    buffer that is emptied after every send. A buffer is modelled as its
    whole storage plus `bytesSet`, the length of the queued prefix. */
module ByteFifo {

  import opened Common

  type Byte = b: int | IsByte(b)

  // ---------------------------------------------------------------------
  // Client side

  /** The client's `IOOutput`: the reserved storage of `inBuffer` (its
      capacity is the storage length) and the number of queued bytes. */
  datatype ClientBuffer = ClientBuffer(store: seq<Byte>, bytesSet: int)

  predicate Valid(b: ClientBuffer)
  {
    0 <= b.bytesSet <= |b.store|
  }

  /** The bytes waiting for the demuxer, oldest first. */
  function Queued(b: ClientBuffer): seq<Byte>
    requires Valid(b)
  {
    b.store[..b.bytesSet]
  }

  /** The binary branch of `VideoClient::on_message`: the payload is copied
      behind the queued bytes, unless it does not fit in the capacity, in
      which case the process exits (`None`). Exactly filling the capacity
      is allowed. */
  function Append(b: ClientBuffer, payload: seq<Byte>): (r: Option<ClientBuffer>)
    requires Valid(b)
    ensures r.None? <==> |payload| + b.bytesSet > |b.store|
    ensures r.Some? ==> Valid(r.value) && |r.value.store| == |b.store|
    ensures r.Some? ==> Queued(r.value) == Queued(b) + payload
  {
    var end := b.bytesSet + |payload|;
    if end > |b.store| then None
    else
      var store := b.store[..b.bytesSet] + payload + b.store[end..];
      assert store[..end] == b.store[..b.bytesSet] + payload;
      Some(ClientBuffer(store, end))
  }

  /** A read of up to `bufSize` bytes: the count returned, the bytes handed
      over, and the buffer afterwards. The count is `min(bufSize,
      bytesSet)`; when it is not positive (an empty buffer or a
      non-positive request) nothing moves and the count is still
      returned. */
  function Dequeue(b: ClientBuffer, bufSize: int): (r: (int, seq<Byte>, ClientBuffer))
    requires Valid(b)
    ensures r.0 == Min(bufSize, b.bytesSet) && r.0 <= bufSize && r.0 <= b.bytesSet
    ensures Valid(r.2) && |r.2.store| == |b.store|
    ensures r.0 > 0 ==> r.1 == Queued(b)[..r.0] && Queued(b) == r.1 + Queued(r.2)
    ensures r.0 > 0 ==> r.2.bytesSet == b.bytesSet - r.0
    ensures r.0 <= 0 ==> r.1 == [] && r.2 == b
  {
    var n := Min(bufSize, b.bytesSet);
    if n <= 0 then (n, [], b)
    else
      var rest := ClientBuffer(b.store[n..b.bytesSet] + b.store[b.bytesSet - n..], b.bytesSet - n);
      assert Queued(rest) == b.store[n..b.bytesSet];
      assert Queued(b) == b.store[..n] + b.store[n..b.bytesSet];
      (n, b.store[..n], rest)
  }

  /** `VideoClient::ReadPacket`: copies the first `n = min(bufSize,
      bytesSet)` queued bytes into `buf`, moves the remaining ones to the
      front of the storage and lowers `bytesSet` by `n`. `buf` is the
      demuxer's buffer of at least `bufSize` bytes. */
  method ReadPacket(b: ClientBuffer, buf: seq<Byte>, bufSize: int) returns (n: int, buf': seq<Byte>, b': ClientBuffer)
    requires Valid(b) && bufSize <= |buf|
    ensures n == Min(bufSize, b.bytesSet)
    ensures |buf'| == |buf| && Valid(b')
    ensures n > 0 ==> buf'[..n] == Queued(b)[..n] && buf'[n..] == buf[n..]
    ensures n <= 0 ==> buf' == buf && b' == b
    ensures b' == Dequeue(b, bufSize).2
  {
    n := Min(bufSize, b.bytesSet);
    buf', b' := buf, b;
    if n > 0 {
      buf' := CopyFront(b.store, buf, n);
      var store := MoveDown(b.store, n, b.bytesSet);
      b' := ClientBuffer(store, b.bytesSet - n);
    }
  }

  /** The `memcpy` of `ReadPacket`: the first `n` stored bytes into `buf`. */
  method CopyFront(store: seq<Byte>, buf: seq<Byte>, n: int) returns (buf': seq<Byte>)
    requires 0 <= n <= |buf| && n <= |store|
    ensures |buf'| == |buf| && buf'[..n] == store[..n] && buf'[n..] == buf[n..]
  {
    buf' := buf;
    var k := 0;
    while k < n
      invariant 0 <= k <= n && |buf'| == |buf|
      invariant forall i :: 0 <= i < k ==> buf'[i] == store[i]
      invariant forall i :: k <= i < |buf| ==> buf'[i] == buf[i]
    {
      buf' := buf'[k := store[k]];
      k := k + 1;
    }
  }

  /** The `memmove` of `ReadPacket`: the `bytesSet - n` bytes after the
      first `n` move to the front; position `n + k` is read before any
      write reaches it, and the tail of the storage is left as it was. */
  method MoveDown(store: seq<Byte>, n: int, bytesSet: int) returns (store': seq<Byte>)
    requires 0 < n <= bytesSet <= |store|
    ensures store' == store[n..bytesSet] + store[bytesSet - n..]
  {
    store' := store;
    var remaining := bytesSet - n;
    var k := 0;
    while k < remaining
      invariant 0 <= k <= remaining && |store'| == |store|
      invariant forall i :: 0 <= i < k ==> store'[i] == store[n + i]
      invariant forall i :: k <= i < |store'| ==> store'[i] == store[i]
    {
      store' := store'[k := store'[n + k]];
      k := k + 1;
    }
  }

  /** What reaches the client's buffer: a binary message, or a read by the
      demuxer with its requested size. */
  datatype ClientEvent = Arrive(payload: seq<Byte>) | Read(bufSize: int)

  /** All payloads of a trace, concatenated in arrival order. */
  function Arrived(evs: seq<ClientEvent>): seq<Byte>
  {
    if |evs| == 0 then []
    else (if evs[0].Arrive? then evs[0].payload else []) + Arrived(evs[1..])
  }

  /** Replays a trace: `None` if some arrival overflowed (the process
      exits), otherwise the bytes handed to the demuxer and the final
      buffer. */
  function RunClient(b: ClientBuffer, evs: seq<ClientEvent>): (r: Option<(seq<Byte>, ClientBuffer)>)
    requires Valid(b)
    ensures r.Some? ==> Valid(r.value.1) && |r.value.1.store| == |b.store|
    decreases |evs|
  {
    if |evs| == 0 then Some(([], b))
    else match evs[0]
      case Arrive(p) =>
        (match Append(b, p)
          case None => None
          case Some(b1) => RunClient(b1, evs[1..]))
      case Read(k) =>
        var (_, out, b1) := Dequeue(b, k);
        (match RunClient(b1, evs[1..])
          case None => None
          case Some((d, b2)) => Some((out + d, b2)))
  }

  /** The buffer is a FIFO: whatever was delivered, followed by what is
      still queued, is exactly what was queued at the start followed by
      every payload in arrival order. Nothing is lost, duplicated or
      reordered. */
  lemma {:induction false} FifoOrder(b: ClientBuffer, evs: seq<ClientEvent>)
    requires Valid(b)
    ensures RunClient(b, evs).Some? ==>
      RunClient(b, evs).value.0 + Queued(RunClient(b, evs).value.1) == Queued(b) + Arrived(evs)
    decreases |evs|
  {
    if |evs| > 0 && RunClient(b, evs).Some? {
      var rest := evs[1..];
      match evs[0]
      case Arrive(p) =>
        var b1 := Append(b, p).value;
        assert RunClient(b, evs) == RunClient(b1, rest);
        assert Arrived(evs) == p + Arrived(rest);
        FifoOrder(b1, rest);
        var (d, b2) := RunClient(b1, rest).value;
        AppendAssoc(Queued(b), p, Arrived(rest), d + Queued(b2));
      case Read(k) =>
        var (_, out, b1) := Dequeue(b, k);
        var (d, b2) := RunClient(b1, rest).value;
        assert RunClient(b, evs) == Some((out + d, b2));
        assert Arrived(evs) == Arrived(rest);
        FifoOrder(b1, rest);
        assert Queued(b) == out + Queued(b1);
        ReadAssoc(out, Queued(b1), Arrived(rest), d, Queued(b2));
    }
  }

  lemma AppendAssoc(q: seq<Byte>, p: seq<Byte>, a: seq<Byte>, z: seq<Byte>)
    requires z == (q + p) + a
    ensures z == q + (p + a)
  {
  }

  lemma ReadAssoc(out: seq<Byte>, q1: seq<Byte>, a: seq<Byte>, d: seq<Byte>, q2: seq<Byte>)
    requires d + q2 == q1 + a
    ensures (out + d) + q2 == (out + q1) + a
  {
    assert (out + d) + q2 == out + (d + q2);
    assert out + (q1 + a) == (out + q1) + a;
  }

  // ---------------------------------------------------------------------
  // Server side

  /** The server's `IOOutput`: `outBuffer` of `maxSize` bytes and the
      number of bytes written since the last send. */
  datatype ServerBuffer = ServerBuffer(store: seq<Byte>, bytesSet: int, maxSize: int)

  predicate ServerValid(s: ServerBuffer)
  {
    |s.store| == s.maxSize && 0 <= s.bytesSet <= s.maxSize
  }

  /** The bytes waiting to be sent. */
  function Pending(s: ServerBuffer): seq<Byte>
    requires ServerValid(s)
  {
    s.store[..s.bytesSet]
  }

  /** The buffer `SendFrameLoop` sets up: `maxSize = 1000000`, nothing
      written. The storage contents are whatever `av_malloc` returned. */
  function FreshServer(store: seq<Byte>): (s: ServerBuffer)
    requires |store| == 1000000
    ensures ServerValid(s) && Pending(s) == [] && s.bytesSet < s.maxSize
  {
    ServerBuffer(store, 0, 1000000)
  }

  /** `VideoServer::WritePacket`: accepts the muxer's bytes only if they
      fit with room to spare (`buf_size + bytesSet < maxSize`, strict),
      returning their count; otherwise returns 0 and drops them. */
  method WritePacket(s: ServerBuffer, buf: seq<Byte>) returns (ret: int, s': ServerBuffer)
    requires ServerValid(s)
    ensures ServerValid(s') && s'.maxSize == s.maxSize
    ensures |buf| + s.bytesSet < s.maxSize ==> ret == |buf| && Pending(s') == Pending(s) + buf
    ensures |buf| + s.bytesSet >= s.maxSize ==> ret == 0 && s' == s
    ensures s.bytesSet < s.maxSize ==> s'.bytesSet < s'.maxSize
  {
    if |buf| + s.bytesSet < s.maxSize {
      var store := s.store;
      var k := 0;
      while k < |buf|
        invariant 0 <= k <= |buf| && |store| == |s.store|
        invariant store[..s.bytesSet] == s.store[..s.bytesSet]
        invariant forall i :: 0 <= i < k ==> store[s.bytesSet + i] == buf[i]
      {
        store := store[s.bytesSet + k := buf[k]];
        k := k + 1;
      }
      s' := s.(store := store, bytesSet := s.bytesSet + |buf|);
      assert Pending(s') == s.store[..s.bytesSet] + buf by {
        assert forall i :: 0 <= i < s.bytesSet ==> store[i] == s.store[..s.bytesSet][i];
      }
      ret := |buf|;
    } else {
      ret, s' := 0, s;
    }
  }

  /** After a send that returned normally `SendFrameLoop` empties the
      buffer. */
  function Sent(s: ServerBuffer): (s': ServerBuffer)
    requires ServerValid(s)
    ensures ServerValid(s') && Pending(s') == [] && s'.maxSize == s.maxSize
  {
    s.(bytesSet := 0)
  }

  /** What happens to the server buffer: the muxer writes a chunk, or the
      loop sends the buffer; `ok` says whether the websocket send returned
      normally. Only then is the buffer emptied: after a send that threw,
      the bytes stay and go out with the next frame. */
  datatype ServerEvent = Write(chunk: seq<Byte>) | Send(ok: bool)

  /** The server buffer seen as its contents only: from the messages sent
      so far and the pending bytes, the messages sent and the bytes left
      pending after `evs`. A chunk is kept exactly when it fits strictly
      below 1000000 bytes together with what is pending; a successful send
      ships everything pending as one message. */
  function ServerTrace(sent: seq<seq<Byte>>, pending: seq<Byte>, evs: seq<ServerEvent>): (r: (seq<seq<Byte>>, seq<Byte>))
    requires |pending| < 1000000 && forall m :: m in sent ==> |m| < 1000000
    ensures |r.1| < 1000000 && forall m :: m in r.0 ==> |m| < 1000000
    ensures |r.0| >= |sent| && r.0[..|sent|] == sent
    decreases |evs|
  {
    if |evs| == 0 then (sent, pending)
    else match evs[0]
      case Write(chunk) =>
        if |chunk| + |pending| < 1000000 then ServerTrace(sent, pending + chunk, evs[1..])
        else ServerTrace(sent, pending, evs[1..])
      case Send(ok) =>
        if ok then
          var r := ServerTrace(sent + [pending], [], evs[1..]);
          assert r.0[..|sent|] == r.0[..|sent + [pending]|][..|sent|];
          r
        else ServerTrace(sent, pending, evs[1..])
  }

  /** `SendFrameLoop`'s use of the buffer over a run of events, from a
      fresh buffer: the messages sent and the bytes left are those of the
      content-level trace, and `bytesSet < maxSize` holds throughout, so
      every sent message is shorter than 1000000 bytes. */
  method ServeEvents(store: seq<Byte>, evs: seq<ServerEvent>) returns (sent: seq<seq<Byte>>, s: ServerBuffer)
    requires |store| == 1000000
    ensures ServerValid(s) && s.maxSize == 1000000 && s.bytesSet < s.maxSize
    ensures forall m :: m in sent ==> |m| < 1000000
    ensures (sent, Pending(s)) == ServerTrace([], [], evs)
  {
    s := FreshServer(store);
    sent := [];
    var k := 0;
    while k < |evs|
      invariant 0 <= k <= |evs|
      invariant ServerValid(s) && s.maxSize == 1000000 && s.bytesSet < s.maxSize
      invariant forall m :: m in sent ==> |m| < 1000000
      invariant ServerTrace(sent, Pending(s), evs[k..]) == ServerTrace([], [], evs)
    {
      assert evs[k..][1..] == evs[k + 1..];
      match evs[k] {
        case Write(chunk) =>
          var _, s1 := WritePacket(s, chunk);
          s := s1;
        case Send(ok) =>
          if ok {
            sent := sent + [Pending(s)];
            s := Sent(s);
          }
      }
      k := k + 1;
    }
  }
}
