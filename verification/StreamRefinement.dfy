/**
 * What a connection's bytes mean: the event-driven machine refines "decode the whole stream, handle each frame in
 * order, concatenate the framed responses", however the bytes are cut on their way in and out.
 */
module StreamRefinement {
  import opened Bytes
  import opened Frames
  import opened ReusableBuffers
  import opened ConnectionModel

  /** When a frame was handled: the clock and the generator state, which other connections share. */
  datatype Tick = Tick(now: nat, rng: bv64)

  function Ticks(log: seq<Served>): (ticks: seq<Tick>)
    ensures |ticks| == |log|
    ensures forall i :: 0 <= i < |log| ==> ticks[i] == Tick(log[i].now, log[i].before)
  {
    seq(|log|, i requires 0 <= i < |log| => Tick(log[i].now, log[i].before))
  }

  /** The reference semantics on frames: reply to each in order, up to the first that gets no reply. */
  function Responses(engine: Engine, frames: seq<seq<byte>>, ticks: seq<Tick>): seq<seq<byte>> {
    if frames == [] || ticks == [] then []
    else match ReplyTo(engine, frames[0], ticks[0].now, ticks[0].rng)
      case None => []
      case Some(reply) => [reply] + Responses(engine, frames[1..], ticks[1..])
  }

  /** The reference semantics on bytes: decode everything, respond to every frame, frame the responses. */
  function Serve(engine: Engine, stream: seq<byte>, ticks: seq<Tick>): seq<byte> {
    FrameAll(Responses(engine, DecodeAll(stream, engine.maxFrame).frames, ticks))
  }

  lemma LogWithoutFirst(log: seq<Served>, more: seq<seq<byte>>)
    requires log != [] && log[0].reply.Some?
    ensures AnsweredPart(log[1..]) == AnsweredPart(log)[1..]
    ensures (Payloads(log) + more)[1..] == Payloads(log[1..]) + more
    ensures Ticks(log)[1..] == Ticks(log[1..])
    ensures Given(log) == [log[0].reply.value] + Given(log[1..])
  {
    var later := log[1..];
    assert AnsweredPart(later) == AnsweredPart(log)[1..] by {
      hide Payloads, Replies, Ticks;
      assert later != [] ==> later[|later| - 1] == log[|log| - 1];
    }
    assert Given(log) == [log[0].reply.value] + Given(later) by {
      hide Payloads, Ticks;
      RepliesWithoutFirst(AnsweredPart(log));
    }
  }

  lemma RepliesWithoutFirst(log: seq<Served>)
    requires log != [] && log[0].reply.Some?
    ensures Replies(log) == [log[0].reply.value] + Replies(log[1..])
  {}

  /** A log's replies are what the reference semantics answers to its payloads, whatever frames follow them. */
  lemma {:induction false} ResponsesOfLog(engine: Engine, log: seq<Served>, more: seq<seq<byte>>)
    requires AllGenuine(engine, log) && AllAnswered(AnsweredPart(log))
    ensures Responses(engine, Payloads(log) + more, Ticks(log)) == Given(log)
  {
    if log != [] {
      var e, later := log[0], log[1..];
      assert Genuine(engine, e);
      if e.reply.Some? {
        LogWithoutFirst(log, more);
        ResponsesOfLog(engine, later, more);
      } else {
        assert log == [e];
      }
    }
  }

  /** More frames or more ticks only ever add responses behind those there already are. */
  lemma {:induction false} ResponsesMonotone(engine: Engine, frames: seq<seq<byte>>, ticks: seq<Tick>,
                                             moreFrames: seq<seq<byte>>, moreTicks: seq<Tick>)
    ensures Responses(engine, frames, ticks) <= Responses(engine, frames + moreFrames, ticks + moreTicks)
  {
    if frames != [] && ticks != [] {
      ResponsesMonotone(engine, frames[1..], ticks[1..], moreFrames, moreTicks);
      assert (frames + moreFrames)[1..] == frames[1..] + moreFrames;
      assert (ticks + moreTicks)[1..] == ticks[1..] + moreTicks;
    }
  }

  /** The reference output only grows with the stream: what was right to send stays right, whatever arrives next. */
  lemma ServeMonotone(engine: Engine, stream: seq<byte>, ticks: seq<Tick>, more: seq<byte>, moreTicks: seq<Tick>)
    ensures Serve(engine, stream, ticks) <= Serve(engine, stream + more, ticks + moreTicks)
  {
    DecodePrefix(stream, more, engine.maxFrame);
    var a, b := DecodeAll(stream, engine.maxFrame).frames, DecodeAll(stream + more, engine.maxFrame).frames;
    assert b == a + b[|a|..];
    ResponsesMonotone(engine, a, ticks, b[|a|..], moreTicks);
    FrameAllPrefix(Responses(engine, a, ticks), Responses(engine, b, ticks + moreTicks));
  }

  /** The frames of everything received: those answered, then those still in the read buffer. */
  lemma FramesReceived(engine: Engine, c: Connection, log: seq<Served>)
    requires Accounted(engine, c, log)
    ensures DecodeAll(c.received, engine.maxFrame).frames
         == Taken(log) + DecodeAll(c.read.data, engine.maxFrame).frames
  {
    TakenGivenAcceptable(engine, log);
    DecodeFramed(Taken(log), c.read.data, engine.maxFrame);
  }

  /**
   * Stream refinement, open connections: the handled frames are a prefix of the frames of all bytes read, and what
   * was sent and staged is exactly the reference output. With no write pending nothing is missing: every frame
   * received has been handled and every byte of the reference output has been sent.
   */
  lemma OpenConnectionRefines(engine: Engine, c: Connection, log: seq<Served>)
    requires Settled(engine, c, log)
    ensures Payloads(log) <= DecodeAll(c.received, engine.maxFrame).frames
    ensures c.sent + c.write.data == Serve(engine, c.received, Ticks(log))
    ensures c.sent <= Serve(engine, c.received, Ticks(log))
    ensures !c.pending ==> Payloads(log) == DecodeAll(c.received, engine.maxFrame).frames
    ensures c.sent == Serve(engine, c.received, Ticks(log)) <==> !c.pending
  {
    FramesReceived(engine, c, log);
    ResponsesOfLog(engine, log, DecodeAll(c.read.data, engine.maxFrame).frames);
  }

  /** Stream refinement for a connection that took no unanswerable request, open or closed. */
  lemma AnsweredConnectionRefines(engine: Engine, c: Connection, log: seq<Served>)
    requires Accounted(engine, c, log) && AllAnswered(log)
    ensures Payloads(log) <= DecodeAll(c.received, engine.maxFrame).frames
    ensures c.sent + c.write.data == Serve(engine, c.received, Ticks(log))
  {
    FramesReceived(engine, c, log);
    ResponsesOfLog(engine, log, DecodeAll(c.read.data, engine.maxFrame).frames);
  }

  /** An unanswered last request is not taken: it is still the first buffered frame. */
  lemma UnansweredTaken(log: seq<Served>, buffered: seq<seq<byte>>)
    requires log != [] && log[|log| - 1].reply.None?
    requires buffered != [] && buffered[0] == log[|log| - 1].payload
    ensures Taken(log) + buffered == Payloads(log) + buffered[1..]
  {
    assert buffered == [buffered[0]] + buffered[1..];
    assert Payloads(log) == Taken(log) + [buffered[0]];
    ConcatAssociative(Taken(log), [buffered[0]], buffered[1..]);
  }

  /** Stream refinement for a connection closed over a request that gets no reply: it was the next frame. */
  lemma UnansweredConnectionRefines(engine: Engine, c: Connection, log: seq<Served>)
    requires ClosedFor(engine, c, log, NotAnswered)
    ensures Payloads(log) <= DecodeAll(c.received, engine.maxFrame).frames
    ensures c.sent == Serve(engine, c.received, Ticks(log))
  {
    var buffered := DecodeAll(c.read.data, engine.maxFrame).frames;
    FramesReceived(engine, c, log);
    UnansweredTaken(log, buffered);
    assert c.sent == FrameAll(Given(log)) by {
      assert c.sent + c.write.data == c.sent;
    }
    ResponsesOfLog(engine, log, buffered[1..]);
  }

  /** The reasons for which a connection is closed with a response possibly still unsent. */
  predicate MayLoseOutput(reason: CloseReason) {
    reason.PeerHangup? || reason.WriteFailed? || reason.InterestUpdateFailed? || reason.RegistrationFailed?
  }

  /**
   * Stream refinement, closed connections: what was sent is a prefix of the reference output, whatever the reason; and
   * it is all of it exactly when the write queue was empty, as it always is unless the socket or epoll gave up.
   * At end of stream every complete frame received has been answered.
   */
  lemma ClosedConnectionRefines(engine: Engine, c: Connection, log: seq<Served>, reason: CloseReason)
    requires ClosedFor(engine, c, log, reason)
    ensures Payloads(log) <= DecodeAll(c.received, engine.maxFrame).frames
    ensures c.sent <= Serve(engine, c.received, Ticks(log))
    ensures c.sent == Serve(engine, c.received, Ticks(log)) <==> c.write.data == []
    ensures !MayLoseOutput(reason) ==> c.sent == Serve(engine, c.received, Ticks(log))
    ensures reason.EndOfStream? ==> Payloads(log) == DecodeAll(c.received, engine.maxFrame).frames
  {
    if reason.NotAnswered? {
      UnansweredConnectionRefines(engine, c, log);
    } else {
      AnsweredConnectionRefines(engine, c, log);
      FramesReceived(engine, c, log);
    }
  }

  /**
   * A response can be lost: a peer hanging up while a response waits gets nothing of it. For every request that
   * gets a reply there is such a run: it arrives, it is answered, the peer hangs up, and nothing was sent.
   */
  lemma HangupLosesResponse(engine: Engine, id: nat, rng: bv64, now: nat, payload: seq<byte>)
    requires Acceptable(payload, engine.maxFrame) && FitsBuffer(engine, payload)
    requires ReplyTo(engine, payload, now, rng).Some?
    ensures var s := HandleEvent(engine, Opened(engine, id), rng, WholeRequest(payload, now));
            var t := HandleEvent(engine, s.conn, s.rng, ClientEvent(true, true, [], true, [], true, now));
            && s.verdict == PauseForWrite && t.verdict == CloseConnection(PeerHangup)
            && t.conn.sent == [] && t.conn.write.data == FrameOf(ReplyTo(engine, payload, now, rng).value)
  {
    WholeRequestServed(engine, Opened(engine, id), rng, now, payload);
  }

  /** Whether a hang-up loses output can be told beforehand: exactly when a write is pending. */
  lemma HangupLosesOutputIffPending(engine: Engine, c: Connection, log: seq<Served>, rng: bv64, ev: ClientEvent)
    requires Settled(engine, c, log) && ev.hangup
    ensures var s := HandleEvent(engine, c, rng, ev);
            && s.verdict == CloseConnection(PeerHangup) && s.served == []
            && (s.conn.sent == Serve(engine, s.conn.received, Ticks(log)) <==> !c.pending)
  {
    OpenConnectionRefines(engine, c, log);
  }

  /** An event that brings a framed request in one piece. */
  function WholeRequest(payload: seq<byte>, now: nat): ClientEvent {
    ClientEvent(false, false, [], true, [Arrived(FrameOf(payload))], true, now)
  }

  lemma WholeRequestServed(engine: Engine, c: Connection, rng: bv64, now: nat, payload: seq<byte>)
    requires !c.pending && c.read == BufferModel(0, [], engine.capacity) && c.write.data == []
    requires Acceptable(payload, engine.maxFrame) && FitsBuffer(engine, payload)
    ensures var s := HandleEvent(engine, c, rng, WholeRequest(payload, now));
            s == ProcessReady(engine, Filled(c, FrameOf(payload)), rng, now, true).(arrivals := 1)
            && s.served != [] && s.served[0].payload == payload
            && s.served[0].reply == ReplyTo(engine, payload, now, rng)
  {
    ExtractFramed(payload, [], engine.maxFrame);
    var frame := FrameOf(payload);
    assert frame + [] == frame;
    assert frame[..Min(|frame|, c.read.Room())] == frame;
    assert Filled(c, frame).read.data == frame;
  }

  // ---- "Read buffer is full" ----

  /**
   * Soundness of the limit: a connection is closed for a full read buffer only when the frame at the head of it,
   * whatever it turns out to be, does not fit into the buffer with its header.
   */
  lemma FullBufferMeansOversizedFrame(engine: Engine, c: Connection, log: seq<Served>,
                                      payload: seq<byte>, tail: seq<byte>)
    requires ClosedFor(engine, c, log, ReadBufferFull)
    requires Acceptable(payload, engine.maxFrame) && c.read.data <= FrameOf(payload) + tail
    ensures HEADER_SIZE + |payload| > engine.capacity
  {
    if HEADER_SIZE + |payload| <= engine.capacity {
      var data := FrameOf(payload) + tail;
      ExtractFramed(payload, tail, engine.maxFrame);
      var rest := c.read.data[HEADER_SIZE + |payload|..];
      assert c.read.data == FrameOf(payload) + rest;
      ExtractFramed(payload, rest, engine.maxFrame);
      assert false;
    }
  }

  /** A request whose last byte has been received. */
  predicate HasArrived(requests: seq<seq<byte>>, received: seq<byte>, k: nat)
    requires k < |requests|
  {
    |FrameAll(requests[..k + 1])| <= |received|
  }

  predicate FirstFit(engine: Engine, requests: seq<seq<byte>>, n: nat)
    requires n <= |requests|
  {
    forall j :: 0 <= j < n ==> FitsBuffer(engine, requests[j])
  }

  /** The peer has sent framed requests, each of a length the configuration allows, however they were cut on the way. */
  predicate SendsRequests(engine: Engine, requests: seq<seq<byte>>, received: seq<byte>) {
    AllAcceptable(requests, engine.maxFrame) && received <= FrameAll(requests)
  }

  /** The logged requests of such a peer are its first ones; they have arrived, and all of them fit into the buffer. */
  lemma ServedRequestsFit(engine: Engine, c: Connection, log: seq<Served>, requests: seq<seq<byte>>)
    requires AllGenuine(engine, log) && SendsRequests(engine, requests, c.received)
    requires Payloads(log) <= DecodeAll(c.received, engine.maxFrame).frames
    ensures Payloads(log) <= requests && FirstFit(engine, requests, |log|)
    ensures forall k :: 0 <= k < |log| ==> HasArrived(requests, c.received, k)
  {
    hide FrameAll, Extract, DecodeAll;
    PrefixNeverMisframed(c.received, requests, engine.maxFrame);
    forall k | 0 <= k < |log|
      ensures FitsBuffer(engine, requests[k]) && HasArrived(requests, c.received, k)
    {
      assert Genuine(engine, log[k]) && Payloads(log)[k] == requests[k];
      ArrivedPayloads(c.received, requests, engine.maxFrame, k);
    }
  }

  /** With every frame received handled, a request is served exactly if it and all before it fit and it has arrived. */
  lemma ServedIffFitsAndArrived(engine: Engine, c: Connection, log: seq<Served>, requests: seq<seq<byte>>, k: nat)
    requires AllGenuine(engine, log) && SendsRequests(engine, requests, c.received) && k < |requests|
    requires Payloads(log) == DecodeAll(c.received, engine.maxFrame).frames
    ensures k < |log| <==> FirstFit(engine, requests, k + 1) && HasArrived(requests, c.received, k)
  {
    hide FrameAll, Extract, DecodeAll;
    ServedRequestsFit(engine, c, log, requests);
    ArrivedPayloads(c.received, requests, engine.maxFrame, k);
  }

  /** What such a peer's connection has buffered is the start of the requests that follow those answered. */
  lemma BufferedRequests(engine: Engine, c: Connection, log: seq<Served>, requests: seq<seq<byte>>)
    requires Accounted(engine, c, log) && AllAnswered(log) && SendsRequests(engine, requests, c.received)
    ensures |log| <= |requests| && Payloads(log) == requests[..|log|]
    ensures |c.received| == |FrameAll(requests[..|log|])| + |c.read.data|
    ensures c.read.data <= FrameAll(requests[|log|..])
  {
    hide FrameAll, Extract, Given;
    TakenGivenAcceptable(engine, log);
    assert Taken(log) == Payloads(log);
    FramesRest(Payloads(log), c.read.data, requests, engine.maxFrame);
  }

  predicate ClosedOnReading(reason: CloseReason) {
    reason.ReadBufferFull? || reason.EndOfStream? || reason.ReadFailed?
  }

  /**
   * Where a connection to such a peer ends over a request's length. It is never closed for a bad length. It is closed
   * for a full buffer only at the first request that does not fit, and, of the closes on reading, exactly when a whole
   * buffer of it has been received.
   */
  lemma OversizedRequestCloses(engine: Engine, c: Connection, log: seq<Served>, reason: CloseReason,
                               requests: seq<seq<byte>>)
    requires ClosedFor(engine, c, log, reason) && SendsRequests(engine, requests, c.received)
    ensures reason != BadLength
    ensures reason == ReadBufferFull && engine.capacity > 0 ==>
              |log| < |requests| && FirstFit(engine, requests, |log|) && !FitsBuffer(engine, requests[|log|])
    ensures ClosedOnReading(reason) ==>
              |log| <= |requests|
              && (reason == ReadBufferFull <==> |c.received| == |FrameAll(requests[..|log|])| + engine.capacity)
  {
    if ClosedOnReading(reason) || reason == BadLength {
      hide FrameAll, Extract, Given;
      BufferedRequests(engine, c, log, requests);
      var others := requests[|log|..];
      if reason == BadLength {
        HeadNeverInvalid(c.read.data, FrameAll(others)[|c.read.data|..], others, engine.maxFrame);
      }
      if reason == ReadBufferFull && engine.capacity > 0 {
        FullBufferAtRequest(engine, c, log, requests);
      }
    }
  }

  lemma FullBufferAtRequest(engine: Engine, c: Connection, log: seq<Served>, requests: seq<seq<byte>>)
    requires ClosedFor(engine, c, log, ReadBufferFull) && SendsRequests(engine, requests, c.received)
    requires engine.capacity > 0
    ensures |log| < |requests| && FirstFit(engine, requests, |log|) && !FitsBuffer(engine, requests[|log|])
  {
    hide FrameOf, Extract, DecodeAll, Serve;
    BufferedRequests(engine, c, log, requests);
    AnsweredConnectionRefines(engine, c, log);
    ServedRequestsFit(engine, c, log, requests);
    var others := requests[|log|..];
    assert others != [];
    FullBufferMeansOversizedFrame(engine, c, log, others[0], FrameAll(others[1..]));
  }

  /** An open connection with nothing pending never holds a whole buffer of an unfinished request. */
  lemma OversizedRequestNeverHeld(engine: Engine, c: Connection, log: seq<Served>, requests: seq<seq<byte>>)
    requires Settled(engine, c, log) && !c.pending && engine.capacity > 0 && SendsRequests(engine, requests, c.received)
    ensures |log| <= |requests| && |c.received| < |FrameAll(requests[..|log|])| + engine.capacity
  {
    BufferedRequests(engine, c, log, requests);
  }

  /**
   * The frame limit of the configuration is not the limit a client meets: whenever a connection waits with an empty
   * buffer and the next request arrives in one piece, it is served exactly if it fits into the buffer with its header;
   * any other closes the connection, although its length is legal. (With the default 16 KiB buffer and 64 KiB limit:
   * every payload of more than 16380 bytes.)
   */
  lemma RequestServedIffItFits(engine: Engine, c: Connection, log: seq<Served>, rng: bv64, now: nat, payload: seq<byte>)
    requires Quiet(engine, c, log) && !c.pending && c.read == BufferModel(0, [], engine.capacity)
    requires Acceptable(payload, engine.maxFrame)
    ensures var s := HandleEvent(engine, c, rng, WholeRequest(payload, now));
            && (s.served != [] <==> FitsBuffer(engine, payload))
            && (s.served != [] ==> s.served[0].payload == payload)
            && (s.served == [] ==> s.verdict == CloseConnection(ReadBufferFull))
  {
    if FitsBuffer(engine, payload) {
      WholeRequestServed(engine, c, rng, now, payload);
    } else {
      OversizedRequest(engine, c, rng, now, payload);
    }
  }

  lemma UnfinishedFrame(payload: seq<byte>, n: nat, maxFrame: nat)
    requires Acceptable(payload, maxFrame) && n < |FrameOf(payload)|
    ensures Extract(FrameOf(payload)[..n], maxFrame) == NeedMoreData
  {
    if HEADER_SIZE <= n {
      HeaderRoundTrip(|payload|, HeaderOf(|payload|));
      assert FrameOf(payload)[..n][..HEADER_SIZE] == HeaderOf(|payload|);
    }
  }

  lemma OversizedRequest(engine: Engine, c: Connection, rng: bv64, now: nat, payload: seq<byte>)
    requires !c.pending && c.read == BufferModel(0, [], engine.capacity) && c.write.data == []
    requires Acceptable(payload, engine.maxFrame) && !FitsBuffer(engine, payload)
    ensures var s := HandleEvent(engine, c, rng, WholeRequest(payload, now));
            s.served == [] && s.verdict == CloseConnection(ReadBufferFull)
  {
    var frame := FrameOf(payload);
    if engine.capacity > 0 {
      var chunk := frame[..Min(|frame|, c.read.Room())];
      var filled := Filled(c, chunk);
      assert filled.read.data == chunk && |chunk| == engine.capacity;
      UnfinishedFrame(payload, |chunk|, engine.maxFrame);
      assert ReadLoop(engine, filled, rng, [], now, true).verdict == CloseConnection(ReadBufferFull);
      assert [Arrived(frame)][1..] == [];
    }
  }
}
