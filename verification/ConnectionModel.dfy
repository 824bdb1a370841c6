/**
 * One connection of the worker as a state machine over values: what each of its operations does to the two
 * byte queues, the pending-write flag, the epoll interest and the byte streams the kernel has seen. The classes
 * of WorkerRuntime refine these functions; what the engine promises about a connection is proved here.
 */
module ConnectionModel {
  import opened Bytes
  import opened Frames
  import opened ReusableBuffers
  import opened ResponseFraming

  // ---- Oracles: what the kernel answers, in the order it is asked. A list that runs out answers "would block". ----

  /** `read`: the bytes that have arrived (cut to the room offered; no bytes at all means end of stream), or errno. */
  datatype ReadAnswer = Arrived(bytes: seq<byte>) | ReadWouldBlock | ReadInterrupted | ReadError

  /** `write`: how many bytes the kernel is willing to take (cut to what is offered), or errno. */
  datatype WriteAnswer = Accepts(count: nat) | WriteWouldBlock | WriteInterrupted | WriteError

  /** One readiness event on a connection, with the answers to every call made while it is handled. */
  datatype ClientEvent = ClientEvent(
    hangup: bool,                // EPOLLERR, EPOLLHUP or EPOLLRDHUP
    writable: bool,              // EPOLLOUT
    writeAnswers: seq<WriteAnswer>,
    flushUpdate: bool,           // whether epoll_ctl succeeds after a flush
    readAnswers: seq<ReadAnswer>,
    stageUpdate: bool,           // whether epoll_ctl succeeds after a response is staged
    now: nat)                    // the clock when a request is handled

  /** What handling one frame gives: the serialised response, or none to drop the client; and the generator after it. */
  datatype Handling = Handling(reply: Option<seq<byte>>, rng: bv64)

  type Handler = (seq<byte>, nat, bv64) -> Handling

  datatype Engine = Engine(capacity: nat, maxFrame: nat, handler: Handler)

  /** A frame's payload handled at a time, the generator being in a state. */
  function Handle(engine: Engine, payload: seq<byte>, now: nat, rng: bv64): Handling {
    engine.handler(payload, now, rng)
  }

  /** The reply that can be staged for it: the handler's, if its size is allowed. */
  function ReplyTo(engine: Engine, payload: seq<byte>, now: nat, rng: bv64): Option<seq<byte>> {
    var reply := Handle(engine, payload, now, rng).reply;
    if reply.Some? && Stageable(reply.value) then reply else None
  }

  // ---- State ----

  datatype Connection = Connection(
    id: nat,
    read: BufferModel,
    write: BufferModel,
    pending: bool,               // has_pending_write
    wantsWrite: bool,            // EPOLLOUT is in the interest set
    received: seq<byte>,         // every byte read so far
    sent: seq<byte>)             // every byte the kernel has accepted so far

  /** One handled request, as the worker's log records it. */
  datatype Served = Served(conn: nat, payload: seq<byte>, now: nat, before: bv64, reply: Option<seq<byte>>, after: bv64)

  datatype CloseReason =
    | PeerHangup | WriteFailed | InterestUpdateFailed | BadLength | NotAnswered
    | ReadBufferFull | EndOfStream | ReadFailed | RegistrationFailed

  datatype Verdict = Proceed | PauseForWrite | CloseConnection(reason: CloseReason)

  /** The outcome of handling something on a connection; `arrivals` counts the reads that brought data. */
  datatype Step = Step(conn: Connection, rng: bv64, served: seq<Served>, verdict: Verdict, arrivals: nat)

  function Opened(engine: Engine, id: nat): Connection {
    Connection(id, BufferModel(0, [], engine.capacity), BufferModel(0, [], engine.capacity), false, false, [], [])
  }

  // ---- Operations ----

  /** The write loop of flush_pending_write. */
  function WriteLoop(c: Connection, writes: seq<WriteAnswer>): (r: (Connection, bool))
    decreases |writes|
  {
    if c.write.data == [] || writes == [] then (c, true)
    else match writes[0]
      case Accepts(count) =>
        var n := Min(count, |c.write.data|);
        if n == 0 then (c, false)
        else WriteLoop(c.(write := c.write.Consumed(n), sent := c.sent + c.write.data[..n]), writes[1..])
      case WriteInterrupted => WriteLoop(c, writes[1..])
      case WriteWouldBlock => (c, true)
      case WriteError => (c, false)
  }

  /** flush_pending_write: the connection after it, and why it must be closed, if it must. */
  function Flush(c: Connection, writes: seq<WriteAnswer>, updateOk: bool): (r: (Connection, Verdict)) {
    var (written, ok) := WriteLoop(c, writes);
    if !ok then (written, CloseConnection(WriteFailed))
    else
      var flagged := written.(pending := written.write.data != []);
      if updateOk then (flagged.(wantsWrite := flagged.pending), Proceed)
      else (flagged, CloseConnection(InterestUpdateFailed))
  }

  /** process_ready_frames: handles at most one buffered frame. */
  function ProcessReady(engine: Engine, c: Connection, rng: bv64, now: nat, updateOk: bool): Step {
    match Extract(c.read.data, engine.maxFrame)
    case NeedMoreData => Step(c, rng, [], Proceed, 0)
    case InvalidLength => Step(c, rng, [], CloseConnection(BadLength), 0)
    case FrameReady(payload) =>
      var after := Handle(engine, payload, now, rng).rng;
      var reply := if c.write.data == [] then ReplyTo(engine, payload, now, rng) else None;
      var entry := Served(c.id, payload, now, rng, reply, after);
      match reply
      case None => Step(c, after, [entry], CloseConnection(NotAnswered), 0)
      case Some(bytes) =>
        var staged := c.(write := Staged(c.write, bytes),
                         read := c.read.Consumed(HEADER_SIZE + |payload|),
                         pending := true);
        if updateOk then Step(staged.(wantsWrite := true), after, [entry], PauseForWrite, 0)
        else Step(staged, after, [entry], CloseConnection(InterestUpdateFailed), 0)
  }

  /** The buffer a read goes into: compacted when there is no room behind the unread bytes. */
  function MakeRoom(b: BufferModel): (r: BufferModel)
    ensures r.data == b.data && r.size == b.size && (b.Room() > 0 ==> r == b)
    ensures b.Valid() ==> r.Valid() && (r.Room() == 0 ==> |r.data| == r.size)
  {
    if b.Room() == 0 then b.Compacted() else b
  }

  /** A chunk that was read and committed. */
  function Filled(c: Connection, chunk: seq<byte>): Connection {
    c.(read := c.read.Appended(chunk), received := c.received + chunk)
  }

  /** One turn of the read loop: it goes on with a connection, or it ends with a step. */
  datatype Turn = GoOn(conn: Connection, arrivals: nat) | Stop(step: Step)

  function ReadTurn(engine: Engine, c: Connection, rng: bv64, answers: seq<ReadAnswer>, now: nat, updateOk: bool)
    : (t: Turn)
    ensures t.GoOn? ==> answers != []
  {
    var roomy := c.(read := MakeRoom(c.read));
    if roomy.read.Room() == 0 then Stop(Step(roomy, rng, [], CloseConnection(ReadBufferFull), 0))
    else if answers == [] then Stop(Step(roomy, rng, [], Proceed, 0))
    else match answers[0]
      case Arrived(bytes) =>
        if bytes == [] then Stop(Step(roomy, rng, [], CloseConnection(EndOfStream), 0))
        else
          var filled := Filled(roomy, bytes[..Min(|bytes|, roomy.read.Room())]);
          var s := ProcessReady(engine, filled, rng, now, updateOk);
          if s.verdict == Proceed then GoOn(s.conn, 1) else Stop(s.(arrivals := 1))
      case ReadInterrupted => GoOn(roomy, 0)
      case ReadWouldBlock => Stop(Step(roomy, rng, [], Proceed, 0))
      case ReadError => Stop(Step(roomy, rng, [], CloseConnection(ReadFailed), 0))
  }

  /** The read loop of a readiness event. */
  function ReadLoop(engine: Engine, c: Connection, rng: bv64, answers: seq<ReadAnswer>, now: nat, updateOk: bool): Step
    decreases |answers|
  {
    match ReadTurn(engine, c, rng, answers, now, updateOk)
    case Stop(s) => s
    case GoOn(d, arrivals) =>
      var rest := ReadLoop(engine, d, rng, answers[1..], now, updateOk);
      rest.(arrivals := rest.arrivals + arrivals)
  }

  /** From the buffered frames on: what an event does once no write is pending. */
  function ServeAndRead(engine: Engine, c: Connection, rng: bv64, ev: ClientEvent): Step
  {
    var s := ProcessReady(engine, c, rng, ev.now, ev.stageUpdate);
    if s.verdict == Proceed then ReadLoop(engine, s.conn, s.rng, ev.readAnswers, ev.now, ev.stageUpdate) else s
  }

  /** The client branch of the event loop. */
  function HandleEvent(engine: Engine, c: Connection, rng: bv64, ev: ClientEvent): Step
  {
    if ev.hangup then Step(c, rng, [], CloseConnection(PeerHangup), 0)
    else if !c.pending then ServeAndRead(engine, c, rng, ev)
    else if !ev.writable then Step(c, rng, [], Proceed, 0)
    else
      var (flushed, verdict) := Flush(c, ev.writeAnswers, ev.flushUpdate);
      if verdict != Proceed then Step(flushed, rng, [], verdict, 0)
      else if flushed.pending then Step(flushed, rng, [], Proceed, 0)
      else ServeAndRead(engine, flushed, rng, ev)
  }

  lemma {:induction false} WriteLoopKeepsRead(c: Connection, writes: seq<WriteAnswer>)
    ensures var d := WriteLoop(c, writes).0;
            d.read == c.read && d.id == c.id && d.received == c.received
            && d.pending == c.pending && d.wantsWrite == c.wantsWrite && c.sent <= d.sent
    decreases |writes|
  {
    if c.write.data != [] && writes != [] {
      match writes[0]
      case Accepts(count) =>
        var n := Min(count, |c.write.data|);
        if n > 0 {
          var d := c.(write := c.write.Consumed(n), sent := c.sent + c.write.data[..n]);
          assert c.sent <= d.sent;
          WriteLoopKeepsRead(d, writes[1..]);
        }
      case WriteInterrupted => WriteLoopKeepsRead(c, writes[1..]);
      case _ =>
    }
  }

  // ---- What a log says was taken from and given to a connection ----

  function Payloads(log: seq<Served>): (payloads: seq<seq<byte>>)
    ensures |payloads| == |log|
    ensures forall i :: 0 <= i < |log| ==> payloads[i] == log[i].payload
  {
    seq(|log|, i requires 0 <= i < |log| => log[i].payload)
  }

  function Replies(log: seq<Served>): (replies: seq<seq<byte>>)
    ensures |replies| == |log|
    ensures forall i :: 0 <= i < |log| && log[i].reply.Some? ==> replies[i] == log[i].reply.value
  {
    seq(|log|, i requires 0 <= i < |log| => if log[i].reply.Some? then log[i].reply.value else [])
  }

  /** The log without its last entry if that one got no reply. */
  function AnsweredPart(log: seq<Served>): seq<Served> {
    if log != [] && log[|log| - 1].reply.None? then log[..|log| - 1] else log
  }

  /** The payloads taken from the connection: those of the answered requests, in order. */
  function Taken(log: seq<Served>): seq<seq<byte>> {
    Payloads(AnsweredPart(log))
  }

  /** The responses given to the connection, in order. */
  function Given(log: seq<Served>): seq<seq<byte>> {
    Replies(AnsweredPart(log))
  }

  /** A frame with this payload fits into the read buffer. */
  predicate FitsBuffer(engine: Engine, payload: seq<byte>) {
    HEADER_SIZE + |payload| <= engine.capacity
  }

  /**
   * A log entry is what the handler really does with an acceptable frame that fits into the read buffer; only a reply
   * of a stageable size is given.
   */
  predicate Genuine(engine: Engine, e: Served) {
    && Acceptable(e.payload, engine.maxFrame) && FitsBuffer(engine, e.payload)
    && e.after == Handle(engine, e.payload, e.now, e.before).rng
    && e.reply == ReplyTo(engine, e.payload, e.now, e.before)
  }

  predicate AllGenuine(engine: Engine, log: seq<Served>) {
    forall i :: 0 <= i < |log| ==> Genuine(engine, log[i])
  }

  predicate AllAnswered(log: seq<Served>) {
    forall i :: 0 <= i < |log| ==> log[i].reply.Some?
  }

  /**
   * Conservation, open or closed: every byte received belongs to an answered frame or is still buffered, and every
   * byte staged has been sent or is still buffered.
   */
  predicate Accounted(engine: Engine, c: Connection, log: seq<Served>) {
    && c.read.Valid() && c.read.size == engine.capacity && c.write.Valid()
    && AllGenuine(engine, log) && AllAnswered(AnsweredPart(log))
    && c.received == FrameAll(Taken(log)) + c.read.data
    && c.sent + c.write.data == FrameAll(Given(log))
  }

  /** The flag, the write queue and the interest set agree, and nothing is stranded in the read queue. */
  predicate Quiet(engine: Engine, c: Connection, log: seq<Served>) {
    && Accounted(engine, c, log)
    && AllAnswered(log)
    && (c.pending <==> c.write.data != [])
    && (c.pending <==> c.wantsWrite)
    && (!c.pending ==> Extract(c.read.data, engine.maxFrame) == NeedMoreData)
  }

  /** Between events: quiet, and a connection that may read has room to read into, unless it has no buffer at all. */
  predicate Settled(engine: Engine, c: Connection, log: seq<Served>) {
    && Quiet(engine, c, log)
    && (c.pending || engine.capacity == 0 || |c.read.data| < engine.capacity)
  }

  /** What is known of a connection that was closed for a reason. */
  predicate ClosedFor(engine: Engine, c: Connection, log: seq<Served>, reason: CloseReason) {
    && Accounted(engine, c, log)
    && match reason
       case PeerHangup => AllAnswered(log)
       case WriteFailed => AllAnswered(log)
       case InterestUpdateFailed => AllAnswered(log)
       case RegistrationFailed => AllAnswered(log)
       case BadLength =>
         AllAnswered(log) && c.write.data == [] && Extract(c.read.data, engine.maxFrame) == InvalidLength
       case NotAnswered =>
         && log != [] && log[|log| - 1].reply.None? && c.write.data == []
         && Extract(c.read.data, engine.maxFrame) == FrameReady(log[|log| - 1].payload)
       case ReadBufferFull =>
         && AllAnswered(log) && c.write.data == [] && Extract(c.read.data, engine.maxFrame) == NeedMoreData
         && |c.read.data| == engine.capacity
       case EndOfStream =>
         && AllAnswered(log) && c.write.data == [] && Extract(c.read.data, engine.maxFrame) == NeedMoreData
         && |c.read.data| < engine.capacity
       case ReadFailed =>
         && AllAnswered(log) && c.write.data == [] && Extract(c.read.data, engine.maxFrame) == NeedMoreData
         && |c.read.data| < engine.capacity
  }

  lemma TakenGivenAppend(log: seq<Served>, e: Served)
    requires AllAnswered(log)
    ensures Taken(log + [e]) == if e.reply.Some? then Taken(log) + [e.payload] else Taken(log)
    ensures Given(log + [e]) == if e.reply.Some? then Given(log) + [e.reply.value] else Given(log)
  {
    assert (log + [e])[..|log|] == log;
    assert Payloads(log + [e]) == Payloads(log) + [e.payload];
    assert e.reply.Some? ==> Replies(log + [e]) == Replies(log) + [e.reply.value];
  }

  lemma TakenGivenAcceptable(engine: Engine, log: seq<Served>)
    requires AllGenuine(engine, log) && AllAnswered(AnsweredPart(log))
    ensures AllAcceptable(Taken(log), engine.maxFrame)
    ensures AllAcceptable(Given(log), MAX_OUTBOUND_FRAME_SIZE)
  {
    var part := AnsweredPart(log);
    forall i | 0 <= i < |part|
      ensures Acceptable(Taken(log)[i], engine.maxFrame) && Acceptable(Given(log)[i], MAX_OUTBOUND_FRAME_SIZE)
    {
      assert Genuine(engine, log[i]) && part[i] == log[i];
    }
  }

  // ---- Every operation keeps the books ----

  lemma {:induction false} WriteLoopConserves(c: Connection, writes: seq<WriteAnswer>)
    requires c.write.Valid()
    ensures var d := WriteLoop(c, writes).0;
            d.write.Valid() && d.sent + d.write.data == c.sent + c.write.data
    decreases |writes|
  {
    if c.write.data != [] && writes != [] {
      match writes[0]
      case Accepts(count) =>
        var n := Min(count, |c.write.data|);
        if n > 0 {
          var d := c.(write := c.write.Consumed(n), sent := c.sent + c.write.data[..n]);
          assert c.write.data == c.write.data[..n] + d.write.data;
          WriteLoopConserves(d, writes[1..]);
        }
      case WriteInterrupted => WriteLoopConserves(c, writes[1..]);
      case _ =>
    }
  }

  /**
   * What holds after a step from a connection with no write pending: the books are kept, the verdict tells the
   * truth, at most one request was handled, and the reads that brought data fit into the buffer's free room.
   */
  predicate Kept(engine: Engine, room: nat, log: seq<Served>, s: Step) {
    && |s.served| <= 1
    && s.arrivals <= room
    && match s.verdict
       case Proceed => s.served == [] && Settled(engine, s.conn, log)
       case PauseForWrite => Settled(engine, s.conn, log + s.served)
       case CloseConnection(reason) => ClosedFor(engine, s.conn, log + s.served, reason)
  }

  /** Answering the frame at the head of the queue moves its bytes from "buffered" to "answered". */
  lemma AnsweringKeepsBooks(engine: Engine, c: Connection, log: seq<Served>, e: Served)
    requires Accounted(engine, c, log) && AllAnswered(log) && c.write.data == [] && Genuine(engine, e) && e.reply.Some?
    requires Extract(c.read.data, engine.maxFrame) == FrameReady(e.payload)
    ensures c.received == FrameAll(Taken(log + [e])) + c.read.Consumed(HEADER_SIZE + |e.payload|).data
    ensures c.sent + FrameOf(e.reply.value) == FrameAll(Given(log + [e]))
  {
    var rest := c.read.Consumed(HEADER_SIZE + |e.payload|).data;
    assert c.read.data == FrameOf(e.payload) + rest by {
      ExtractSound(c.read.data, engine.maxFrame);
    }
    assert c.sent == FrameAll(Given(log));
    TakenGivenAppend(log, e);
    FrameAllAppend(Taken(log), e.payload);
    FrameAllAppend(Given(log), e.reply.value);
    ConcatAssociative(FrameAll(Taken(log)), FrameOf(e.payload), rest);
  }

  /** The connection after the reply to the frame at its head is staged. */
  function Answered(c: Connection, e: Served, wantsWrite: bool): Connection
    requires e.reply.Some?
  {
    c.(write := Staged(c.write, e.reply.value), read := c.read.Consumed(HEADER_SIZE + |e.payload|),
       pending := true, wantsWrite := wantsWrite)
  }

  lemma AppendingToLog(engine: Engine, log: seq<Served>, e: Served)
    requires AllGenuine(engine, log) && AllAnswered(log) && Genuine(engine, e)
    ensures AllGenuine(engine, log + [e])
    ensures (log + [e])[..|log|] == log
    ensures e.reply.Some? ==> AllAnswered(log + [e])
  {}

  lemma AnsweredConnectionAccounted(engine: Engine, c: Connection, log: seq<Served>, e: Served, wantsWrite: bool)
    requires Accounted(engine, c, log) && AllAnswered(log) && c.write.data == [] && Genuine(engine, e) && e.reply.Some?
    requires Extract(c.read.data, engine.maxFrame) == FrameReady(e.payload)
    ensures var d := Answered(c, e, wantsWrite);
            Accounted(engine, d, log + [e]) && AllAnswered(log + [e]) && d.write.data != []
  {
    hide Extract, FrameAll, Taken, Given, Genuine;
    AnsweringKeepsBooks(engine, c, log, e);
    AppendingToLog(engine, log, e);
  }

  lemma UnansweredConnectionClosed(engine: Engine, c: Connection, log: seq<Served>, e: Served)
    requires Accounted(engine, c, log) && AllAnswered(log) && c.write.data == [] && Genuine(engine, e) && e.reply.None?
    requires Extract(c.read.data, engine.maxFrame) == FrameReady(e.payload)
    ensures ClosedFor(engine, c, log + [e], NotAnswered)
  {
    AppendingToLog(engine, log, e);
    TakenGivenAppend(log, e);
  }

  lemma ProcessLogsGenuinely(engine: Engine, c: Connection, rng: bv64, now: nat, updateOk: bool)
    requires c.read.Valid() && c.read.size == engine.capacity
    requires Extract(c.read.data, engine.maxFrame).FrameReady? && c.write.data == []
    ensures var s := ProcessReady(engine, c, rng, now, updateOk);
            |s.served| == 1 && Genuine(engine, s.served[0])
  {
    hide LengthOf;
    ExtractSound(c.read.data, engine.maxFrame);
  }

  /** Handling a ready frame logs one entry and either stages its reply or gives the connection up. */
  lemma ProcessShape(engine: Engine, c: Connection, rng: bv64, now: nat, updateOk: bool)
    requires Extract(c.read.data, engine.maxFrame).FrameReady? && c.write.data == []
    ensures var s := ProcessReady(engine, c, rng, now, updateOk);
            && |s.served| == 1 && s.arrivals == 0
            && var e := s.served[0];
               Extract(c.read.data, engine.maxFrame) == FrameReady(e.payload)
               && if e.reply.None? then s.conn == c && s.verdict == CloseConnection(NotAnswered)
                  else
                    && s.conn == Answered(c, e, updateOk || c.wantsWrite)
                    && s.verdict == if updateOk then PauseForWrite else CloseConnection(InterestUpdateFailed)
  {}

  lemma ProcessFrame(engine: Engine, c: Connection, rng: bv64, now: nat, updateOk: bool, log: seq<Served>)
    requires Accounted(engine, c, log) && AllAnswered(log) && c.write.data == [] && !c.pending && !c.wantsWrite
    requires Extract(c.read.data, engine.maxFrame).FrameReady?
    ensures var s := ProcessReady(engine, c, rng, now, updateOk);
            Kept(engine, 0, log, s) && s.verdict != Proceed
  {
    ProcessShape(engine, c, rng, now, updateOk);
    ProcessLogsGenuinely(engine, c, rng, now, updateOk);
    var s := ProcessReady(engine, c, rng, now, updateOk);
    var e := s.served[0];
    assert s.served == [e];
    if e.reply.Some? {
      AnsweredConnectionAccounted(engine, c, log, e, updateOk);
    } else {
      UnansweredConnectionClosed(engine, c, log, e);
    }
  }

  /** Taking one request from the queue keeps the books, and the log gains exactly the entry for it. */
  lemma ProcessKeepsBooks(engine: Engine, c: Connection, rng: bv64, now: nat, updateOk: bool, log: seq<Served>)
    requires Accounted(engine, c, log) && AllAnswered(log) && c.write.data == [] && !c.pending && !c.wantsWrite
    ensures var s := ProcessReady(engine, c, rng, now, updateOk);
            if s.verdict == Proceed then s == Step(c, rng, [], Proceed, 0) && Quiet(engine, c, log)
            else Kept(engine, 0, log, s)
  {
    assert log + [] == log;
    if Extract(c.read.data, engine.maxFrame).FrameReady? {
      ProcessFrame(engine, c, rng, now, updateOk, log);
    }
  }

  lemma FillingKeepsBooks(engine: Engine, c: Connection, chunk: seq<byte>, log: seq<Served>)
    requires Quiet(engine, c, log) && !c.pending && |chunk| <= c.read.Room()
    ensures Accounted(engine, Filled(c, chunk), log)
  {
    hide AllGenuine, AllAnswered, Extract, FrameAll;
    ConcatAssociative(FrameAll(Taken(log)), c.read.data, chunk);
  }

  lemma ArrivalKeepsBooks(engine: Engine, c: Connection, chunk: seq<byte>, rng: bv64,
                          now: nat, updateOk: bool, log: seq<Served>)
    requires Quiet(engine, c, log) && !c.pending && 0 < |chunk| <= c.read.Room()
    ensures var filled := Filled(c, chunk);
            var s := ProcessReady(engine, filled, rng, now, updateOk);
            if s.verdict == Proceed then s == Step(filled, rng, [], Proceed, 0) && Quiet(engine, filled, log)
            else Kept(engine, 0, log, s)
  {
    FillingKeepsBooks(engine, c, chunk, log);
    ProcessKeepsBooks(engine, Filled(c, chunk), rng, now, updateOk, log);
  }

  /** A turn that goes on leaves a quiet connection with less room; one that stops keeps the books. */
  lemma ReadTurnKeepsBooks(engine: Engine, c: Connection, rng: bv64, answers: seq<ReadAnswer>,
                           now: nat, updateOk: bool, log: seq<Served>)
    requires Quiet(engine, c, log) && !c.pending
    ensures match ReadTurn(engine, c, rng, answers, now, updateOk)
            case Stop(s) => Kept(engine, engine.capacity - |c.read.data|, log, s)
            case GoOn(d, arrivals) => Quiet(engine, d, log) && !d.pending && arrivals + |c.read.data| <= |d.read.data|
  {
    hide AllGenuine, AllAnswered, Extract, Taken, Given, ProcessReady;
    var roomy := c.(read := MakeRoom(c.read));
    assert Quiet(engine, roomy, log);
    assert log + [] == log;
    if roomy.read.Room() > 0 && answers != [] && answers[0].Arrived? && answers[0].bytes != [] {
      var chunk := answers[0].bytes[..Min(|answers[0].bytes|, roomy.read.Room())];
      ArrivalKeepsBooks(engine, roomy, chunk, rng, now, updateOk, log);
    }
  }

  /** The read loop keeps the books. */
  lemma {:induction false} ReadLoopKeepsBooks(engine: Engine, c: Connection, rng: bv64, answers: seq<ReadAnswer>,
                                              now: nat, updateOk: bool, log: seq<Served>)
    requires Quiet(engine, c, log) && !c.pending
    ensures Kept(engine, engine.capacity - |c.read.data|, log, ReadLoop(engine, c, rng, answers, now, updateOk))
    decreases |answers|
  {
    ReadTurnKeepsBooks(engine, c, rng, answers, now, updateOk, log);
    match ReadTurn(engine, c, rng, answers, now, updateOk)
    case Stop(_) =>
    case GoOn(d, _) => ReadLoopKeepsBooks(engine, d, rng, answers[1..], now, updateOk, log);
  }

  lemma FlushKeepsBooks(engine: Engine, c: Connection, answers: seq<WriteAnswer>, updateOk: bool, log: seq<Served>)
    requires Quiet(engine, c, log)
    ensures var (d, verdict) := Flush(c, answers, updateOk);
            match verdict
            case Proceed => d.read == c.read && (d.pending ==> c.pending) && Accounted(engine, d, log)
                            && d.pending == d.wantsWrite == (d.write.data != [])
            case PauseForWrite => false
            case CloseConnection(reason) => ClosedFor(engine, d, log, reason)
  {
    WriteLoopKeepsRead(c, answers);
    WriteLoopConserves(c, answers);
    if c.write.data == [] {
      assert WriteLoop(c, answers) == (c, true);
    }
  }

  /** Every event keeps the books, whatever the kernel answers while it is handled. */
  lemma EventKeepsBooks(engine: Engine, c: Connection, rng: bv64, ev: ClientEvent, log: seq<Served>)
    requires Settled(engine, c, log)
    ensures var s := HandleEvent(engine, c, rng, ev);
            && |s.served| <= 1
            && s.arrivals <= engine.capacity - |c.read.data|
            && match s.verdict
               case CloseConnection(reason) => ClosedFor(engine, s.conn, log + s.served, reason)
               case _ => Settled(engine, s.conn, log + s.served)
  {
    assert log + [] == log;
    if !ev.hangup {
      if !c.pending {
        ServeAndReadKeepsBooks(engine, c, rng, ev, log);
      } else if ev.writable {
        FlushKeepsBooks(engine, c, ev.writeAnswers, ev.flushUpdate, log);
        var (flushed, verdict) := Flush(c, ev.writeAnswers, ev.flushUpdate);
        if verdict == Proceed && !flushed.pending {
          ServeAndReadKeepsBooks(engine, flushed, rng, ev, log);
        }
      }
    }
  }

  lemma ServeAndReadKeepsBooks(engine: Engine, c: Connection, rng: bv64, ev: ClientEvent, log: seq<Served>)
    requires Accounted(engine, c, log) && AllAnswered(log) && c.write.data == [] && !c.pending && !c.wantsWrite
    ensures Kept(engine, engine.capacity - |c.read.data|, log, ServeAndRead(engine, c, rng, ev))
  {
    ProcessKeepsBooks(engine, c, rng, ev.now, ev.stageUpdate, log);
    if ProcessReady(engine, c, rng, ev.now, ev.stageUpdate).verdict == Proceed {
      ReadLoopKeepsBooks(engine, c, rng, ev.readAnswers, ev.now, ev.stageUpdate, log);
    }
  }

  // ---- How an event moves the generator and the two byte streams ----

  /** The step logs for this connection only, and chains the generator through what it logs. */
  predicate Logs(id: nat, rng: bv64, s: Step) {
    && s.conn.id == id
    && Chained(rng, s.served, s.rng)
    && (forall i :: 0 <= i < |s.served| ==> s.served[i].conn == id)
  }

  /** The same connection, its streams only longer. */
  predicate Extends(c: Connection, d: Connection) {
    d.id == c.id && c.received <= d.received && c.sent <= d.sent
  }

  /** A log whose generator states chain from one state to another. */
  predicate Chained(first: bv64, log: seq<Served>, last: bv64) {
    if log == [] then first == last
    else log[|log| - 1].after == last && Chained(first, log[..|log| - 1], log[|log| - 1].before)
  }

  lemma ExtendsTransitive(c: Connection, d: Connection, e: Connection)
    requires Extends(c, d) && Extends(d, e)
    ensures Extends(c, e)
  {}

  lemma ProcessThreads(engine: Engine, c: Connection, rng: bv64, now: nat, updateOk: bool)
    ensures var s := ProcessReady(engine, c, rng, now, updateOk);
            && Logs(c.id, rng, s)
            && s.conn.id == c.id && s.conn.received == c.received && s.conn.sent == c.sent
            && (s.verdict == Proceed ==> s == Step(c, rng, [], Proceed, 0))
  {
    var s := ProcessReady(engine, c, rng, now, updateOk);
    if s.served != [] {
      ChainOfOne(s.served[0]);
      assert s.served == [s.served[0]];
    }
  }

  lemma ChainOfOne(e: Served)
    ensures Chained(e.before, [e], e.after)
  {
    assert [e][..0] == [];
  }

  lemma ReadTurnThreads(engine: Engine, c: Connection, rng: bv64, answers: seq<ReadAnswer>, now: nat, updateOk: bool)
    ensures match ReadTurn(engine, c, rng, answers, now, updateOk)
            case Stop(s) => Logs(c.id, rng, s) && Extends(c, s.conn)
            case GoOn(d, _) => Extends(c, d)
  {
    var roomy := c.(read := MakeRoom(c.read));
    if roomy.read.Room() > 0 && answers != [] && answers[0].Arrived? && answers[0].bytes != [] {
      var filled := Filled(roomy, answers[0].bytes[..Min(|answers[0].bytes|, roomy.read.Room())]);
      assert Extends(c, filled);
      ProcessThreads(engine, filled, rng, now, updateOk);
    }
  }

  lemma {:induction false} ReadLoopThreads(engine: Engine, c: Connection, rng: bv64, answers: seq<ReadAnswer>,
                                           now: nat, updateOk: bool)
    ensures var s := ReadLoop(engine, c, rng, answers, now, updateOk);
            Logs(c.id, rng, s) && Extends(c, s.conn)
    decreases |answers|
  {
    ReadTurnThreads(engine, c, rng, answers, now, updateOk);
    match ReadTurn(engine, c, rng, answers, now, updateOk)
    case Stop(_) =>
    case GoOn(d, _) =>
      ReadLoopThreads(engine, d, rng, answers[1..], now, updateOk);
      ExtendsTransitive(c, d, ReadLoop(engine, d, rng, answers[1..], now, updateOk).conn);
  }

  lemma ServeAndReadThreads(engine: Engine, c: Connection, rng: bv64, ev: ClientEvent)
    ensures var s := ServeAndRead(engine, c, rng, ev);
            Logs(c.id, rng, s) && Extends(c, s.conn)
  {
    ProcessThreads(engine, c, rng, ev.now, ev.stageUpdate);
    if ProcessReady(engine, c, rng, ev.now, ev.stageUpdate).verdict == Proceed {
      ReadLoopThreads(engine, c, rng, ev.readAnswers, ev.now, ev.stageUpdate);
    }
  }

  /** An event logs what it handles with the generator states chained, and loses nothing of either stream. */
  lemma EventThreads(engine: Engine, c: Connection, rng: bv64, ev: ClientEvent)
    ensures var s := HandleEvent(engine, c, rng, ev);
            Logs(c.id, rng, s) && Extends(c, s.conn)
  {
    if !ev.hangup && !c.pending {
      ServeAndReadThreads(engine, c, rng, ev);
    } else if !ev.hangup && ev.writable {
      WriteLoopKeepsRead(c, ev.writeAnswers);
      var (flushed, verdict) := Flush(c, ev.writeAnswers, ev.flushUpdate);
      assert Extends(c, flushed);
      if verdict == Proceed && !flushed.pending {
        ServeAndReadThreads(engine, flushed, rng, ev);
        ExtendsTransitive(c, flushed, ServeAndRead(engine, flushed, rng, ev).conn);
      }
    }
  }
}
