/**
 * What an event gets done on a connection, whatever lists of answers the kernel gives: how many bytes are sent, how
 * many are taken in, which request is handled, and for which causes the connection is closed.
 */
module ConnectionProgress {
  import opened Bytes
  import opened Frames
  import opened ReusableBuffers
  import opened ResponseFraming
  import opened ConnectionModel
  import opened StreamRefinement

  // ---- Sending ----

  /** An answer after which no more writes are tried. */
  predicate StopsWriting(answer: WriteAnswer) {
    answer == WriteWouldBlock || answer == WriteError || answer == Accepts(0)
  }

  /** How many bytes the kernel is willing to take before an answer that stops the writing. */
  function Willing(answers: seq<WriteAnswer>): nat {
    if answers == [] || StopsWriting(answers[0]) then 0
    else (if answers[0].Accepts? then answers[0].count else 0) + Willing(answers[1..])
  }

  /** Whether the first answer that stops the writing is a failure. */
  predicate FailsWriting(answers: seq<WriteAnswer>) {
    answers != [] && if StopsWriting(answers[0]) then answers[0] != WriteWouldBlock else FailsWriting(answers[1..])
  }

  /** From one state of a connection to another, the first n unsent bytes have been sent. */
  predicate Sends(c: Connection, d: Connection, n: nat) {
    n <= |c.write.data| && d.sent == c.sent + c.write.data[..n] && d.write.data == c.write.data[n..]
  }

  lemma SendsNothing(c: Connection)
    ensures Sends(c, c, 0)
  {}

  lemma SendsMore(c: Connection, d: Connection, e: Connection, n: nat, m: nat)
    requires Sends(c, d, n) && Sends(d, e, m)
    ensures Sends(c, e, n + m)
  {
    var data := c.write.data;
    assert data[..n] + data[n..][..m] == data[..n + m] && data[n..][m..] == data[n + m..];
    ConcatAssociative(c.sent, data[..n], data[n..][..m]);
  }

  lemma WriteAccepted(c: Connection, answers: seq<WriteAnswer>) returns (d: Connection)
    requires c.write.Valid() && c.write.data != []
    requires answers != [] && answers[0].Accepts? && answers[0].count > 0
    ensures var n := Min(answers[0].count, |c.write.data|);
            Sends(c, d, n) && d.write.Valid() && |d.write.data| == |c.write.data| - n
    ensures WriteLoop(c, answers) == WriteLoop(d, answers[1..])
  {
    var n := Min(answers[0].count, |c.write.data|);
    d := c.(write := c.write.Consumed(n), sent := c.sent + c.write.data[..n]);
  }

  lemma WriteStops(c: Connection, answers: seq<WriteAnswer>)
    requires c.write.data == [] || answers == [] || StopsWriting(answers[0])
    ensures WriteLoop(c, answers)
         == (c, c.write.data == [] || answers == [] || answers[0] == WriteWouldBlock)
  {}

  lemma WriteInterruptedSkipped(c: Connection, answers: seq<WriteAnswer>)
    requires c.write.data != [] && answers != [] && answers[0].WriteInterrupted?
    ensures WriteLoop(c, answers) == WriteLoop(c, answers[1..])
  {}

  /**
   * The write loop sends exactly the bytes the kernel is willing to take, as far as there are any, and fails exactly
   * if bytes are left over when a failure comes.
   */
  lemma {:induction false} WriteLoopSends(c: Connection, answers: seq<WriteAnswer>)
    requires c.write.Valid()
    ensures var (d, ok) := WriteLoop(c, answers);
            var n := Min(|c.write.data|, Willing(answers));
            && Sends(c, d, n)
            && (ok <==> n == |c.write.data| || !FailsWriting(answers))
    decreases |answers|
  {
    hide Sends, WriteLoop;
    SendsNothing(c);
    if c.write.data == [] || answers == [] || StopsWriting(answers[0]) {
      WriteStops(c, answers);
    } else if answers[0].WriteInterrupted? {
      WriteInterruptedSkipped(c, answers);
      WriteLoopSends(c, answers[1..]);
    } else {
      var d := WriteAccepted(c, answers);
      WriteLoopSends(d, answers[1..]);
      var n, m := Min(answers[0].count, |c.write.data|), Min(|d.write.data|, Willing(answers[1..]));
      SendsMore(c, d, WriteLoop(d, answers[1..]).0, n, m);
    }
  }

  // ---- Only the write loop sends ----

  lemma {:induction false} ReadingSendsNothing(engine: Engine, c: Connection, rng: bv64, answers: seq<ReadAnswer>,
                                               now: nat, updateOk: bool)
    ensures ReadLoop(engine, c, rng, answers, now, updateOk).conn.sent == c.sent
    decreases |answers|
  {
    match ReadTurn(engine, c, rng, answers, now, updateOk)
    case Stop(_) =>
    case GoOn(d, _) => ReadingSendsNothing(engine, d, rng, answers[1..], now, updateOk);
  }

  lemma ServingSendsNothing(engine: Engine, c: Connection, rng: bv64, ev: ClientEvent)
    ensures ServeAndRead(engine, c, rng, ev).conn.sent == c.sent
  {
    ReadingSendsNothing(engine, ProcessReady(engine, c, rng, ev.now, ev.stageUpdate).conn, rng, ev.readAnswers,
                        ev.now, ev.stageUpdate);
  }

  /** What is sent in an event: of a pending response, what the kernel takes if the socket is writable; else nothing. */
  function SentIn(c: Connection, ev: ClientEvent): nat {
    if ev.hangup || !c.pending || !ev.writable then 0 else Min(|c.write.data|, Willing(ev.writeAnswers))
  }

  /**
   * Sending: an event on a settled connection sends exactly those bytes. If it leaves some unsent, that is its whole
   * effect, and the connection stays open waiting for writability, or is closed for the failure that came.
   */
  lemma EventSends(engine: Engine, c: Connection, log: seq<Served>, rng: bv64, ev: ClientEvent)
    requires Settled(engine, c, log)
    ensures var s := HandleEvent(engine, c, rng, ev);
            var n := SentIn(c, ev);
            && n <= |c.write.data| && s.conn.sent == c.sent + c.write.data[..n]
            && (c.pending && !ev.hangup && n < |c.write.data| ==>
                  && s.served == [] && s.rng == rng && s.conn.received == c.received
                  && s.conn.write.data == c.write.data[n..]
                  && s.verdict == if !ev.writable then Proceed
                                  else if FailsWriting(ev.writeAnswers) then CloseConnection(WriteFailed)
                                  else if ev.flushUpdate then Proceed else CloseConnection(InterestUpdateFailed))
            && (0 < n == |c.write.data| && !ev.flushUpdate ==> s.verdict == CloseConnection(InterestUpdateFailed))
  {
    hide ServeAndRead;
    SendsNothing(c);
    WriteLoopSends(c, ev.writeAnswers);
    WriteLoopKeepsRead(c, ev.writeAnswers);
    if !ev.hangup && !c.pending {
      ServingSendsNothing(engine, c, rng, ev);
    } else if !ev.hangup && ev.writable {
      ServingSendsNothing(engine, Flush(c, ev.writeAnswers, ev.flushUpdate).0, rng, ev);
    }
  }

  // ---- Taking in ----

  /** The entry for a request handled in an event. */
  function EntryFor(engine: Engine, c: Connection, payload: seq<byte>, now: nat, rng: bv64): Served {
    Served(c.id, payload, now, rng, ReplyTo(engine, payload, now, rng), Handle(engine, payload, now, rng).rng)
  }

  /** The step logs exactly the entry, and its reply is staged and waited for, or the connection is closed without. */
  predicate Answers(s: Step, e: Served, updateOk: bool) {
    && s.served == [e] && s.rng == e.after
    && match e.reply
       case None => s.verdict == CloseConnection(NotAnswered)
       case Some(reply) =>
         && s.conn.write.data == FrameOf(reply) && s.conn.pending
         && (if updateOk then s.verdict == PauseForWrite && s.conn.wantsWrite
             else s.verdict == CloseConnection(InterestUpdateFailed))
  }

  lemma ReadyFrameAnswered(engine: Engine, c: Connection, rng: bv64, now: nat, updateOk: bool, payload: seq<byte>)
    requires Extract(c.read.data, engine.maxFrame) == FrameReady(payload) && c.write.data == []
    ensures Answers(ProcessReady(engine, c, rng, now, updateOk), EntryFor(engine, c, payload, now, rng), updateOk)
    ensures ProcessReady(engine, c, rng, now, updateOk).conn.received == c.received
  {}

  /** A connection after its pending response is sent out completely. */
  function SentOut(c: Connection): Connection {
    c.(write := BufferModel(0, [], c.write.size), sent := c.sent + c.write.data, pending := false, wantsWrite := false)
  }

  /** An event that sends a pending response out completely goes on exactly like one on a connection without it. */
  lemma EventGoesOnAfterSending(engine: Engine, c: Connection, log: seq<Served>, rng: bv64, ev: ClientEvent)
    requires Settled(engine, c, log) && c.pending && !ev.hangup && ev.writable && ev.flushUpdate
    requires Willing(ev.writeAnswers) >= |c.write.data|
    ensures HandleEvent(engine, c, rng, ev) == HandleEvent(engine, SentOut(c), rng, ev)
  {
    hide ServeAndRead;
    WriteLoopSends(c, ev.writeAnswers);
    WriteLoopEmpties(c, ev.writeAnswers);
    WriteLoopKeepsRead(c, ev.writeAnswers);
    assert c.write.data[..|c.write.data|] == c.write.data;
  }

  lemma {:induction false} WriteLoopEmpties(c: Connection, answers: seq<WriteAnswer>)
    requires c.write.Valid() && c.write.data != []
    ensures var d := WriteLoop(c, answers).0;
            d.write.size == c.write.size && (d.write.data == [] ==> d.write.start == 0)
    decreases |answers|
  {
    if answers != [] && answers[0].Accepts? && answers[0].count > 0 {
      var d := WriteAccepted(c, answers);
      var n := Min(answers[0].count, |c.write.data|);
      if n < |c.write.data| {
        WriteLoopEmpties(c.(write := c.write.Consumed(n), sent := c.sent + c.write.data[..n]), answers[1..]);
      }
    } else if answers != [] && answers[0].WriteInterrupted? {
      WriteLoopEmpties(c, answers[1..]);
    }
  }

  /** A connection with nothing to send, which may read. */
  predicate MayRead(engine: Engine, c: Connection) {
    !c.pending && c.write.data == [] && c.read.Valid() && c.read.size == engine.capacity
  }

  /** A request buffered completely is handled by the next event that finds nothing to send or sends it out. */
  lemma BufferedRequestHandled(engine: Engine, c: Connection, rng: bv64, ev: ClientEvent, payload: seq<byte>)
    requires MayRead(engine, c) && !ev.hangup && Extract(c.read.data, engine.maxFrame) == FrameReady(payload)
    ensures Answers(HandleEvent(engine, c, rng, ev), EntryFor(engine, c, payload, ev.now, rng), ev.stageUpdate)
  {
    hide Extract;
    ReadyFrameAnswered(engine, c, rng, ev.now, ev.stageUpdate, payload);
  }

  // ---- Taking in what arrives ----

  /** An answer after which the read loop may go on: data, or an interruption. */
  predicate GoesOn(answer: ReadAnswer) {
    answer == ReadInterrupted || (answer.Arrived? && answer.bytes != [])
  }

  predicate AllGoOn(answers: seq<ReadAnswer>) {
    forall i :: 0 <= i < |answers| ==> GoesOn(answers[i])
  }

  function Delivered(answers: seq<ReadAnswer>): seq<byte> {
    if answers == [] then []
    else (if answers[0].Arrived? then answers[0].bytes else []) + Delivered(answers[1..])
  }

  function Chunks(answers: seq<ReadAnswer>): nat {
    if answers == [] then 0 else (if answers[0].Arrived? then 1 else 0) + Chunks(answers[1..])
  }

  /** No read brings more than the room it is offered, as the kernel never does. */
  predicate InRoom(b: BufferModel, answers: seq<ReadAnswer>)
    decreases |answers|
  {
    answers == []
    || (var roomy := MakeRoom(b);
        if answers[0].Arrived?
        then |answers[0].bytes| <= roomy.Room() && InRoom(roomy.Appended(answers[0].bytes), answers[1..])
        else InRoom(roomy, answers[1..]))
  }

  /** How reading ends for what follows the data: no answer, or one after which the loop does not go on. */
  function EndOfReading(next: seq<ReadAnswer>): Verdict {
    if next == [] then Proceed
    else match next[0]
      case ReadWouldBlock => Proceed
      case ReadError => CloseConnection(ReadFailed)
      case _ => CloseConnection(EndOfStream)
  }

  /**
   * What a step does when bytes arrive that make up the start of a frame or all of it: they are all taken in, the
   * whole frame is answered, and an unfinished one is kept until the buffer is full of it.
   */
  predicate TakesIn(engine: Engine, c: Connection, rng: bv64, now: nat, updateOk: bool, payload: seq<byte>,
                    delivered: seq<byte>, next: seq<ReadAnswer>, s: Step) {
    && s.conn.received == c.received + delivered
    && var data := c.read.data + delivered;
       if data == FrameOf(payload) then Answers(s, EntryFor(engine, c, payload, now, rng), updateOk)
       else
         && s.served == [] && s.rng == rng && s.conn.read.data == data
         && s.verdict == if |data| == engine.capacity then CloseConnection(ReadBufferFull) else EndOfReading(next)
  }

  /** There is room to read into unless the unread bytes fill the buffer. */
  lemma RoomLeft(b: BufferModel)
    requires b.Valid()
    ensures MakeRoom(b).Room() == 0 <==> |b.data| == b.size
  {}

  lemma TurnWithoutAnswer(engine: Engine, c: Connection, rng: bv64, now: nat, updateOk: bool, next: seq<ReadAnswer>)
    requires MayRead(engine, c) && (next == [] || !GoesOn(next[0]))
    ensures var s := ReadLoop(engine, c, rng, next, now, updateOk);
            && s.conn == c.(read := MakeRoom(c.read)) && s.served == [] && s.rng == rng && s.arrivals == 0
            && s.verdict == if |c.read.data| == engine.capacity then CloseConnection(ReadBufferFull)
                            else EndOfReading(next)
  {
    hide ReadLoop, ProcessReady, MakeRoom, BufferModel.Room, BufferModel.Valid;
    RoomLeft(c.read);
    LoopTurn(engine, c, rng, now, updateOk, next);
  }

  lemma FullTurn(engine: Engine, c: Connection, rng: bv64, now: nat, updateOk: bool, answers: seq<ReadAnswer>)
    requires MayRead(engine, c) && |c.read.data| == engine.capacity
    ensures var s := ReadLoop(engine, c, rng, answers, now, updateOk);
            && s.conn.received == c.received && s.conn.read.data == c.read.data
            && s.served == [] && s.rng == rng && s.arrivals == 0 && s.verdict == CloseConnection(ReadBufferFull)
  {
    hide ReadLoop, ProcessReady, MakeRoom, BufferModel.Room, BufferModel.Valid;
    RoomLeft(c.read);
    LoopTurn(engine, c, rng, now, updateOk, answers);
  }

  lemma {:induction false} NothingInNoRoom(b: BufferModel, answers: seq<ReadAnswer>)
    requires b.Valid() && |b.data| == b.size && AllGoOn(answers) && InRoom(b, answers)
    ensures Delivered(answers) == [] && Chunks(answers) == 0
    decreases |answers|
  {
    if answers != [] {
      assert GoesOn(answers[0]) && MakeRoom(b).Room() == 0;
      NothingInNoRoom(MakeRoom(b), answers[1..]);
    }
  }

  lemma TurnInterrupted(engine: Engine, c: Connection, rng: bv64, now: nat, updateOk: bool, answers: seq<ReadAnswer>)
    requires MayRead(engine, c) && |c.read.data| < engine.capacity && answers != [] && answers[0] == ReadInterrupted
    ensures var d := c.(read := MakeRoom(c.read));
            MayRead(engine, d) && ReadLoop(engine, c, rng, answers, now, updateOk)
                               == ReadLoop(engine, d, rng, answers[1..], now, updateOk)
  {
    hide ReadLoop;
    LoopTurn(engine, c, rng, now, updateOk, answers);
  }

  lemma LoopTurn(engine: Engine, c: Connection, rng: bv64, now: nat, updateOk: bool, answers: seq<ReadAnswer>)
    ensures ReadLoop(engine, c, rng, answers, now, updateOk)
         == match ReadTurn(engine, c, rng, answers, now, updateOk)
            case Stop(s) => s
            case GoOn(d, arrivals) =>
              var rest := ReadLoop(engine, d, rng, answers[1..], now, updateOk);
              rest.(arrivals := rest.arrivals + arrivals)
  {}

  /** A chunk that leaves the frame unfinished is taken in and the loop goes on. */
  lemma TurnUnfinished(engine: Engine, c: Connection, rng: bv64, now: nat, updateOk: bool, answers: seq<ReadAnswer>)
    requires MayRead(engine, c) && answers != [] && answers[0].Arrived? && answers[0].bytes != []
    requires |answers[0].bytes| <= MakeRoom(c.read).Room()
    requires Extract(c.read.data + answers[0].bytes, engine.maxFrame) == NeedMoreData
    ensures var d := Filled(c.(read := MakeRoom(c.read)), answers[0].bytes);
            var rest := ReadLoop(engine, d, rng, answers[1..], now, updateOk);
            && MayRead(engine, d)
            && ReadLoop(engine, c, rng, answers, now, updateOk) == rest.(arrivals := rest.arrivals + 1)
  {
    hide ReadLoop, Extract;
    LoopTurn(engine, c, rng, now, updateOk, answers);
    assert answers[0].bytes[..|answers[0].bytes|] == answers[0].bytes;
  }

  /** A chunk that finishes the frame is taken in, the frame is answered, and the loop ends. */
  lemma TurnFinished(engine: Engine, c: Connection, rng: bv64, now: nat, updateOk: bool, answers: seq<ReadAnswer>,
                     payload: seq<byte>)
    requires MayRead(engine, c) && answers != [] && answers[0].Arrived? && answers[0].bytes != []
    requires |answers[0].bytes| <= MakeRoom(c.read).Room()
    requires Extract(c.read.data + answers[0].bytes, engine.maxFrame) == FrameReady(payload)
    ensures var s := ReadLoop(engine, c, rng, answers, now, updateOk);
            && s.conn.received == c.received + answers[0].bytes && s.arrivals == 1
            && Answers(s, EntryFor(engine, c, payload, now, rng), updateOk)
  {
    hide ReadLoop, Extract;
    LoopTurn(engine, c, rng, now, updateOk, answers);
    assert answers[0].bytes[..|answers[0].bytes|] == answers[0].bytes;
    var filled := Filled(c.(read := MakeRoom(c.read)), answers[0].bytes);
    ReadyFrameAnswered(engine, filled, rng, now, updateOk, payload);
  }

  /** The start of a frame is unfinished, and all of it is ready. */
  lemma StartOfFrame(payload: seq<byte>, data: seq<byte>, maxFrame: nat)
    requires Acceptable(payload, maxFrame) && data <= FrameOf(payload)
    ensures Extract(data, maxFrame) == if data == FrameOf(payload) then FrameReady(payload) else NeedMoreData
  {
    if data == FrameOf(payload) {
      ExtractFramed(payload, [], maxFrame);
      assert FrameOf(payload) + [] == FrameOf(payload);
    } else {
      UnfinishedFrame(payload, |data|, maxFrame);
      assert FrameOf(payload)[..|data|] == data;
    }
  }

  /** Whatever the cutting and the interruptions, the read loop takes in what arrives of a frame. */
  lemma {:induction false} ReadLoopTakesIn(engine: Engine, c: Connection, rng: bv64, now: nat, updateOk: bool,
                                           payload: seq<byte>, arriving: seq<ReadAnswer>, next: seq<ReadAnswer>)
    requires MayRead(engine, c) && Acceptable(payload, engine.maxFrame)
    requires AllGoOn(arriving) && InRoom(c.read, arriving) && (next == [] || !GoesOn(next[0]))
    requires c.read.data + Delivered(arriving) <= FrameOf(payload) && c.read.data != FrameOf(payload)
    ensures var s := ReadLoop(engine, c, rng, arriving + next, now, updateOk);
            && TakesIn(engine, c, rng, now, updateOk, payload, Delivered(arriving), next, s)
            && s.arrivals == Chunks(arriving)
    decreases |arriving|, 1
  {
    hide ReadLoop, FrameOf, Extract, Answers, MakeRoom;
    var frame := FrameOf(payload);
    if arriving == [] {
      assert arriving + next == next && c.read.data + [] == c.read.data && c.received + [] == c.received;
      TurnWithoutAnswer(engine, c, rng, now, updateOk, next);
    } else if |c.read.data| == engine.capacity {
      NothingInNoRoom(c.read, arriving);
      assert c.read.data + [] == c.read.data && c.received + [] == c.received;
      FullTurn(engine, c, rng, now, updateOk, arriving + next);
    } else {
      assert GoesOn(arriving[0]) && (arriving + next)[0] == arriving[0];
      assert (arriving + next)[1..] == arriving[1..] + next;
      if arriving[0] == ReadInterrupted {
        TurnInterrupted(engine, c, rng, now, updateOk, arriving + next);
        ReadLoopTakesIn(engine, c.(read := MakeRoom(c.read)), rng, now, updateOk, payload, arriving[1..], next);
      } else {
        ChunkTakenIn(engine, c, rng, now, updateOk, payload, arriving, next);
      }
    }
  }

  lemma FirstChunk(b: BufferModel, arriving: seq<ReadAnswer>)
    requires AllGoOn(arriving) && InRoom(b, arriving) && arriving != [] && arriving[0].Arrived?
    ensures var chunk, later := arriving[0].bytes, arriving[1..];
            && Delivered(arriving) == chunk + Delivered(later) && Chunks(arriving) == 1 + Chunks(later)
            && AllGoOn(later) && InRoom(MakeRoom(b).Appended(chunk), later)
            && chunk != [] && |chunk| <= MakeRoom(b).Room()
  {
    hide MakeRoom;
    assert GoesOn(arriving[0]);
  }

  lemma PartOfFrame(data: seq<byte>, chunk: seq<byte>, later: seq<byte>, frame: seq<byte>)
    requires data + (chunk + later) <= frame
    ensures (data + chunk) + later <= frame && data + chunk <= frame && (data + chunk == frame ==> later == [])
  {
    ConcatAssociative(data, chunk, later);
  }

  lemma FinishedTakesIn(engine: Engine, c: Connection, rng: bv64, now: nat, updateOk: bool, payload: seq<byte>,
                        chunk: seq<byte>, next: seq<ReadAnswer>, s: Step)
    requires c.read.data + chunk == FrameOf(payload) && s.conn.received == c.received + chunk
    requires Answers(s, EntryFor(engine, c, payload, now, rng), updateOk)
    ensures TakesIn(engine, c, rng, now, updateOk, payload, chunk, next, s)
  {}

  lemma TakesInMore(engine: Engine, c: Connection, d: Connection, rng: bv64, now: nat, updateOk: bool,
                    payload: seq<byte>, chunk: seq<byte>, later: seq<byte>, next: seq<ReadAnswer>, s: Step)
    requires d.id == c.id && d.received == c.received + chunk && d.read.data == c.read.data + chunk
    requires TakesIn(engine, d, rng, now, updateOk, payload, later, next, s)
    ensures TakesIn(engine, c, rng, now, updateOk, payload, chunk + later, next, s.(arrivals := s.arrivals + 1))
  {
    ConcatAssociative(c.read.data, chunk, later);
    ConcatAssociative(c.received, chunk, later);
  }

  lemma {:induction false} NothingMore(answers: seq<ReadAnswer>)
    requires AllGoOn(answers) && Delivered(answers) == []
    ensures Chunks(answers) == 0
  {
    if answers != [] {
      assert GoesOn(answers[0]);
      NothingMore(answers[1..]);
    }
  }

  lemma {:induction false} ChunkTakenIn(engine: Engine, c: Connection, rng: bv64, now: nat, updateOk: bool,
                                        payload: seq<byte>, arriving: seq<ReadAnswer>, next: seq<ReadAnswer>)
    requires MayRead(engine, c) && Acceptable(payload, engine.maxFrame)
    requires AllGoOn(arriving) && InRoom(c.read, arriving) && (next == [] || !GoesOn(next[0]))
    requires c.read.data + Delivered(arriving) <= FrameOf(payload) && c.read.data != FrameOf(payload)
    requires arriving != [] && arriving[0].Arrived?
    ensures var s := ReadLoop(engine, c, rng, arriving + next, now, updateOk);
            && TakesIn(engine, c, rng, now, updateOk, payload, Delivered(arriving), next, s)
            && s.arrivals == Chunks(arriving)
    decreases |arriving|, 0
  {
    hide ReadLoop, FrameOf, Extract, TakesIn, MakeRoom, Delivered, Chunks, InRoom, AllGoOn;
    var chunk, later := arriving[0].bytes, arriving[1..];
    var answers := arriving + next;
    assert answers[0] == arriving[0] && answers[1..] == later + next;
    FirstChunk(c.read, arriving);
    PartOfFrame(c.read.data, chunk, Delivered(later), FrameOf(payload));
    StartOfFrame(payload, c.read.data + chunk, engine.maxFrame);
    if c.read.data + chunk == FrameOf(payload) {
      TurnFinished(engine, c, rng, now, updateOk, answers, payload);
      NothingMore(later);
      FinishedTakesIn(engine, c, rng, now, updateOk, payload, chunk, next,
                      ReadLoop(engine, c, rng, answers, now, updateOk));
      assert chunk + [] == chunk;
    } else {
      TurnUnfinished(engine, c, rng, now, updateOk, answers);
      var d := Filled(c.(read := MakeRoom(c.read)), chunk);
      ReadLoopTakesIn(engine, d, rng, now, updateOk, payload, later, next);
      var rest := ReadLoop(engine, d, rng, later + next, now, updateOk);
      TakesInMore(engine, c, d, rng, now, updateOk, payload, chunk, Delivered(later), next, rest);
    }
  }

  /**
   * Taking in: on a settled connection with nothing pending, an event takes in everything the kernel brings of a
   * frame, however cut and interrupted. A frame made whole is handled and answered in that very event; an unfinished
   * one is kept, and only a full buffer, the end of the stream or a failing read closes the connection over it.
   */
  lemma EventTakesIn(engine: Engine, c: Connection, log: seq<Served>, rng: bv64, ev: ClientEvent,
                     payload: seq<byte>, arriving: seq<ReadAnswer>, next: seq<ReadAnswer>)
    requires Settled(engine, c, log) && !c.pending && !ev.hangup && Acceptable(payload, engine.maxFrame)
    requires ev.readAnswers == arriving + next && AllGoOn(arriving) && (next == [] || !GoesOn(next[0]))
    requires InRoom(c.read, arriving) && c.read.data + Delivered(arriving) <= FrameOf(payload)
    ensures var s := HandleEvent(engine, c, rng, ev);
            && TakesIn(engine, c, rng, ev.now, ev.stageUpdate, payload, Delivered(arriving), next, s)
            && s.arrivals == Chunks(arriving)
  {
    hide ReadLoop, Extract, FrameOf, TakesIn, InRoom, Delivered, Chunks;
    StartOfFrame(payload, c.read.data, engine.maxFrame);
    ReadLoopTakesIn(engine, c, rng, ev.now, ev.stageUpdate, payload, arriving, next);
    WaitsForData(engine, c, rng, ev);
  }

  lemma WaitsForData(engine: Engine, c: Connection, rng: bv64, ev: ClientEvent)
    requires !c.pending && !ev.hangup && Extract(c.read.data, engine.maxFrame) == NeedMoreData
    ensures HandleEvent(engine, c, rng, ev) == ReadLoop(engine, c, rng, ev.readAnswers, ev.now, ev.stageUpdate)
  {
    hide ReadLoop, Extract;
  }

  /**
   * And behind a pending response: an event that sends it out completely handles the next request in the same event,
   * if that is buffered already.
   */
  lemma NextBufferedRequestHandled(engine: Engine, c: Connection, log: seq<Served>, rng: bv64, ev: ClientEvent,
                                   payload: seq<byte>)
    requires Settled(engine, c, log) && c.pending && !ev.hangup && ev.writable && ev.flushUpdate
    requires Willing(ev.writeAnswers) >= |c.write.data|
    requires Extract(c.read.data, engine.maxFrame) == FrameReady(payload)
    ensures var s := HandleEvent(engine, c, rng, ev);
            && s.conn.sent == c.sent + c.write.data
            && Answers(s, EntryFor(engine, c, payload, ev.now, rng), ev.stageUpdate)
  {
    hide HandleEvent, Extract;
    EventGoesOnAfterSending(engine, c, log, rng, ev);
    BufferedRequestHandled(engine, SentOut(c), rng, ev, payload);
    EventSends(engine, c, log, rng, ev);
    assert c.write.data[..|c.write.data|] == c.write.data;
  }

  /** An event in which a socket is writable for as many bytes as it is given. */
  function WritableFor(count: nat, now: nat): ClientEvent {
    ClientEvent(false, true, [Accepts(count)], true, [], true, now)
  }

  /** Such an event, for enough bytes and with no request buffered, leaves the connection waiting for the next one. */
  lemma SendsAllAndWaits(engine: Engine, c: Connection, log: seq<Served>, rng: bv64, count: nat, now: nat)
    requires Settled(engine, c, log) && c.pending && |c.write.data| <= count
    requires Extract(c.read.data, engine.maxFrame) == NeedMoreData && |c.read.data| < engine.capacity
    ensures HandleEvent(engine, c, rng, WritableFor(count, now))
         == Step(SentOut(c).(read := MakeRoom(c.read)), rng, [], Proceed, 0)
  {
    hide HandleEvent, ReadLoop, Extract;
    var ev := WritableFor(count, now);
    WillingOne(count);
    EventGoesOnAfterSending(engine, c, log, rng, ev);
    WaitsForData(engine, SentOut(c), rng, ev);
    TurnWithoutAnswer(engine, SentOut(c), rng, now, true, []);
  }

  lemma WillingOne(count: nat)
    ensures Willing([Accepts(count)]) == count
  {
    assert [Accepts(count)][1..] == [];
  }

  // ---- Causes of closing ----

  /** The causes for which a step may close: each reason has an answer, a failed update, or a buffered head to blame. */
  predicate HasCause(s: Step, answers: seq<ReadAnswer>, updateOk: bool) {
    s.verdict.CloseConnection? ==>
      match s.verdict.reason
      case EndOfStream => Arrived([]) in answers
      case ReadFailed => ReadError in answers
      case InterestUpdateFailed => !updateOk
      case reason => reason.BadLength? || reason.NotAnswered? || reason.ReadBufferFull?
  }

  lemma ProcessHasCause(engine: Engine, c: Connection, rng: bv64, now: nat, updateOk: bool, answers: seq<ReadAnswer>)
    ensures HasCause(ProcessReady(engine, c, rng, now, updateOk), answers, updateOk)
  {}

  lemma TurnHasCause(engine: Engine, c: Connection, rng: bv64, answers: seq<ReadAnswer>, now: nat, updateOk: bool)
    ensures match ReadTurn(engine, c, rng, answers, now, updateOk)
            case Stop(s) => HasCause(s, answers, updateOk)
            case GoOn(_, _) => true
  {
    hide ProcessReady;
    var roomy := c.(read := MakeRoom(c.read));
    if roomy.read.Room() > 0 && answers != [] && answers[0].Arrived? {
      ProcessHasCause(engine, Filled(roomy, answers[0].bytes[..Min(|answers[0].bytes|, roomy.read.Room())]), rng, now,
                      updateOk, answers);
    }
  }

  lemma {:induction false} ReadLoopHasCause(engine: Engine, c: Connection, rng: bv64, answers: seq<ReadAnswer>,
                                            now: nat, updateOk: bool)
    ensures HasCause(ReadLoop(engine, c, rng, answers, now, updateOk), answers, updateOk)
    decreases |answers|
  {
    hide ReadLoop, ReadTurn;
    LoopTurn(engine, c, rng, now, updateOk, answers);
    TurnHasCause(engine, c, rng, answers, now, updateOk);
    match ReadTurn(engine, c, rng, answers, now, updateOk)
    case Stop(_) =>
    case GoOn(d, _) => ReadLoopHasCause(engine, d, rng, answers[1..], now, updateOk);
  }

  /**
   * Nothing else closes a connection: a hang-up; a write that fails with bytes left over; a failed update of the
   * interest set; an end of stream or a failing read among the answers; a bad length or an unanswered request at the
   * head of the buffer, or a full buffer. Interruptions and "would block" never do.
   */
  lemma EventClosesForCause(engine: Engine, c: Connection, log: seq<Served>, rng: bv64, ev: ClientEvent)
    requires Settled(engine, c, log)
    ensures var s := HandleEvent(engine, c, rng, ev);
            match s.verdict
            case CloseConnection(PeerHangup) => ev.hangup
            case CloseConnection(WriteFailed) =>
              c.pending && ev.writable && FailsWriting(ev.writeAnswers) && Willing(ev.writeAnswers) < |c.write.data|
            case CloseConnection(InterestUpdateFailed) => (c.pending && !ev.flushUpdate) || !ev.stageUpdate
            case CloseConnection(_) => !ev.hangup && HasCause(s, ev.readAnswers, ev.stageUpdate)
            case _ => !ev.hangup
  {
    hide ServeAndRead, WriteLoop, Settled;
    if !ev.hangup && !c.pending {
      ServingHasCause(engine, c, rng, ev);
    } else if !ev.hangup && ev.writable {
      FlushFailsForCause(engine, c, log, ev);
      ServingHasCause(engine, Flush(c, ev.writeAnswers, ev.flushUpdate).0, rng, ev);
    }
  }

  lemma FlushFailsForCause(engine: Engine, c: Connection, log: seq<Served>, ev: ClientEvent)
    requires Settled(engine, c, log)
    ensures match Flush(c, ev.writeAnswers, ev.flushUpdate).1
            case CloseConnection(WriteFailed) =>
              FailsWriting(ev.writeAnswers) && Willing(ev.writeAnswers) < |c.write.data|
            case CloseConnection(reason) => reason == InterestUpdateFailed && !ev.flushUpdate
            case _ => true
  {
    hide WriteLoop, Sends;
    WriteLoopSends(c, ev.writeAnswers);
  }

  lemma ServingHasCause(engine: Engine, c: Connection, rng: bv64, ev: ClientEvent)
    ensures HasCause(ServeAndRead(engine, c, rng, ev), ev.readAnswers, ev.stageUpdate)
  {
    hide ReadLoop, ProcessReady;
    var s := ProcessReady(engine, c, rng, ev.now, ev.stageUpdate);
    ProcessHasCause(engine, c, rng, ev.now, ev.stageUpdate, ev.readAnswers);
    ReadLoopHasCause(engine, s.conn, s.rng, ev.readAnswers, ev.now, ev.stageUpdate);
  }
}
