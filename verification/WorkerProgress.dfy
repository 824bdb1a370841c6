/** What a worker gets done at the next wake-up of any run: clients accepted, requests served, responses sent. */
module WorkerProgress {
  import opened Bytes
  import opened Frames
  import opened ReusableBuffers
  import opened ConnectionModel
  import opened StreamRefinement
  import opened ConnectionProgress
  import opened WorkerModel

  // ---- Wake-ups, one after the other ----

  predicate GoesOnAfter(events: seq<Readiness>) {
    forall i :: 0 <= i < |events| ==> events[i] != Shutdown
  }

  predicate NeverShutDown(batches: seq<seq<Readiness>>) {
    forall i :: 0 <= i < |batches| ==> GoesOnAfter(batches[i])
  }

  lemma {:induction false} BatchGoesOn(engine: Engine, w: Worker, events: seq<Readiness>)
    requires GoesOnAfter(events)
    ensures !Batch(engine, w, events).1
    decreases |events|
  {
    hide AcceptLoop, ClientStep;
    if events != [] {
      assert events[0] != Shutdown;
      match events[0]
      case Listening(answers) => BatchGoesOn(engine, AcceptLoop(engine, w, answers), events[1..]);
      case Client(fd, ev) => BatchGoesOn(engine, ClientStep(engine, w, fd, ev), events[1..]);
    }
  }

  /** Without a shutdown every wake-up is handled, the next one after all before it. */
  lemma {:induction false} RunThenWakeUp(engine: Engine, w: Worker, batches: seq<seq<Readiness>>,
                                         events: seq<Readiness>)
    requires NeverShutDown(batches)
    ensures Run(engine, w, batches + [events]) == Batch(engine, Run(engine, w, batches), events).0
    decreases |batches|
  {
    hide Batch;
    if batches == [] {
      assert batches + [events] == [events] && [events][1..] == [];
    } else {
      assert (batches + [events])[0] == batches[0] && (batches + [events])[1..] == batches[1..] + [events];
      assert GoesOnAfter(batches[0]);
      BatchGoesOn(engine, w, batches[0]);
      RunThenWakeUp(engine, Batch(engine, w, batches[0]).0, batches[1..], events);
    }
  }

  lemma {:induction false} BatchStops(engine: Engine, w: Worker, head: seq<Readiness>, tail: seq<Readiness>)
    requires GoesOnAfter(head)
    ensures Batch(engine, w, head + [Shutdown] + tail) == (Batch(engine, w, head).0, true)
    decreases |head|
  {
    hide AcceptLoop, ClientStep;
    var events := head + [Shutdown] + tail;
    if head == [] {
      assert events[0] == Shutdown;
    } else {
      assert events[0] == head[0] != Shutdown && events[1..] == head[1..] + [Shutdown] + tail;
      match head[0]
      case Listening(answers) => BatchStops(engine, AcceptLoop(engine, w, answers), head[1..], tail);
      case Client(fd, ev) => BatchStops(engine, ClientStep(engine, w, fd, ev), head[1..], tail);
    }
  }

  /** The run ends at the first shutdown: what is before it is handled, whatever follows is not. */
  lemma {:induction false} RunStopsAtShutdown(engine: Engine, w: Worker, batches: seq<seq<Readiness>>,
                                              head: seq<Readiness>, tail: seq<Readiness>, later: seq<seq<Readiness>>)
    requires NeverShutDown(batches) && GoesOnAfter(head)
    ensures Run(engine, w, batches + [head + [Shutdown] + tail] + later) == Run(engine, w, batches + [head])
    decreases |batches|
  {
    hide Batch;
    var all := batches + [head + [Shutdown] + tail] + later;
    if batches == [] {
      assert all[0] == head + [Shutdown] + tail;
      BatchStops(engine, w, head, tail);
      RunThenWakeUp(engine, w, batches, head);
    } else {
      assert all[0] == batches[0] && all[1..] == batches[1..] + [head + [Shutdown] + tail] + later;
      assert (batches + [head])[0] == batches[0] && (batches + [head])[1..] == batches[1..] + [head];
      assert GoesOnAfter(batches[0]);
      BatchGoesOn(engine, w, batches[0]);
      RunStopsAtShutdown(engine, Batch(engine, w, batches[0]).0, batches[1..], head, tail, later);
    }
  }

  // ---- Accepting ----

  /** Whether a descriptor has a client after some accepts: it had one and none was for it, or the last one stayed. */
  predicate OpenAfter(answers: seq<AcceptAnswer>, fd: int, before: bool)
    decreases |answers|
  {
    if answers == [] || !answers[0].Accepted? then before
    else OpenAfter(answers[1..], fd, if answers[0].fd == fd then answers[0].registered else before)
  }

  /** A connection as it starts, under an id handed out between two points. */
  predicate NewlyOpened(engine: Engine, c: Connection, from: nat, to: nat) {
    from <= c.id < to && c == Opened(engine, c.id)
  }

  lemma AdmitOpens(engine: Engine, w: Worker, accepted: int, registered: bool, fd: int)
    ensures var v := Admit(engine, w, accepted, registered);
            && v.nextId == w.nextId + 1 && v.log == w.log && v.rng == w.rng
            && (fd in v.connections <==> if accepted == fd then registered else fd in w.connections)
            && (fd in v.connections ==>
                  if fd in w.connections then v.connections[fd] == w.connections[fd]
                  else NewlyOpened(engine, v.connections[fd], w.nextId, v.nextId))
  {}

  /**
   * Accepting: after any list of answers, a descriptor has a client exactly if the last accept for it, up to the first
   * answer that is no client, could be registered, or it had one and there was no such accept. New clients start
   * afresh under new ids; the log and the generator are untouched.
   */
  lemma {:induction false} AcceptLoopOpens(engine: Engine, w: Worker, answers: seq<AcceptAnswer>, fd: int)
    ensures var v := AcceptLoop(engine, w, answers);
            && v.nextId >= w.nextId && v.log == w.log && v.rng == w.rng
            && (fd in v.connections <==> OpenAfter(answers, fd, fd in w.connections))
            && (fd in v.connections ==>
                  || (fd in w.connections && v.connections[fd] == w.connections[fd])
                  || NewlyOpened(engine, v.connections[fd], w.nextId, v.nextId))
    decreases |answers|
  {
    hide Admit, Opened;
    if answers != [] && answers[0].Accepted? {
      AdmitOpens(engine, w, answers[0].fd, answers[0].registered, fd);
      AcceptLoopOpens(engine, Admit(engine, w, answers[0].fd, answers[0].registered), answers[1..], fd);
    }
  }

  // ---- The next event of a client, in any run ----

  /** The connection that a descriptor had, as it is or as it was when it was closed. */
  function AfterEvent(v: Worker, fd: int, id: nat): Connection
    requires fd in v.connections || id in v.retired
  {
    if fd in v.connections then v.connections[fd] else v.retired[id].conn
  }

  lemma ClientStepCarriesOut(engine: Engine, w: Worker, fd: int, ev: ClientEvent)
    requires fd in w.connections
    ensures var c, v := w.connections[fd], ClientStep(engine, w, fd, ev);
            var s := HandleEvent(engine, c, w.rng, ev);
            && Batch(engine, w, [Client(fd, ev)]).0 == v
            && v.rng == s.rng && v.log == w.log + s.served && v.nextId == w.nextId
            && match s.verdict
               case CloseConnection(reason) =>
                 v.connections == w.connections - {fd} && v.retired == w.retired[s.conn.id := Retired(s.conn, reason)]
               case _ => v.connections == w.connections[fd := s.conn] && v.retired == w.retired
  {
    hide HandleEvent;
    assert [Client(fd, ev)][1..] == [];
    var v := ClientStep(engine, w, fd, ev);
    assert Batch(engine, v, []) == (v, false);
  }

  /**
   * In any run, the next event of a client has exactly the effect of its handling: the log and the generator move on
   * by it, and the client is kept as it is left, or closed and gone if that is the verdict, a hang-up included.
   */
  lemma RunCarriesOutEvent(engine: Engine, seed: bv64, batches: seq<seq<Readiness>>, fd: int, ev: ClientEvent)
    requires NeverShutDown(batches) && fd in Run(engine, Started(seed), batches).connections
    ensures var w := Run(engine, Started(seed), batches);
            var v := Run(engine, Started(seed), batches + [[Client(fd, ev)]]);
            var c := w.connections[fd];
            var s := HandleEvent(engine, c, w.rng, ev);
            && Settled(engine, c, Of(w.log, c.id))
            && v.rng == s.rng && v.log == w.log + s.served
            && (fd in v.connections <==> !s.verdict.CloseConnection?)
            && (fd !in v.connections ==> c.id in v.retired && v.retired[c.id] == Retired(s.conn, s.verdict.reason))
            && AfterEvent(v, fd, c.id) == s.conn
            && (forall other :: other in w.connections && other != fd ==>
                  other in v.connections && v.connections[other] == w.connections[other])
            && (ev.hangup ==> fd !in v.connections)
  {
    hide Settled, HandleEvent, Batch, ClientStep, Of, Run;
    StartedInvariant(engine, seed);
    RunKeepsInvariant(engine, seed, Started(seed), batches);
    RunThenWakeUp(engine, Started(seed), batches, [Client(fd, ev)]);
    var w := Run(engine, Started(seed), batches);
    ClientStepCarriesOut(engine, w, fd, ev);
    EventThreads(engine, w.connections[fd], w.rng, ev);
    HangupCloses(engine, w.connections[fd], w.rng, ev);
  }

  lemma HangupCloses(engine: Engine, c: Connection, rng: bv64, ev: ClientEvent)
    ensures ev.hangup ==> HandleEvent(engine, c, rng, ev) == Step(c, rng, [], CloseConnection(PeerHangup), 0)
  {}

  /**
   * Sending, in any run: at its next event a client with a response pending is sent what the kernel takes of it, and
   * once all of it is sent, its next request that is buffered already is handled in the same event.
   */
  lemma RunSendsPendingResponse(engine: Engine, seed: bv64, batches: seq<seq<Readiness>>, fd: int, ev: ClientEvent,
                                payload: seq<byte>)
    requires NeverShutDown(batches) && fd in Run(engine, Started(seed), batches).connections
    requires Run(engine, Started(seed), batches).connections[fd].pending && !ev.hangup && ev.writable
    ensures var w := Run(engine, Started(seed), batches);
            var v := Run(engine, Started(seed), batches + [[Client(fd, ev)]]);
            var c := w.connections[fd];
            var n := Min(|c.write.data|, Willing(ev.writeAnswers));
            && (fd in v.connections || c.id in v.retired)
            && AfterEvent(v, fd, c.id).sent == c.sent + c.write.data[..n]
            && (n == |c.write.data| && ev.flushUpdate
                && Extract(c.read.data, engine.maxFrame) == FrameReady(payload) ==>
                  v.log == w.log + [EntryFor(engine, c, payload, ev.now, w.rng)])
  {
    hide Settled, HandleEvent, Run, Extract;
    RunCarriesOutEvent(engine, seed, batches, fd, ev);
    var w := Run(engine, Started(seed), batches);
    var c := w.connections[fd];
    EventSends(engine, c, Of(w.log, c.id), w.rng, ev);
    if Willing(ev.writeAnswers) >= |c.write.data| && ev.flushUpdate
       && Extract(c.read.data, engine.maxFrame) == FrameReady(payload) {
      NextBufferedRequestHandled(engine, c, Of(w.log, c.id), w.rng, ev, payload);
    }
  }

  /**
   * Taking in, in any run: at its next event a client with nothing pending has everything taken in that the kernel
   * brings of its next request, however cut; and a request made whole is logged with its reply.
   */
  lemma RunTakesInRequest(engine: Engine, seed: bv64, batches: seq<seq<Readiness>>, fd: int, ev: ClientEvent,
                          payload: seq<byte>)
    requires NeverShutDown(batches) && fd in Run(engine, Started(seed), batches).connections
    requires var c := Run(engine, Started(seed), batches).connections[fd];
             && !c.pending && !ev.hangup && Acceptable(payload, engine.maxFrame)
             && AllGoOn(ev.readAnswers) && InRoom(c.read, ev.readAnswers)
             && c.read.data + Delivered(ev.readAnswers) <= FrameOf(payload)
    ensures var w := Run(engine, Started(seed), batches);
            var v := Run(engine, Started(seed), batches + [[Client(fd, ev)]]);
            var c := w.connections[fd];
            && (fd in v.connections || c.id in v.retired)
            && AfterEvent(v, fd, c.id).received == c.received + Delivered(ev.readAnswers)
            && v.log == w.log + if c.read.data + Delivered(ev.readAnswers) == FrameOf(payload)
                                then [EntryFor(engine, c, payload, ev.now, w.rng)] else []
  {
    hide Settled, HandleEvent, Run, FrameOf, InRoom;
    RunCarriesOutEvent(engine, seed, batches, fd, ev);
    var w := Run(engine, Started(seed), batches);
    var c := w.connections[fd];
    assert ev.readAnswers + [] == ev.readAnswers;
    EventTakesIn(engine, c, Of(w.log, c.id), w.rng, ev, payload, ev.readAnswers, []);
  }

  // ---- A new client, from accept to response ----

  lemma WholeRequestAnswered(engine: Engine, c: Connection, rng: bv64, now: nat, payload: seq<byte>)
    requires MayRead(engine, c) && c.read == BufferModel(0, [], engine.capacity)
    requires Acceptable(payload, engine.maxFrame) && FitsBuffer(engine, payload)
    ensures var s := HandleEvent(engine, c, rng, WholeRequest(payload, now));
            && Answers(s, EntryFor(engine, c, payload, now, rng), true) && s.conn.sent == c.sent
            && (s.verdict == PauseForWrite ==> s.conn.read.data == [])
  {
    hide Extract;
    StartOfFrame(payload, FrameOf(payload), engine.maxFrame);
    WholeRequestServed(engine, c, rng, now, payload);
    ReadyFrameAnswered(engine, Filled(c, FrameOf(payload)), rng, now, true, payload);
    ServingSendsNothing(engine, c, rng, WholeRequest(payload, now));
  }

  lemma AcceptThenRequest(engine: Engine, w: Worker, fd: int, ev: ClientEvent)
    requires fd !in w.connections
    ensures var c := Opened(engine, w.nextId);
            var s := HandleEvent(engine, c, w.rng, ev);
            var v := Batch(engine, w, [Listening([Accepted(fd, true)]), Client(fd, ev)]).0;
            && v.log == w.log + s.served
            && (!s.verdict.CloseConnection? ==> v.connections == w.connections[fd := s.conn])
  {
    hide HandleEvent, Opened;
    var events := [Listening([Accepted(fd, true)]), Client(fd, ev)];
    assert events[1..] == [Client(fd, ev)] && [Accepted(fd, true)][1..] == [];
    var accepted := Admit(engine, w, fd, true);
    assert AcceptLoop(engine, w, [Accepted(fd, true)]) == AcceptLoop(engine, accepted, []) == accepted;
    ClientStepCarriesOut(engine, accepted, fd, ev);
  }

  /**
   * In any run, a wake-up that accepts a client and then brings it a whole request that fits logs that request; and
   * if it is answered, the next wake-up that finds the socket writable sends the framed reply, all of it, and leaves
   * nothing pending.
   */
  lemma RunAnswersNewClient(engine: Engine, seed: bv64, batches: seq<seq<Readiness>>, fd: int,
                            payload: seq<byte>, now: nat, count: nat, later: nat)
    requires NeverShutDown(batches) && fd !in Run(engine, Started(seed), batches).connections
    requires Acceptable(payload, engine.maxFrame) && FitsBuffer(engine, payload)
    ensures var w := Run(engine, Started(seed), batches);
            var arrival := [Listening([Accepted(fd, true)]), Client(fd, WholeRequest(payload, now))];
            var v := Run(engine, Started(seed), batches + [arrival]);
            var e := EntryFor(engine, Opened(engine, w.nextId), payload, now, w.rng);
            && v.log == w.log + [e]
            && (e.reply.Some? && count >= |FrameOf(e.reply.value)| ==>
                  var u := Run(engine, Started(seed), batches + [arrival] + [[Client(fd, WritableFor(count, later))]]);
                  && fd in u.connections && u.connections[fd].sent == FrameOf(e.reply.value)
                  && !u.connections[fd].pending && u.log == v.log)
  {
    hide HandleEvent, Run, Batch, FrameOf, ReplyTo, AcceptLoop;
    var w := Run(engine, Started(seed), batches);
    var c := Opened(engine, w.nextId);
    var arrival := [Listening([Accepted(fd, true)]), Client(fd, WholeRequest(payload, now))];
    RunThenWakeUp(engine, Started(seed), batches, arrival);
    AcceptThenRequest(engine, w, fd, WholeRequest(payload, now));
    WholeRequestAnswered(engine, c, w.rng, now, payload);
    var s := HandleEvent(engine, c, w.rng, WholeRequest(payload, now));
    var e := EntryFor(engine, c, payload, now, w.rng);
    if e.reply.Some? && count >= |FrameOf(e.reply.value)| {
      ReplySentInFull(engine, seed, batches + [arrival], fd, e.reply.value, count, later);
    }
  }

  /** In any run, a client that has been sent nothing, has no request buffered and a reply pending gets all of it. */
  lemma ReplySentInFull(engine: Engine, seed: bv64, batches: seq<seq<Readiness>>, fd: int, reply: seq<byte>,
                        count: nat, later: nat)
    requires NeverShutDown(batches) && fd in Run(engine, Started(seed), batches).connections
    requires var c := Run(engine, Started(seed), batches).connections[fd];
             && c.pending && c.write.data == FrameOf(reply) && c.sent == [] && c.read.data == []
             && |c.read.data| < engine.capacity
    requires count >= |FrameOf(reply)|
    ensures var v := Run(engine, Started(seed), batches + [[Client(fd, WritableFor(count, later))]]);
            && fd in v.connections && v.connections[fd].sent == FrameOf(reply) && !v.connections[fd].pending
            && v.log == Run(engine, Started(seed), batches).log
  {
    hide HandleEvent, Run, FrameOf;
    var ev := WritableFor(count, later);
    RunCarriesOutEvent(engine, seed, batches, fd, ev);
    var w := Run(engine, Started(seed), batches);
    var c := w.connections[fd];
    SendsAllAndWaits(engine, c, Of(w.log, c.id), w.rng, count, later);
    assert [] + FrameOf(reply) == FrameOf(reply);
  }
}
