/** The simulator and the engine get through: from any reachable rest, a round of actions answers the next request. */
module LockstepProgress {
  import opened Bytes
  import opened Frames
  import opened ReusableBuffers
  import opened ResponseFraming
  import opened ConnectionModel
  import opened StreamRefinement
  import opened ConnectionProgress
  import opened SspClients
  import opened Lockstep

  /** At rest: the connection is open and waits with an empty buffer, both channels are drained, no request is out. */
  predicate AtRest(engine: Engine, sys: System) {
    && Invariant(engine, sys) && sys.fate.None?
    && sys.conn.read == BufferModel(0, [], engine.capacity) && !sys.conn.pending
    && sys.conn.received == Outbound(sys.client) && sys.client.got == sys.conn.sent && !Waiting(sys.client)
  }

  /** One round: send, handle, write, and receive header and payload as recv_exact asks for them. */
  function Round(payload: seq<byte>, reply: seq<byte>, rng: bv64, now: nat): seq<Action> {
    [ClientSends,
     EngineHandles(rng, WholeRequest(payload, now)),
     EngineHandles(rng, WritableFor(|FrameOf(reply)|, now)),
     ClientReceives(HEADER_SIZE),
     ClientReceives(|reply|)]
  }

  lemma RunNext(engine: Engine, sys: System, action: Action, later: seq<Action>)
    ensures Run(engine, sys, [action] + later) == Run(engine, Next(engine, sys, action), later)
  {
    assert ([action] + later)[1..] == later;
  }

  lemma RunFive(engine: Engine, sys: System, a: Action, b: Action, c: Action, d: Action, e: Action)
    ensures Run(engine, sys, [a, b, c, d, e])
         == Next(engine, Next(engine, Next(engine, Next(engine, Next(engine, sys, a), b), c), d), e)
  {
    hide Next;
    var one := Next(engine, sys, a);
    var two := Next(engine, one, b);
    var three := Next(engine, two, c);
    var four := Next(engine, three, d);
    assert [a, b, c, d, e] == [a] + [b, c, d, e] && [b, c, d, e] == [b] + [c, d, e] && [c, d, e] == [c] + [d, e];
    assert [d, e] == [d] + [e] && [e] == [e] + [];
    RunNext(engine, sys, a, [b, c, d, e]);
    RunNext(engine, one, b, [c, d, e]);
    RunNext(engine, two, c, [d, e]);
    RunNext(engine, three, d, [e]);
    RunNext(engine, four, e, []);
  }

  /** The engine's half of a round: the request is taken in and answered, and the reply is sent in full. */
  lemma EngineAnswers(engine: Engine, sys: System, payload: seq<byte>, reply: seq<byte>, rng: bv64, now: nat)
    requires Invariant(engine, sys) && sys.fate.None?
    requires sys.conn.read == BufferModel(0, [], engine.capacity) && !sys.conn.pending
    requires Acceptable(payload, engine.maxFrame) && FitsBuffer(engine, payload)
    requires ReplyTo(engine, payload, now, rng) == Some(reply)
    requires sys.conn.received + FrameOf(payload) <= Outbound(sys.client)
    ensures var t := Next(engine, Next(engine, sys, EngineHandles(rng, WholeRequest(payload, now))),
                          EngineHandles(rng, WritableFor(|FrameOf(reply)|, now)));
            && Invariant(engine, t) && t.fate.None? && t.client == sys.client
            && t.conn.read == BufferModel(0, [], engine.capacity) && !t.conn.pending
            && t.conn.received == sys.conn.received + FrameOf(payload)
            && t.conn.sent == sys.conn.sent + FrameOf(reply)
  {
    hide Settled, HandleEvent, Extract, FrameOf, Outbound, ReplyTo;
    var served := HandleEvent(engine, sys.conn, rng, WholeRequest(payload, now));
    EngineTakesRequest(engine, sys.conn, sys.log, payload, reply, rng, now);
    HandleKeepsInvariant(engine, sys, rng, WholeRequest(payload, now));
    var mid := Next(engine, sys, EngineHandles(rng, WholeRequest(payload, now)));
    var ev := WritableFor(|FrameOf(reply)|, now);
    NothingBuffered(engine);
    SendsAllAndWaits(engine, mid.conn, mid.log, rng, |FrameOf(reply)|, now);
    HandleKeepsInvariant(engine, mid, rng, ev);
  }

  lemma NothingBuffered(engine: Engine)
    ensures Extract([], engine.maxFrame) == NeedMoreData
    ensures engine.capacity > 0 ==>
              MakeRoom(BufferModel(0, [], engine.capacity)) == BufferModel(0, [], engine.capacity)
  {}

  lemma EngineTakesRequest(engine: Engine, c: Connection, log: seq<Served>, payload: seq<byte>, reply: seq<byte>,
                           rng: bv64, now: nat)
    requires Settled(engine, c, log) && c.read == BufferModel(0, [], engine.capacity) && !c.pending
    requires Acceptable(payload, engine.maxFrame) && FitsBuffer(engine, payload)
    requires ReplyTo(engine, payload, now, rng) == Some(reply)
    ensures var s := HandleEvent(engine, c, rng, WholeRequest(payload, now));
            && s.verdict == PauseForWrite && s.conn.pending && s.conn.write.data == FrameOf(reply)
            && s.conn.read == BufferModel(0, [], engine.capacity)
            && s.conn.received == c.received + FrameOf(payload) && s.conn.sent == c.sent
  {
    hide Extract;
    WholeRequestServed(engine, c, rng, now, payload);
    StartOfFrame(payload, FrameOf(payload), engine.maxFrame);
    assert [] + FrameOf(payload) == FrameOf(payload);
  }

  /** A waiting client reads what it asks for, when that much is on its way. */
  lemma ClientReads(engine: Engine, sys: System, chunk: seq<byte>, tail: seq<byte>)
    requires Waiting(sys.client) && sys.conn.sent == (sys.client.got + chunk) + tail
    requires |chunk| == Missing(Partial(sys.client))
    ensures Next(engine, sys, ClientReceives(|chunk|)) == sys.(client := sys.client.(got := sys.client.got + chunk))
  {
    hide Waiting, Missing, Partial;
    var got := sys.client.got;
    SlicesOfConcat(got + chunk, tail, |got|, |got| + |chunk|);
    SlicesOfConcat(got, chunk, 0, 0);
    assert chunk == [] ==> got + chunk == got;
  }

  /** A client that has decoded some responses and no more, with further bytes coming. */
  lemma Decodes(client: Client, tail: seq<byte>)
    requires Partial(client) == []
    ensures DecodeAll(client.got + tail, RESPONSE_LIMIT)
         == Decoded(ResponsesOf(client) + DecodeAll(tail, RESPONSE_LIMIT).frames, DecodeAll(tail, RESPONSE_LIMIT).rest)
  {
    hide DecodeAll, FrameAll;
    DecodeSound(client.got, RESPONSE_LIMIT);
    var before := ResponsesOf(client);
    assert FrameAll(before) + [] == FrameAll(before);
    DecodeFramed(before, tail, RESPONSE_LIMIT);
  }

  /** The client's half: the framed reply is received in two reads and is one more response. */
  lemma ClientReceivesReply(engine: Engine, sys: System, reply: seq<byte>)
    requires Waiting(sys.client) && Partial(sys.client) == []
    requires sys.conn.sent == sys.client.got + FrameOf(reply) && Acceptable(reply, RESPONSE_LIMIT)
    ensures var t := Next(engine, Next(engine, sys, ClientReceives(HEADER_SIZE)), ClientReceives(|reply|));
            && t == sys.(client := sys.client.(got := sys.conn.sent))
            && ResponsesOf(t.client) == ResponsesOf(sys.client) + [reply] && Partial(t.client) == []
  {
    hide Extract, DecodeAll, Next;
    var got, header := sys.client.got, HeaderOf(|reply|);
    ConcatAssociative(got, header, reply);
    HeaderRoundTrip(|reply|, header);
    assert header[..HEADER_SIZE] == header;
    ClientReads(engine, sys, header, reply);
    var mid := sys.(client := sys.client.(got := got + header));
    HeaderUnfinished(reply);
    Decodes(sys.client, header);
    assert ResponsesOf(sys.client) + [] == ResponsesOf(sys.client);
    assert (got + header) + reply == ((got + header) + reply) + [];
    ClientReads(engine, mid, reply, []);
    FrameFinished(reply);
    Decodes(sys.client, FrameOf(reply));
  }

  lemma HeaderUnfinished(reply: seq<byte>)
    requires Acceptable(reply, RESPONSE_LIMIT)
    ensures DecodeAll(HeaderOf(|reply|), RESPONSE_LIMIT) == Decoded([], HeaderOf(|reply|))
  {
    UnfinishedFrame(reply, HEADER_SIZE, RESPONSE_LIMIT);
    assert FrameOf(reply)[..HEADER_SIZE] == HeaderOf(|reply|);
  }

  lemma FrameFinished(reply: seq<byte>)
    requires Acceptable(reply, RESPONSE_LIMIT)
    ensures DecodeAll(FrameOf(reply), RESPONSE_LIMIT) == Decoded([reply], [])
  {
    DecodeReady(reply, [], RESPONSE_LIMIT);
    NothingDecodes();
    assert FrameOf(reply) + [] == FrameOf(reply);
  }

  /** From rest, a round takes the pair to rest again with the next request answered. */
  lemma RoundAnswersNext(engine: Engine, sys: System, reply: seq<byte>, rng: bv64, now: nat)
    requires AtRest(engine, sys) && sys.client.sent < |sys.client.requests|
    requires var payload := sys.client.requests[sys.client.sent];
             && Acceptable(payload, engine.maxFrame) && FitsBuffer(engine, payload)
             && ReplyTo(engine, payload, now, rng) == Some(reply)
    ensures var payload := sys.client.requests[sys.client.sent];
            var t := Run(engine, sys, Round(payload, reply, rng, now));
            && AtRest(engine, t) && t.client.requests == sys.client.requests
            && ResponsesOf(t.client) == ResponsesOf(sys.client) + [reply]
  {
    hide HandleEvent, Settled, ClosedFor, Extract, FrameOf, ReplyTo, DecodeAll, Missing;
    var c := sys.client;
    var payload := c.requests[c.sent];
    var sent := Next(engine, sys, ClientSends);
    SendKeepsInvariant(engine, sys);
    assert c.requests[..c.sent + 1] == c.requests[..c.sent] + [payload];
    FrameAllAppend(c.requests[..c.sent], payload);
    EngineAnswers(engine, sent, payload, reply, rng, now);
    var answered := Next(engine, Next(engine, sent, EngineHandles(rng, WholeRequest(payload, now))),
                         EngineHandles(rng, WritableFor(|FrameOf(reply)|, now)));
    ReplyAcceptable(engine, payload, reply, rng, now);
    ClientReceivesReply(engine, answered, reply);
    var got := Next(engine, answered, ClientReceives(HEADER_SIZE));
    ReceiveKeepsInvariant(engine, answered, HEADER_SIZE);
    ReceiveKeepsInvariant(engine, got, |reply|);
    RunFive(engine, sys, ClientSends, EngineHandles(rng, WholeRequest(payload, now)),
            EngineHandles(rng, WritableFor(|FrameOf(reply)|, now)), ClientReceives(HEADER_SIZE),
            ClientReceives(|reply|));
  }

  lemma ReplyAcceptable(engine: Engine, payload: seq<byte>, reply: seq<byte>, rng: bv64, now: nat)
    requires ReplyTo(engine, payload, now, rng) == Some(reply)
    ensures Acceptable(reply, RESPONSE_LIMIT)
  {}

  /** A request of legal length that fits and is answered at a time and generator state. */
  predicate Answerable(engine: Engine, payload: seq<byte>, tick: Tick) {
    && Acceptable(payload, engine.maxFrame) && FitsBuffer(engine, payload)
    && ReplyTo(engine, payload, tick.now, tick.rng).Some?
  }

  lemma {:induction false} RunConcat(engine: Engine, sys: System, actions: seq<Action>, more: seq<Action>)
    ensures Run(engine, sys, actions + more) == Run(engine, Run(engine, sys, actions), more)
    decreases |actions|
  {
    hide Next;
    if actions == [] {
      assert actions + more == more;
    } else {
      assert (actions + more)[0] == actions[0] && (actions + more)[1..] == actions[1..] + more;
      RunConcat(engine, Next(engine, sys, actions[0]), actions[1..], more);
    }
  }

  /**
   * Completion: from any rest, for any times and generator states at which the requests still to come are answerable,
   * there is a schedule on which the client gets a response to every one of them.
   */
  lemma {:induction false} ExchangeCompletes(engine: Engine, sys: System, ticks: seq<Tick>)
    returns (actions: seq<Action>)
    requires AtRest(engine, sys) && |ticks| == |sys.client.requests|
    requires forall k :: sys.client.sent <= k < |sys.client.requests| ==>
               Answerable(engine, sys.client.requests[k], ticks[k])
    ensures var t := Run(engine, sys, actions);
            AtRest(engine, t) && |ResponsesOf(t.client)| == |t.client.requests| == |sys.client.requests|
    decreases |sys.client.requests| - |ResponsesOf(sys.client)|
  {
    hide Settled, ClosedFor, Extract, DecodeAll, ReplyTo, Next, FrameAll;
    if sys.client.sent == |sys.client.requests| {
      actions := [];
    } else {
      var payload, tick := sys.client.requests[sys.client.sent], ticks[sys.client.sent];
      assert Answerable(engine, payload, tick);
      var reply := ReplyTo(engine, payload, tick.now, tick.rng).value;
      RoundAnswersNext(engine, sys, reply, tick.rng, tick.now);
      var round := Round(payload, reply, tick.rng, tick.now);
      var rest := ExchangeCompletes(engine, Run(engine, sys, round), ticks);
      RunConcat(engine, sys, round, rest);
      actions := round + rest;
    }
  }

  lemma StartsAtRest(engine: Engine, id: nat, requests: seq<seq<byte>>)
    ensures AtRest(engine, Start(engine, id, requests))
  {
    StartInvariant(engine, id, requests);
    NothingDecodes();
  }
}
