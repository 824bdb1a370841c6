/**
 * The simulator and the engine joined by two lossless byte channels that may hold, delay and cut the bytes at will.
 * Any schedule of the two, and anything the worker's other clients do to the generator meanwhile, is allowed.
 */
module Lockstep {
  import opened Bytes
  import opened Frames
  import opened ConnectionModel
  import opened StreamRefinement
  import opened SspClients

  /** The client: its requests, how many of them it has sent, and the bytes it has received. */
  datatype Client = Client(requests: seq<seq<byte>>, sent: nat, got: seq<byte>)

  /** The engine's side is one connection of a worker, with its part of the log, until it is closed. */
  datatype System = System(client: Client, conn: Connection, fate: Option<CloseReason>, log: seq<Served>)

  datatype Action =
    | ClientSends
    | ClientReceives(count: nat)
    | EngineHandles(rng: bv64, event: ClientEvent)

  function Start(engine: Engine, id: nat, requests: seq<seq<byte>>): System {
    System(Client(requests, 0, []), Opened(engine, id), None, [])
  }

  /** Everything the client has put into its channel. */
  function Outbound(c: Client): seq<byte> {
    FrameAll(c.requests[..Min(c.sent, |c.requests|)])
  }

  function ResponsesOf(c: Client): seq<seq<byte>> {
    DecodeAll(c.got, RESPONSE_LIMIT).frames
  }

  /** The bytes of a response received so far, its header included. */
  function Partial(c: Client): seq<byte> {
    DecodeAll(c.got, RESPONSE_LIMIT).rest
  }

  predicate Waiting(c: Client) {
    |ResponsesOf(c)| < c.sent
  }

  /** What recv_exact still asks for: the rest of the header, then the rest of the payload. */
  function Missing(partial: seq<byte>): int {
    if |partial| < HEADER_SIZE then HEADER_SIZE - |partial|
    else HEADER_SIZE + LengthOf(partial[..HEADER_SIZE]) - |partial|
  }

  /** One step of the pair; an action that is not possible now, or would break a channel's order, changes nothing. */
  function Next(engine: Engine, sys: System, action: Action): System {
    match action
    case ClientSends =>
      if Waiting(sys.client) || sys.client.sent >= |sys.client.requests| then sys
      else sys.(client := sys.client.(sent := sys.client.sent + 1))
    case ClientReceives(count) =>
      var available := |sys.conn.sent| - |sys.client.got|;
      var n := if count <= Missing(Partial(sys.client)) && count <= available then count else 0;
      if !Waiting(sys.client) || n == 0 then sys
      else sys.(client := sys.client.(got := sys.client.got + sys.conn.sent[|sys.client.got|..|sys.client.got| + n]))
    case EngineHandles(rng, event) =>
      var s := HandleEvent(engine, sys.conn, rng, event);
      if sys.fate.Some? || !(s.conn.received <= Outbound(sys.client)) then sys
      else
        System(sys.client, s.conn, if s.verdict.CloseConnection? then Some(s.verdict.reason) else None,
               sys.log + s.served)
  }

  function Run(engine: Engine, sys: System, actions: seq<Action>): System
    decreases |actions|
  {
    if actions == [] then sys else Run(engine, Next(engine, sys, actions[0]), actions[1..])
  }

  // ---- The invariant ----

  predicate EngineInvariant(engine: Engine, sys: System) {
    match sys.fate
    case None => Settled(engine, sys.conn, sys.log)
    case Some(reason) => ClosedFor(engine, sys.conn, sys.log, reason)
  }

  predicate ClientInvariant(c: Client) {
    && c.sent <= |c.requests|
    && |ResponsesOf(c)| <= c.sent <= |ResponsesOf(c)| + 1
    && Extract(Partial(c), RESPONSE_LIMIT) == NeedMoreData
    && (!Waiting(c) ==> Partial(c) == [])
  }

  predicate Invariant(engine: Engine, sys: System) {
    && EngineInvariant(engine, sys)
    && ClientInvariant(sys.client)
    && sys.client.got <= sys.conn.sent
    && sys.conn.received <= Outbound(sys.client)
  }

  /** What was sent on a connection that keeps its books starts a run of framed responses. */
  lemma SentStartsGiven(engine: Engine, c: Connection, log: seq<Served>)
    requires Accounted(engine, c, log)
    ensures c.sent <= FrameAll(Given(log)) && AllAcceptable(Given(log), RESPONSE_LIMIT)
  {
    TakenGivenAcceptable(engine, log);
  }

  /** Filling up an unfinished response by no more than it misses never reads beyond it. */
  lemma FilledUp(partial: seq<byte>, chunk: seq<byte>)
    requires Extract(partial, RESPONSE_LIMIT) == NeedMoreData && |chunk| <= Missing(partial)
    requires Extract(partial + chunk, RESPONSE_LIMIT).FrameReady?
    ensures |partial + chunk| == HEADER_SIZE + |Extract(partial + chunk, RESPONSE_LIMIT).payload|
  {
    if |partial| >= HEADER_SIZE {
      assert (partial + chunk)[..HEADER_SIZE] == partial[..HEADER_SIZE];
    }
  }

  /** A chunk no longer than what is missing either leaves the response unfinished or finishes it exactly. */
  lemma ChunkReceived(got: seq<byte>, chunk: seq<byte>)
    requires Extract(DecodeAll(got, RESPONSE_LIMIT).rest, RESPONSE_LIMIT) == NeedMoreData
    requires |chunk| <= Missing(DecodeAll(got, RESPONSE_LIMIT).rest)
    ensures var d, e := DecodeAll(got, RESPONSE_LIMIT), DecodeAll(got + chunk, RESPONSE_LIMIT);
            (e.frames == d.frames) || (|e.frames| == |d.frames| + 1 && e.rest == [])
  {
    hide Extract, FrameOf, Missing;
    DecodeSound(got, RESPONSE_LIMIT);
    var d := DecodeAll(got, RESPONSE_LIMIT);
    ConcatAssociative(FrameAll(d.frames), d.rest, chunk);
    DecodeFramed(d.frames, d.rest + chunk, RESPONSE_LIMIT);
    var data := d.rest + chunk;
    if Extract(data, RESPONSE_LIMIT).FrameReady? {
      FilledUp(d.rest, chunk);
      ExtractSound(data, RESPONSE_LIMIT);
      assert data[HEADER_SIZE + |Extract(data, RESPONSE_LIMIT).payload|..] == [];
      NothingDecodes();
    }
  }

  lemma NothingDecodes()
    ensures DecodeAll([], RESPONSE_LIMIT) == Decoded([], [])
  {}

  lemma StartInvariant(engine: Engine, id: nat, requests: seq<seq<byte>>)
    ensures Invariant(engine, Start(engine, id, requests))
  {}

  lemma ReceiveKeepsInvariant(engine: Engine, sys: System, count: nat)
    requires Invariant(engine, sys)
    ensures Invariant(engine, Next(engine, sys, ClientReceives(count)))
  {
    hide Settled, ClosedFor, Extract;
    var c, next := sys.client, Next(engine, sys, ClientReceives(count));
    if next != sys {
      var chunk := sys.conn.sent[|c.got|..|c.got| + count];
      assert next.client.got == c.got + chunk;
      assert c.got + chunk <= sys.conn.sent;
      EngineAccounted(engine, sys);
      SentStartsGiven(engine, sys.conn, sys.log);
      PrefixNeverMisframed(c.got + chunk, Given(sys.log), RESPONSE_LIMIT);
      ChunkReceived(c.got, chunk);
      DecodePrefix(c.got, chunk, RESPONSE_LIMIT);
    }
  }

  lemma EngineAccounted(engine: Engine, sys: System)
    requires EngineInvariant(engine, sys)
    ensures Accounted(engine, sys.conn, sys.log)
  {}

  lemma SendKeepsInvariant(engine: Engine, sys: System)
    requires Invariant(engine, sys)
    ensures Invariant(engine, Next(engine, sys, ClientSends))
  {
    hide Settled, ClosedFor, Extract;
    var c, next := sys.client, Next(engine, sys, ClientSends);
    if next != sys {
      assert c.requests[..c.sent + 1] == c.requests[..c.sent] + [c.requests[c.sent]];
      FrameAllAppend(c.requests[..c.sent], c.requests[c.sent]);
    }
  }

  lemma HandleKeepsInvariant(engine: Engine, sys: System, rng: bv64, event: ClientEvent)
    requires Invariant(engine, sys)
    ensures Invariant(engine, Next(engine, sys, EngineHandles(rng, event)))
  {
    hide Settled, ClosedFor, Extract, HandleEvent;
    if sys.fate.None? {
      EventKeepsBooks(engine, sys.conn, rng, event, sys.log);
      EventThreads(engine, sys.conn, rng, event);
    }
  }

  lemma {:induction false} RunKeepsInvariant(engine: Engine, sys: System, actions: seq<Action>)
    requires Invariant(engine, sys)
    ensures Invariant(engine, Run(engine, sys, actions))
    ensures Run(engine, sys, actions).client.requests == sys.client.requests
    decreases |actions|
  {
    hide EngineInvariant, ClientInvariant, HandleEvent, Outbound;
    if actions != [] {
      match actions[0] {
        case ClientSends => SendKeepsInvariant(engine, sys);
        case ClientReceives(count) => ReceiveKeepsInvariant(engine, sys, count);
        case EngineHandles(rng, event) => HandleKeepsInvariant(engine, sys, rng, event);
      }
      RunKeepsInvariant(engine, Next(engine, sys, actions[0]), actions[1..]);
    }
  }

  // ---- What holds on every schedule ----

  /** The requests the engine has taken are the first ones the client sent. */
  lemma TakenAreRequests(engine: Engine, sys: System, limit: nat)
    requires Invariant(engine, sys) && AllAcceptable(sys.client.requests, limit) && engine.maxFrame <= limit
    ensures Taken(sys.log) <= sys.client.requests[..sys.client.sent]
  {
    EngineAccounted(engine, sys);
    TakenGivenAcceptable(engine, sys.log);
    FramesPrefix(Taken(sys.log), sys.conn.read.data, sys.client.requests[..sys.client.sent], limit);
  }

  /** The responses the client has decoded are the first ones the engine gave. */
  lemma ResponsesAreGiven(engine: Engine, sys: System)
    requires Invariant(engine, sys)
    ensures ResponsesOf(sys.client) <= Given(sys.log)
  {
    EngineAccounted(engine, sys);
    SentStartsGiven(engine, sys.conn, sys.log);
    PrefixNeverMisframed(sys.client.got, Given(sys.log), RESPONSE_LIMIT);
  }

  /**
   * Lockstep: on every schedule, at most one request is outstanding; the k-th response the client has decoded is the
   * engine's reply to the k-th request; and the client never meets an invalid length.
   */
  lemma ClientAndEngineInLockstep(engine: Engine, id: nat, requests: seq<seq<byte>>, actions: seq<Action>)
    requires AllAcceptable(requests, U32_LIMIT) && engine.maxFrame <= U32_LIMIT
    ensures var sys := Run(engine, Start(engine, id, requests), actions);
            var responses := ResponsesOf(sys.client);
            && |responses| <= |Given(sys.log)| <= sys.client.sent <= |responses| + 1
            && sys.client.sent <= |requests|
            && Extract(Partial(sys.client), RESPONSE_LIMIT) == NeedMoreData
            && forall k :: 0 <= k < |responses| ==>
                 ReplyTo(engine, requests[k], sys.log[k].now, sys.log[k].before) == Some(responses[k])
  {
    hide Settled, ClosedFor, Extract;
    StartInvariant(engine, id, requests);
    RunKeepsInvariant(engine, Start(engine, id, requests), actions);
    var sys := Run(engine, Start(engine, id, requests), actions);
    TakenAreRequests(engine, sys, U32_LIMIT);
    ResponsesAreGiven(engine, sys);
    EngineAccounted(engine, sys);
    forall k | 0 <= k < |ResponsesOf(sys.client)|
      ensures ReplyTo(engine, requests[k], sys.log[k].now, sys.log[k].before) == Some(ResponsesOf(sys.client)[k])
    {
      assert Genuine(engine, sys.log[k]);
      assert Taken(sys.log)[k] == sys.log[k].payload && Given(sys.log)[k] == sys.log[k].reply.value;
    }
  }

  /**
   * No deadlock: when nothing is in flight in either direction and the connection is open with nothing pending, the
   * client is not left waiting, provided its requests fit into the engine's buffer and limit.
   */
  lemma NothingInFlightMeansNobodyWaits(engine: Engine, id: nat, requests: seq<seq<byte>>, actions: seq<Action>)
    requires AllAcceptable(requests, engine.maxFrame)
    requires var sys := Run(engine, Start(engine, id, requests), actions);
             && sys.fate.None? && !sys.conn.pending
             && sys.conn.received == Outbound(sys.client) && sys.client.got == sys.conn.sent
    ensures !Waiting(Run(engine, Start(engine, id, requests), actions).client)
  {
    StartInvariant(engine, id, requests);
    RunKeepsInvariant(engine, Start(engine, id, requests), actions);
    var sys := Run(engine, Start(engine, id, requests), actions);
    var sent := requests[..sys.client.sent];
    FramesReceived(engine, sys.conn, sys.log);
    DecodeExactly(sent, engine.maxFrame);
    assert DecodeAll(sys.conn.read.data, engine.maxFrame).frames == [];
    assert Taken(sys.log) == sent;
    SentStartsGiven(engine, sys.conn, sys.log);
    assert sys.conn.sent == FrameAll(Given(sys.log));
    DecodeExactly(Given(sys.log), RESPONSE_LIMIT);
  }
}
