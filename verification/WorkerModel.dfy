/**
 * The worker's event loop over values: many connections, one generator, one log. Proved for every run: the worker
 * is equivalent to a sequential engine handling the logged requests one at a time, and every connection sees
 * exactly its own part of that log.
 */
module WorkerModel {
  import opened Bytes
  import opened Frames
  import opened ConnectionModel
  import opened StreamRefinement

  /** `accept4`: a client and whether registering it with epoll succeeds, or errno. */
  datatype AcceptAnswer = Accepted(fd: int, registered: bool) | AcceptWouldBlock | AcceptError

  /** One entry of what epoll_wait reports. */
  datatype Readiness =
    | Shutdown
    | Listening(answers: seq<AcceptAnswer>)
    | Client(fd: int, event: ClientEvent)

  datatype Retired = Retired(conn: Connection, reason: CloseReason)

  datatype Worker = Worker(
    connections: map<int, Connection>,
    nextId: nat,
    rng: bv64,
    log: seq<Served>,            // every request handled so far, over all connections
    retired: map<nat, Retired>)  // what the closed connections were when they were closed

  function Started(rng: bv64): Worker {
    Worker(map[], 1, rng, [], map[])
  }

  /** close_connection. */
  function Close(w: Worker, fd: int, reason: CloseReason): Worker
    requires fd in w.connections
  {
    var conn := w.connections[fd];
    w.(connections := w.connections - {fd}, retired := w.retired[conn.id := Retired(conn, reason)])
  }

  /** The map after emplacing a new client: an occupied key stays as it is. */
  function Emplaced(engine: Engine, w: Worker, fd: int): Worker {
    w.(connections := if fd in w.connections then w.connections else w.connections[fd := Opened(engine, w.nextId)],
       nextId := w.nextId + 1)
  }

  /** One accepted client: its state is emplaced and registered, or dropped again. */
  function Admit(engine: Engine, w: Worker, fd: int, registered: bool): Worker {
    var emplaced := Emplaced(engine, w, fd);
    if registered then emplaced else Close(emplaced, fd, RegistrationFailed)
  }

  /** The accept loop of the listening socket. */
  function AcceptLoop(engine: Engine, w: Worker, answers: seq<AcceptAnswer>): Worker
    decreases |answers|
  {
    if answers == [] || !answers[0].Accepted? then w
    else AcceptLoop(engine, Admit(engine, w, answers[0].fd, answers[0].registered), answers[1..])
  }

  /** The worker in the middle of an event: the connection's step is taken, its verdict not yet carried out. */
  function Handled(w: Worker, fd: int, s: Step): Worker {
    w.(connections := w.connections[fd := s.conn], rng := s.rng, log := w.log + s.served)
  }

  /** An event for a client, ignored when the client is unknown. */
  function ClientStep(engine: Engine, w: Worker, fd: int, ev: ClientEvent): Worker {
    if fd !in w.connections then w
    else
      var s := HandleEvent(engine, w.connections[fd], w.rng, ev);
      match s.verdict
      case CloseConnection(reason) => Close(Handled(w, fd, s), fd, reason)
      case _ => Handled(w, fd, s)
  }

  /** The events of one wake-up, in order; the loop ends at a shutdown. */
  function Batch(engine: Engine, w: Worker, events: seq<Readiness>): (r: (Worker, bool))
    decreases |events|
  {
    if events == [] then (w, false)
    else match events[0]
      case Shutdown => (w, true)
      case Listening(answers) => Batch(engine, AcceptLoop(engine, w, answers), events[1..])
      case Client(fd, ev) => Batch(engine, ClientStep(engine, w, fd, ev), events[1..])
  }

  /** The worker loop over the wake-ups it gets; an interrupted or failed epoll_wait is an empty one. */
  function Run(engine: Engine, w: Worker, batches: seq<seq<Readiness>>): Worker
    decreases |batches|
  {
    if batches == [] then w
    else
      var (next, stopped) := Batch(engine, w, batches[0]);
      if stopped then next else Run(engine, next, batches[1..])
  }

  // ---- The log, per connection and as a whole ----

  /** The part of a log that belongs to a connection. */
  function Of(log: seq<Served>, id: nat): seq<Served> {
    if log == [] then []
    else Of(log[..|log| - 1], id) + (if log[|log| - 1].conn == id then [log[|log| - 1]] else [])
  }

  datatype Call = Call(payload: seq<byte>, now: nat)

  function Calls(log: seq<Served>): seq<Call> {
    seq(|log|, i requires 0 <= i < |log| => Call(log[i].payload, log[i].now))
  }

  /** A sequential engine: one request at a time, each with the generator its predecessor left. */
  function Sequential(engine: Engine, rng: bv64, calls: seq<Call>): (r: (seq<Option<seq<byte>>>, bv64)) {
    if calls == [] then ([], rng)
    else
      var last := calls[|calls| - 1];
      var (replies, before) := Sequential(engine, rng, calls[..|calls| - 1]);
      (replies + [ReplyTo(engine, last.payload, last.now, before)], Handle(engine, last.payload, last.now, before).rng)
  }

  function ReplyOptions(log: seq<Served>): seq<Option<seq<byte>>> {
    seq(|log|, i requires 0 <= i < |log| => log[i].reply)
  }

  // ---- The invariant of the loop ----

  predicate IsOpen(w: Worker, id: nat) {
    exists fd :: fd in w.connections && w.connections[fd].id == id
  }

  predicate Known(w: Worker, id: nat) {
    id in w.retired || IsOpen(w, id)
  }

  /** Open connections have identities of their own, and each is settled with its part of the log. */
  predicate OpenInvariant(engine: Engine, w: Worker) {
    && Identified(w)
    && (forall fd :: fd in w.connections ==> Settled(engine, w.connections[fd], Of(w.log, w.connections[fd].id)))
  }

  /** The same with one connection in the middle of a step. */
  predicate OpenInvariantBut(engine: Engine, w: Worker, busy: int) {
    && Identified(w)
    && (forall fd :: fd in w.connections && fd != busy ==>
          Settled(engine, w.connections[fd], Of(w.log, w.connections[fd].id)))
  }

  predicate Identified(w: Worker) {
    && (forall fd :: fd in w.connections ==> w.connections[fd].id < w.nextId && w.connections[fd].id !in w.retired)
    && (forall f, g :: f in w.connections && g in w.connections && w.connections[f].id == w.connections[g].id ==>
          f == g)
  }

  predicate RetiredInvariant(engine: Engine, w: Worker) {
    forall id :: id in w.retired ==>
      id < w.nextId && w.retired[id].conn.id == id
      && ClosedFor(engine, w.retired[id].conn, Of(w.log, id), w.retired[id].reason)
  }

  predicate LogInvariant(engine: Engine, first: bv64, w: Worker) {
    && AllGenuine(engine, w.log)
    && Chained(first, w.log, w.rng)
    && (forall i :: 0 <= i < |w.log| ==> Known(w, w.log[i].conn))
  }

  predicate Invariant(engine: Engine, first: bv64, w: Worker) {
    OpenInvariant(engine, w) && RetiredInvariant(engine, w) && LogInvariant(engine, first, w)
  }

  lemma {:induction false} OfUnknown(log: seq<Served>, id: nat)
    requires forall i :: 0 <= i < |log| ==> log[i].conn != id
    ensures Of(log, id) == []
  {
    if log != [] {
      OfUnknown(log[..|log| - 1], id);
    }
  }

  lemma OfAppend(log: seq<Served>, served: seq<Served>, id: nat, other: nat)
    requires |served| <= 1 && forall i :: 0 <= i < |served| ==> served[i].conn == id
    ensures Of(log + served, other) == if other == id then Of(log, id) + served else Of(log, other)
  {
    if served == [] {
      assert log + served == log;
    } else {
      assert (log + served)[..|log|] == log;
      assert served == [served[0]];
    }
  }

  lemma ChainedAppend(first: bv64, log: seq<Served>, middle: bv64, served: seq<Served>, last: bv64)
    requires |served| <= 1 && Chained(first, log, middle) && Chained(middle, served, last)
    ensures Chained(first, log + served, last)
  {
    if served == [] {
      assert log + served == log;
    } else {
      assert (log + served)[..|log|] == log;
      assert served[..0] == [];
    }
  }

  lemma StartedInvariant(engine: Engine, first: bv64)
    ensures Invariant(engine, first, Started(first))
  {}

  // ---- Every step of the loop keeps it ----

  /** A closed connection moves from the open ones to the retired ones; whoever was known stays known. */
  lemma CloseKeepsKnown(w: Worker, fd: int, reason: CloseReason, id: nat)
    requires fd in w.connections && Known(w, id)
    ensures Known(Close(w, fd, reason), id)
  {
    var v := Close(w, fd, reason);
    if id !in w.retired && id != w.connections[fd].id {
      var g :| g in w.connections && w.connections[g].id == id;
      assert g in v.connections && v.connections[g].id == id;
    }
  }

  lemma CloseKeepsInvariant(engine: Engine, first: bv64, w: Worker, fd: int, reason: CloseReason)
    requires fd in w.connections && LogInvariant(engine, first, w) && RetiredInvariant(engine, w)
    requires OpenInvariantBut(engine, w, fd)
    ensures ClosedFor(engine, w.connections[fd], Of(w.log, w.connections[fd].id), reason) ==>
              Invariant(engine, first, Close(w, fd, reason))
  {
    hide Settled, ClosedFor, Genuine, Of, Chained;
    if ClosedFor(engine, w.connections[fd], Of(w.log, w.connections[fd].id), reason) {
      var v := Close(w, fd, reason);
      assert OpenInvariant(engine, v);
      assert RetiredInvariant(engine, v);
      forall i | 0 <= i < |w.log|
        ensures Known(v, w.log[i].conn)
      {
        CloseKeepsKnown(w, fd, reason, w.log[i].conn);
      }
    }
  }

  lemma EmplaceKeepsKnown(engine: Engine, w: Worker, fd: int, id: nat)
    requires Known(w, id)
    ensures Known(Emplaced(engine, w, fd), id)
  {
    if id !in w.retired {
      var g :| g in w.connections && w.connections[g].id == id;
      assert Emplaced(engine, w, fd).connections[g].id == id;
    }
  }

  lemma FreshIdUnlogged(engine: Engine, first: bv64, w: Worker)
    requires Invariant(engine, first, w)
    ensures Of(w.log, w.nextId) == []
  {
    hide Settled, ClosedFor, Genuine, Of, Chained;
    forall i | 0 <= i < |w.log|
      ensures w.log[i].conn != w.nextId
    {
      assert Known(w, w.log[i].conn);
    }
    OfUnknown(w.log, w.nextId);
  }

  lemma OpenedSettled(engine: Engine, id: nat)
    ensures Settled(engine, Opened(engine, id), []) && Opened(engine, id).id == id
  {}

  lemma EmplaceKeepsInvariant(engine: Engine, first: bv64, w: Worker, fd: int)
    requires Invariant(engine, first, w)
    ensures Invariant(engine, first, Emplaced(engine, w, fd))
  {
    hide Settled, ClosedFor, Genuine, Opened, Of, Chained;
    var v := Emplaced(engine, w, fd);
    FreshIdUnlogged(engine, first, w);
    OpenedSettled(engine, w.nextId);
    assert OpenInvariant(engine, v);
    assert RetiredInvariant(engine, v);
    forall i | 0 <= i < |w.log|
      ensures Known(v, w.log[i].conn)
    {
      EmplaceKeepsKnown(engine, w, fd, w.log[i].conn);
    }
  }

  lemma AdmitKeepsInvariant(engine: Engine, first: bv64, w: Worker, fd: int, registered: bool)
    requires Invariant(engine, first, w)
    ensures Invariant(engine, first, Admit(engine, w, fd, registered))
  {
    hide Accounted, AllGenuine, Of, Chained;
    EmplaceKeepsInvariant(engine, first, w, fd);
    if !registered {
      CloseKeepsInvariant(engine, first, Emplaced(engine, w, fd), fd, RegistrationFailed);
    }
  }

  lemma {:induction false} AcceptLoopKeepsInvariant(engine: Engine, first: bv64, w: Worker, answers: seq<AcceptAnswer>)
    requires Invariant(engine, first, w)
    ensures Invariant(engine, first, AcceptLoop(engine, w, answers))
    decreases |answers|
  {
    if answers != [] && answers[0].Accepted? {
      AdmitKeepsInvariant(engine, first, w, answers[0].fd, answers[0].registered);
      AcceptLoopKeepsInvariant(engine, first, Admit(engine, w, answers[0].fd, answers[0].registered), answers[1..]);
    }
  }

  lemma HandledLeavesOpen(engine: Engine, w: Worker, fd: int, s: Step)
    requires OpenInvariant(engine, w) && fd in w.connections
    requires Logs(w.connections[fd].id, w.rng, s) && |s.served| <= 1
    ensures OpenInvariantBut(engine, Handled(w, fd, s), fd)
  {
    hide Settled, Of, Chained;
    var v := Handled(w, fd, s);
    forall g | g in v.connections && g != fd
      ensures Settled(engine, v.connections[g], Of(v.log, v.connections[g].id))
    {
      assert v.connections[g] == w.connections[g];
      OfAppend(w.log, s.served, s.conn.id, w.connections[g].id);
    }
  }

  lemma HandledLeavesRetired(engine: Engine, w: Worker, fd: int, s: Step)
    requires RetiredInvariant(engine, w) && fd in w.connections && w.connections[fd].id !in w.retired
    requires Logs(w.connections[fd].id, w.rng, s) && |s.served| <= 1
    ensures RetiredInvariant(engine, Handled(w, fd, s))
  {
    hide ClosedFor, Of, Chained;
    forall id | id in w.retired
      ensures Of(w.log + s.served, id) == Of(w.log, id)
    {
      OfAppend(w.log, s.served, s.conn.id, id);
    }
  }

  lemma HandledKeepsLog(engine: Engine, first: bv64, w: Worker, fd: int, s: Step)
    requires LogInvariant(engine, first, w) && fd in w.connections
    requires Logs(w.connections[fd].id, w.rng, s) && |s.served| <= 1 && AllGenuine(engine, s.served)
    ensures LogInvariant(engine, first, Handled(w, fd, s))
  {
    hide Genuine;
    var v := Handled(w, fd, s);
    ChainedAppend(first, w.log, w.rng, s.served, s.rng);
    forall i | 0 <= i < |v.log|
      ensures Known(v, v.log[i].conn) && Genuine(engine, v.log[i])
    {
      if i < |w.log| {
        HandledKeepsKnown(w, v, fd, w.log[i].conn);
      } else {
        assert v.connections[fd].id == v.log[i].conn;
      }
    }
  }

  lemma HandledKeepsKnown(w: Worker, v: Worker, fd: int, id: nat)
    requires fd in w.connections && fd in v.connections && w.retired == v.retired
    requires v.connections == w.connections[fd := v.connections[fd]] && v.connections[fd].id == w.connections[fd].id
    requires Known(w, id)
    ensures Known(v, id)
  {
    if id !in w.retired {
      var g :| g in w.connections && w.connections[g].id == id;
      assert v.connections[g].id == id;
    }
  }

  /** The entries a step adds are genuine: they end up in the log of a connection that keeps its books. */
  lemma ServedGenuine(engine: Engine, log: seq<Served>, served: seq<Served>)
    requires AllGenuine(engine, log + served)
    ensures AllGenuine(engine, served)
  {
    forall i | 0 <= i < |served|
      ensures Genuine(engine, served[i])
    {
      assert (log + served)[|log| + i] == served[i];
    }
  }

  lemma EventServesGenuinely(engine: Engine, c: Connection, rng: bv64, ev: ClientEvent, log: seq<Served>)
    requires Settled(engine, c, log)
    ensures AllGenuine(engine, HandleEvent(engine, c, rng, ev).served)
  {
    hide HandleEvent, Genuine;
    EventKeepsBooks(engine, c, rng, ev, log);
    ServedGenuine(engine, log, HandleEvent(engine, c, rng, ev).served);
  }

  lemma ClientStepKeepsInvariant(engine: Engine, first: bv64, w: Worker, fd: int, ev: ClientEvent)
    requires Invariant(engine, first, w)
    ensures Invariant(engine, first, ClientStep(engine, w, fd, ev))
  {
    hide Settled, ClosedFor, AllGenuine, Of, Chained, HandleEvent;
    if fd in w.connections {
      var c := w.connections[fd];
      var s := HandleEvent(engine, c, w.rng, ev);
      EventKeepsBooks(engine, c, w.rng, ev, Of(w.log, c.id));
      EventServesGenuinely(engine, c, w.rng, ev, Of(w.log, c.id));
      EventThreads(engine, c, w.rng, ev);
      HandledLeavesOpen(engine, w, fd, s);
      HandledLeavesRetired(engine, w, fd, s);
      HandledKeepsLog(engine, first, w, fd, s);
      OfAppend(w.log, s.served, c.id, c.id);
      match s.verdict
      case CloseConnection(reason) => CloseKeepsInvariant(engine, first, Handled(w, fd, s), fd, reason);
      case _ =>
    }
  }

  lemma {:induction false} BatchKeepsInvariant(engine: Engine, first: bv64, w: Worker, events: seq<Readiness>)
    requires Invariant(engine, first, w)
    ensures Invariant(engine, first, Batch(engine, w, events).0)
    decreases |events|
  {
    if events != [] {
      match events[0]
      case Shutdown =>
      case Listening(answers) =>
        AcceptLoopKeepsInvariant(engine, first, w, answers);
        BatchKeepsInvariant(engine, first, AcceptLoop(engine, w, answers), events[1..]);
      case Client(fd, ev) =>
        ClientStepKeepsInvariant(engine, first, w, fd, ev);
        BatchKeepsInvariant(engine, first, ClientStep(engine, w, fd, ev), events[1..]);
    }
  }

  lemma {:induction false} RunKeepsInvariant(engine: Engine, first: bv64, w: Worker, batches: seq<seq<Readiness>>)
    requires Invariant(engine, first, w)
    ensures Invariant(engine, first, Run(engine, w, batches))
    decreases |batches|
  {
    if batches != [] {
      BatchKeepsInvariant(engine, first, w, batches[0]);
      var (next, stopped) := Batch(engine, w, batches[0]);
      if !stopped {
        RunKeepsInvariant(engine, first, next, batches[1..]);
      }
    }
  }

  // ---- What every run guarantees ----

  lemma {:induction false} LogIsSequential(engine: Engine, first: bv64, log: seq<Served>, last: bv64)
    requires AllGenuine(engine, log) && Chained(first, log, last)
    ensures Sequential(engine, first, Calls(log)) == (ReplyOptions(log), last)
  {
    if log != [] {
      var n := |log| - 1;
      LogIsSequential(engine, first, log[..n], log[n].before);
      assert Calls(log)[..n] == Calls(log[..n]);
      assert ReplyOptions(log) == ReplyOptions(log[..n]) + [log[n].reply];
      assert Genuine(engine, log[n]);
    } else {
      assert Calls(log) == [] && ReplyOptions(log) == [];
    }
  }

  /**
   * Linearisation: however the connections of a worker interleave, the requests it handled are those of one
   * sequential log. Handling them one at a time, starting from the seed, gives the logged replies and leaves the
   * generator where the worker's is.
   */
  lemma RunIsSequential(engine: Engine, seed: bv64, batches: seq<seq<Readiness>>)
    ensures var w := Run(engine, Started(seed), batches);
            Sequential(engine, seed, Calls(w.log)) == (ReplyOptions(w.log), w.rng)
  {
    StartedInvariant(engine, seed);
    RunKeepsInvariant(engine, seed, Started(seed), batches);
    var w := Run(engine, Started(seed), batches);
    LogIsSequential(engine, seed, w.log, w.rng);
  }

  /** The connection of a known identity: as it is, or as it was when it was closed. */
  function ConnectionOf(w: Worker, id: nat): Connection
    requires Known(w, id) && Identified(w)
  {
    if id in w.retired then w.retired[id].conn
    else
      var fd :| fd in w.connections && w.connections[fd].id == id;
      w.connections[fd]
  }

  /** A connection that owes its peer nothing: open with nothing pending, or closed at end of stream. */
  predicate UpToDate(w: Worker, id: nat)
    requires Known(w, id) && Identified(w)
  {
    if id in w.retired then w.retired[id].reason.EndOfStream? else !ConnectionOf(w, id).pending
  }

  /**
   * Isolation: in every run, every request in the log belongs to a connection, and what a connection was sent is a
   * prefix of the reference output for its own bytes and its own part of the log; nothing of another connection's
   * gets in. An open connection with nothing pending, and one closed at end of stream, has got all of it and
   * has had every complete frame handled.
   */
  lemma RunServesEachConnection(engine: Engine, seed: bv64, batches: seq<seq<Readiness>>, id: nat)
    requires Known(Run(engine, Started(seed), batches), id)
    ensures var w := Run(engine, Started(seed), batches);
            && Identified(w)
            && var c, mine := ConnectionOf(w, id), Of(w.log, id);
               && c.id == id
               && Payloads(mine) <= DecodeAll(c.received, engine.maxFrame).frames
               && c.sent <= Serve(engine, c.received, Ticks(mine))
               && (UpToDate(w, id) ==>
                     Payloads(mine) == DecodeAll(c.received, engine.maxFrame).frames
                     && c.sent == Serve(engine, c.received, Ticks(mine)))
  {
    StartedInvariant(engine, seed);
    RunKeepsInvariant(engine, seed, Started(seed), batches);
    var w := Run(engine, Started(seed), batches);
    if id in w.retired {
      ClosedConnectionRefines(engine, w.retired[id].conn, Of(w.log, id), w.retired[id].reason);
    } else {
      OpenConnectionRefines(engine, ConnectionOf(w, id), Of(w.log, id));
    }
  }

  /** Nobody is served unknown: every request handled in a run belongs to a connection that is open or was closed. */
  lemma RunLogsKnownConnections(engine: Engine, seed: bv64, batches: seq<seq<Readiness>>, i: nat)
    requires i < |Run(engine, Started(seed), batches).log|
    ensures var w := Run(engine, Started(seed), batches);
            Known(w, w.log[i].conn) && Genuine(engine, w.log[i])
  {
    StartedInvariant(engine, seed);
    RunKeepsInvariant(engine, seed, Started(seed), batches);
  }

  /** In every run, every request handled fits into the read buffer with its header, whatever the configured limit. */
  lemma RunServesOnlyWhatFits(engine: Engine, seed: bv64, batches: seq<seq<Readiness>>, i: nat)
    requires i < |Run(engine, Started(seed), batches).log|
    ensures FitsBuffer(engine, Run(engine, Started(seed), batches).log[i].payload)
  {
    RunLogsKnownConnections(engine, seed, batches, i);
  }

  /**
   * Which requests are served. In every run, if a connection's peer has sent framed requests of legal length, cut on
   * the way at will, then those served are its first ones, they have arrived, and they and all before them fit into
   * the buffer; and if the connection is up to date, every request of which this can be said is served.
   */
  lemma RunServesRequestIffItFits(engine: Engine, seed: bv64, batches: seq<seq<Readiness>>, id: nat,
                                  requests: seq<seq<byte>>, k: nat)
    requires Known(Run(engine, Started(seed), batches), id) && k < |requests|
    ensures var w := Run(engine, Started(seed), batches);
            && Identified(w)
            && var c, mine := ConnectionOf(w, id), Of(w.log, id);
               SendsRequests(engine, requests, c.received) ==>
                 && Payloads(mine) <= requests
                 && (k < |mine| ==> FirstFit(engine, requests, k + 1) && HasArrived(requests, c.received, k))
                 && (UpToDate(w, id) ==>
                       (k < |mine| <==> FirstFit(engine, requests, k + 1) && HasArrived(requests, c.received, k)))
  {
    hide DecodeAll, Serve, HasArrived;
    RunServesEachConnection(engine, seed, batches, id);
    var w := Run(engine, Started(seed), batches);
    var c, mine := ConnectionOf(w, id), Of(w.log, id);
    RunLogsGenuinely(engine, seed, batches, id);
    if SendsRequests(engine, requests, c.received) {
      ServedRequestsFit(engine, c, mine, requests);
      if UpToDate(w, id) {
        ServedIffFitsAndArrived(engine, c, mine, requests, k);
      }
    }
  }

  lemma RunLogsGenuinely(engine: Engine, seed: bv64, batches: seq<seq<Readiness>>, id: nat)
    ensures AllGenuine(engine, Of(Run(engine, Started(seed), batches).log, id))
  {
    StartedInvariant(engine, seed);
    RunKeepsInvariant(engine, seed, Started(seed), batches);
    OfGenuine(engine, Run(engine, Started(seed), batches).log, id);
  }

  lemma {:induction false} OfGenuine(engine: Engine, log: seq<Served>, id: nat)
    requires AllGenuine(engine, log)
    ensures AllGenuine(engine, Of(log, id))
  {
    hide Genuine;
    if log != [] {
      OfGenuine(engine, log[..|log| - 1], id);
    }
  }

  /**
   * What happens to the first request that does not fit. In every run, such a peer's connection is never closed for
   * a bad length, it is closed for a full buffer only at its first request that does not fit and, of the closes on
   * reading, exactly when a whole buffer of that has come; and while it is open with nothing pending it holds less
   * than a whole buffer of the request it waits for.
   */
  lemma RunClosesAtFirstOversizedRequest(engine: Engine, seed: bv64, batches: seq<seq<Readiness>>, id: nat,
                                         requests: seq<seq<byte>>)
    requires Known(Run(engine, Started(seed), batches), id)
    ensures var w := Run(engine, Started(seed), batches);
            && Identified(w)
            && var c, n := ConnectionOf(w, id), |Of(w.log, id)|;
               SendsRequests(engine, requests, c.received) ==>
                 if id in w.retired then
                   && w.retired[id].reason != BadLength
                   && (w.retired[id].reason == ReadBufferFull && engine.capacity > 0 ==>
                         n < |requests| && FirstFit(engine, requests, n) && !FitsBuffer(engine, requests[n]))
                   && (ClosedOnReading(w.retired[id].reason) ==>
                         n <= |requests|
                         && (w.retired[id].reason == ReadBufferFull <==>
                             |c.received| == |FrameAll(requests[..n])| + engine.capacity))
                 else !c.pending && engine.capacity > 0 ==>
                   n <= |requests| && |c.received| < |FrameAll(requests[..n])| + engine.capacity
  {
    hide Settled, ClosedFor, Genuine, Of, Chained, SendsRequests;
    StartedInvariant(engine, seed);
    RunKeepsInvariant(engine, seed, Started(seed), batches);
    var w := Run(engine, Started(seed), batches);
    var c, mine := ConnectionOf(w, id), Of(w.log, id);
    if SendsRequests(engine, requests, c.received) {
      if id in w.retired {
        OversizedRequestCloses(engine, c, mine, w.retired[id].reason, requests);
      } else if !c.pending && engine.capacity > 0 {
        OversizedRequestNeverHeld(engine, c, mine, requests);
      }
    }
  }

  /**
   * Nothing is stranded: between wake-ups of any run, a connection has a write pending exactly when its write queue
   * holds bytes and exactly when it waits for writability; if it has none, its read queue holds no complete and no
   * invalid frame, so only new bytes can give it something to do.
   */
  lemma RunStrandsNothing(engine: Engine, seed: bv64, batches: seq<seq<Readiness>>, fd: int)
    requires fd in Run(engine, Started(seed), batches).connections
    ensures var c := Run(engine, Started(seed), batches).connections[fd];
            && (c.pending <==> c.write.data != [])
            && (c.pending <==> c.wantsWrite)
            && (!c.pending ==> Extract(c.read.data, engine.maxFrame) == NeedMoreData)
  {
    StartedInvariant(engine, seed);
    RunKeepsInvariant(engine, seed, Started(seed), batches);
  }
}
