/** The worker's event loop as it runs: connection objects over in-place buffers, refining the value-level machine. */
module WorkerRuntimes {
  import opened Bytes
  import opened Frames
  import opened ReusableBuffers
  import opened ResponseFraming
  import opened ConnectionModel
  import opened WorkerModel
  import opened WorkerRngs

  class ConnectionState {
    const connectionId: nat
    const readBuffer: ReusableBuffer
    const writeBuffer: ReusableBuffer
    var hasPendingWrite: bool
    ghost var wantsWrite: bool       // the kernel's interest set for this client
    ghost var received: seq<byte>    // what the kernel has handed over
    ghost var sent: seq<byte>        // what the kernel has accepted

    ghost function Footprint(): set<object>
      reads this, readBuffer, writeBuffer
    {
      {this, readBuffer, readBuffer.storage, writeBuffer, writeBuffer.storage}
    }

    ghost predicate Valid()
      reads this, readBuffer, writeBuffer
    {
      && readBuffer != writeBuffer && readBuffer.storage != writeBuffer.storage
      && readBuffer.Valid() && writeBuffer.Valid()
    }

    ghost function Model(): Connection
      requires Valid()
      reads this, readBuffer, readBuffer.storage, writeBuffer, writeBuffer.storage
    {
      Connection(connectionId, readBuffer.Model(), writeBuffer.Model(), hasPendingWrite, wantsWrite, received, sent)
    }

    constructor (engine: Engine, id: nat)
      ensures Valid() && fresh(Footprint()) && Model() == Opened(engine, id)
    {
      connectionId := id;
      readBuffer := new ReusableBuffer();
      writeBuffer := new ReusableBuffer();
      hasPendingWrite, wantsWrite := false, false;
      received, sent := [], [];
      new;
      readBuffer.Reserve(engine.capacity);
      writeBuffer.Reserve(engine.capacity);
    }

    /** update_client_events. */
    method UpdateClientEvents(enableWrite: bool, updateOk: bool) returns (ok: bool)
      requires Valid()
      modifies this`wantsWrite
      ensures Valid() && ok == updateOk
      ensures Model() == if updateOk then old(Model()).(wantsWrite := enableWrite) else old(Model())
    {
      if updateOk {
        wantsWrite := enableWrite;
      }
      return updateOk;
    }

    /** The kernel takes a prefix of what it is offered: at most the count it is willing to take. */
    method KernelWrite(count: nat) returns (bytesWritten: nat)
      requires Valid()
      modifies this`sent
      ensures Valid() && bytesWritten == Min(count, |old(Model()).write.data|)
      ensures Model() == old(Model()).(sent := old(sent) + old(Model()).write.data[..bytesWritten])
      ensures bytesWritten == 0 ==> Model() == old(Model())
    {
      bytesWritten := Min(count, writeBuffer.ReadableBytes());
      sent := sent + writeBuffer.Model().data[..bytesWritten];
    }

    /** Bytes the kernel has taken leave the write queue. */
    method DropSent(bytesWritten: nat)
      requires Valid() && bytesWritten > 0
      modifies writeBuffer`readOffset, writeBuffer`writeOffset
      ensures Valid() && Model() == old(Model()).(write := old(Model()).write.Consumed(bytesWritten))
      ensures old(writeBuffer.ReadableBytes()) > 0 ==> writeBuffer.ReadableBytes() < old(writeBuffer.ReadableBytes())
    {
      writeBuffer.ConsumeFrame(bytesWritten);
    }

    /** The write loop. Apart from interruptions, every turn leaves fewer bytes unsent. */
    method WriteAll(answers: seq<WriteAnswer>) returns (ok: bool)
      requires Valid()
      modifies this`sent, writeBuffer`readOffset, writeBuffer`writeOffset
      ensures Valid() && (Model(), ok) == WriteLoop(old(Model()), answers)
    {
      var i := 0;
      while writeBuffer.ReadableBytes() > 0 && i < |answers|
        invariant Valid() && i <= |answers|
        invariant WriteLoop(old(Model()), answers) == WriteLoop(Model(), answers[i..])
        decreases writeBuffer.ReadableBytes(), |answers| - i
      {
        var answer := answers[i];
        assert answers[i..][0] == answer && answers[i..][1..] == answers[i + 1..];
        i := i + 1;
        match answer
        case Accepts(count) =>
          var bytesWritten := KernelWrite(count);
          if bytesWritten == 0 {
            return false;
          }
          DropSent(bytesWritten);
        case WriteInterrupted =>
        case WriteWouldBlock => return true;
        case WriteError => return false;
      }
      return true;
    }

    /** flush_pending_write. */
    method FlushPendingWrite(answers: seq<WriteAnswer>, updateOk: bool) returns (verdict: Verdict)
      requires Valid()
      modifies this`hasPendingWrite, this`wantsWrite, this`sent, writeBuffer`readOffset, writeBuffer`writeOffset
      ensures Valid() && (Model(), verdict) == Flush(old(Model()), answers, updateOk)
    {
      var ok := WriteAll(answers);
      if !ok {
        return CloseConnection(WriteFailed);
      }
      hasPendingWrite := writeBuffer.ReadableBytes() != 0;
      var updated := UpdateClientEvents(hasPendingWrite, updateOk);
      return if updated then Proceed else CloseConnection(InterestUpdateFailed);
    }

    /** Stages the reply to the frame at the head of the read queue, and takes the frame, if it can be staged. */
    method StageReply(payload: seq<byte>, reply: Option<seq<byte>>) returns (staged: bool)
      requires Valid()
      modifies this`hasPendingWrite, readBuffer`readOffset, readBuffer`writeOffset, writeBuffer, writeBuffer.storage
      ensures Valid()
      ensures writeBuffer.storage == old(writeBuffer.storage) || fresh(writeBuffer.storage)
      ensures staged <==> reply.Some? && Stageable(reply.value) && old(Model()).write.data == []
      ensures Model() == if !staged then old(Model())
                         else old(Model()).(write := Staged(old(Model()).write, reply.value),
                                            read := old(Model()).read.Consumed(HEADER_SIZE + |payload|),
                                            pending := true)
    {
      if reply.None? {
        return false;
      }
      staged := StageResponseFrame(reply.value, writeBuffer);
      if staged {
        readBuffer.ConsumeFrame(HEADER_SIZE + |payload|);
        hasPendingWrite := true;
      }
    }

    /** process_ready_frames, with the ghost record of the request it handled. */
    method ProcessReadyFrames(engine: Engine, rng: WorkerRng, now: nat, updateOk: bool)
      returns (verdict: Verdict, ghost served: seq<Served>)
      requires Valid()
      modifies this`hasPendingWrite, this`wantsWrite, rng
      modifies readBuffer`readOffset, readBuffer`writeOffset, writeBuffer, writeBuffer.storage
      ensures Valid()
      ensures writeBuffer.storage == old(writeBuffer.storage) || fresh(writeBuffer.storage)
      ensures Step(Model(), rng.state, served, verdict, 0)
           == ProcessReady(engine, old(Model()), old(rng.state), now, updateOk)
    {
      hide Extract, Stageable, Staged, Handle, ReusableBuffer.Model;
      var status := readBuffer.TryExtractFrame(engine.maxFrame);
      match status
      case NeedMoreData => return Proceed, [];
      case InvalidLength => return CloseConnection(BadLength), [];
      case FrameReady(payload) =>
        var handling := Handle(engine, payload, now, rng.state);
        ghost var entry := Served(connectionId, payload, now, rng.state, None, handling.rng);
        rng.state := handling.rng;
        var staged := StageReply(payload, handling.reply);
        if !staged {
          return CloseConnection(NotAnswered), [entry];
        }
        var updated := UpdateClientEvents(true, updateOk);
        return if updated then PauseForWrite else CloseConnection(InterestUpdateFailed),
               [entry.(reply := handling.reply)];
    }

    /** The step without its count of reads, which the running code does not keep. */
    static ghost function Uncounted(s: Step): Step {
      s.(arrivals := 0)
    }

    /** Makes room behind the unread bytes if there is none. */
    method MakeReadRoom()
      requires Valid()
      modifies readBuffer`readOffset, readBuffer`writeOffset, readBuffer.storage
      ensures Valid() && Model() == old(Model()).(read := MakeRoom(old(Model()).read))
    {
      if readBuffer.WritableBytes() == 0 {
        readBuffer.Compact();
      }
    }

    /** The kernel fills the writable region with a chunk of at most its size, which is committed. */
    method KernelRead(bytes: seq<byte>)
      requires Valid()
      modifies this`received, readBuffer`writeOffset, readBuffer.storage
      ensures Valid() && Model() == Filled(old(Model()), bytes[..Min(|bytes|, old(Model()).read.Room())])
    {
      var chunk := bytes[..Min(|bytes|, readBuffer.WritableBytes())];
      readBuffer.FillWritableRegion(chunk);
      received := received + chunk;
      readBuffer.CommitWrite(|chunk|);
    }

    /** One turn of the read loop; no verdict yet means it goes on. */
    method ReadOnce(engine: Engine, rng: WorkerRng, answers: seq<ReadAnswer>, i: nat, now: nat, updateOk: bool)
      returns (verdict: Option<Verdict>, ghost served: seq<Served>)
      requires Valid() && i <= |answers|
      modifies this`hasPendingWrite, this`wantsWrite, this`received, this`sent, rng
      modifies readBuffer`readOffset, readBuffer`writeOffset, readBuffer.storage, writeBuffer, writeBuffer.storage
      ensures Valid()
      ensures writeBuffer.storage == old(writeBuffer.storage) || fresh(writeBuffer.storage)
      ensures match ReadTurn(engine, old(Model()), old(rng.state), answers[i..], now, updateOk)
              case Stop(s) => verdict.Some? && Uncounted(s) == Step(Model(), rng.state, served, verdict.value, 0)
              case GoOn(d, arrivals) => verdict.None? && Model() == d && rng.state == old(rng.state)
                                        && (arrivals == 0 ==> |d.read.data| == |old(Model()).read.data|)
                                        && (arrivals > 0 ==> |d.read.data| > |old(Model()).read.data|)
    {
      hide ProcessReady, MakeRoom;
      MakeReadRoom();
      if readBuffer.WritableBytes() == 0 {
        return Some(CloseConnection(ReadBufferFull)), [];
      }
      if i == |answers| {
        return Some(Proceed), [];
      }
      match answers[i]
      case Arrived(bytes) =>
        if |bytes| == 0 {
          return Some(CloseConnection(EndOfStream)), [];
        }
        KernelRead(bytes);
        ghost var filled := Model();
        var outcome;
        outcome, served := ProcessReadyFrames(engine, rng, now, updateOk);
        ProcessThreads(engine, filled, old(rng.state), now, updateOk);
        return if outcome == Proceed then None else Some(outcome), served;
      case ReadInterrupted => return None, [];
      case ReadWouldBlock => return Some(Proceed), [];
      case ReadError => return Some(CloseConnection(ReadFailed)), [];
    }

    /** The read loop. Apart from interruptions, every turn that goes on leaves less free room in the buffer. */
    method ReadAll(engine: Engine, rng: WorkerRng, answers: seq<ReadAnswer>, now: nat, updateOk: bool)
      returns (verdict: Verdict, ghost served: seq<Served>)
      requires Valid()
      modifies this`hasPendingWrite, this`wantsWrite, this`received, this`sent, rng
      modifies readBuffer`readOffset, readBuffer`writeOffset, readBuffer.storage, writeBuffer, writeBuffer.storage
      ensures Valid()
      ensures writeBuffer.storage == old(writeBuffer.storage) || fresh(writeBuffer.storage)
      ensures Step(Model(), rng.state, served, verdict, 0)
           == Uncounted(ReadLoop(engine, old(Model()), old(rng.state), answers, now, updateOk))
    {
      hide ReadTurn, ProcessReady;
      ghost var seed := rng.state;
      ghost var outcome := Uncounted(ReadLoop(engine, Model(), seed, answers, now, updateOk));
      var i := 0;
      while true
        invariant Valid() && i <= |answers| && rng.state == seed
        invariant writeBuffer.storage == old(writeBuffer.storage) || fresh(writeBuffer.storage)
        invariant outcome == Uncounted(ReadLoop(engine, Model(), seed, answers[i..], now, updateOk))
        decreases readBuffer.storage.Length - readBuffer.ReadableBytes(), |answers| - i
      {
        ghost var c := Model();
        var turn;
        turn, served := ReadOnce(engine, rng, answers, i, now, updateOk);
        if turn.Some? {
          return turn.value, served;
        }
        UncountedTurn(engine, c, seed, answers[i..], now, updateOk);
        assert answers[i..][1..] == answers[i + 1..];
        i := i + 1;
      }
    }

    static lemma UncountedTurn(engine: Engine, c: Connection, rng: bv64, answers: seq<ReadAnswer>,
                               now: nat, updateOk: bool)
      requires ReadTurn(engine, c, rng, answers, now, updateOk).GoOn?
      ensures Uncounted(ReadLoop(engine, c, rng, answers, now, updateOk))
           == Uncounted(ReadLoop(engine, ReadTurn(engine, c, rng, answers, now, updateOk).conn, rng, answers[1..],
                                 now, updateOk))
    {}

    /** The client branch of the event loop, up to closing the connection. */
    method HandleReadiness(engine: Engine, rng: WorkerRng, ev: ClientEvent)
      returns (verdict: Verdict, ghost served: seq<Served>)
      requires Valid()
      modifies this`hasPendingWrite, this`wantsWrite, this`received, this`sent, rng
      modifies readBuffer`readOffset, readBuffer`writeOffset, readBuffer.storage, writeBuffer, writeBuffer.storage
      ensures Valid()
      ensures writeBuffer.storage == old(writeBuffer.storage) || fresh(writeBuffer.storage)
      ensures Step(Model(), rng.state, served, verdict, 0)
           == Uncounted(HandleEvent(engine, old(Model()), old(rng.state), ev))
    {
      hide ProcessReady, ReadLoop, Flush, ReusableBuffer.Model;
      if ev.hangup {
        return CloseConnection(PeerHangup), [];
      }
      if hasPendingWrite {
        if ev.writable {
          verdict := FlushPendingWrite(ev.writeAnswers, ev.flushUpdate);
          if verdict != Proceed {
            return verdict, [];
          }
        }
        if hasPendingWrite {
          return Proceed, [];
        }
      }
      ghost var ready := Model();
      verdict, served := ProcessReadyFrames(engine, rng, ev.now, ev.stageUpdate);
      ProcessThreads(engine, ready, old(rng.state), ev.now, ev.stageUpdate);
      if verdict != Proceed {
        return;
      }
      verdict, served := ReadAll(engine, rng, ev.readAnswers, ev.now, ev.stageUpdate);
    }
  }

  class WorkerRuntime {
    const engine: Engine
    const rng: WorkerRng
    var connections: map<int, ConnectionState>
    var nextConnectionId: nat
    ghost var log: seq<Served>
    ghost var retired: map<nat, Retired>
    ghost var owner: map<object, int>   // which descriptor's client an object is part of

    ghost function Repr(): set<object>
      reads this
    {
      owner.Keys + {this, rng}
    }

    ghost predicate OwnedBy(o: object, fd: int)
      reads this
    {
      o in owner && owner[o] == fd
    }

    /** A client's objects are its own, apart from every other client's and from the worker itself. */
    ghost predicate Owns(fd: int)
      requires fd in connections
      reads this, Repr()
    {
      var c := connections[fd];
      && OwnedBy(c, fd) && OwnedBy(c.readBuffer, fd) && OwnedBy(c.writeBuffer, fd)
      && OwnedBy(c.readBuffer.storage, fd) && OwnedBy(c.writeBuffer.storage, fd)
      && c.Valid()
    }

    ghost predicate Valid()
      reads this, Repr()
    {
      && this !in owner && rng !in owner
      && forall fd :: fd in connections ==> Owns(fd)
    }

    ghost function Model(): (w: Worker)
      requires Valid()
      reads this, Repr()
      ensures w.connections.Keys == connections.Keys && w.nextId == nextConnectionId
    {
      Worker(map fd | fd in connections :: connections[fd].Model(), nextConnectionId, rng.state, log, retired)
    }

    /** The loop's state after initialize_worker_runtime; the seed mixes worker id, clock and a constant. */
    constructor (engine: Engine, seedValue: bv64)
      ensures Valid() && fresh(Repr()) && this.engine == engine && Model() == Started(Seeded(seedValue))
    {
      this.engine := engine;
      var generator := new WorkerRng();
      generator.Seed(seedValue);
      rng := generator;
      connections := map[];
      nextConnectionId := 1;
      log, retired := [], map[];
      owner := map[];
    }

    /** Records the objects of a client, some of them perhaps new, as its own. */
    ghost method Adopt(fd: int)
      requires fd in connections && this !in owner && rng !in owner
      requires var c := connections[fd];
               c.Valid() && c.Footprint() !! {this, rng}
               && forall o :: o in c.Footprint() && o in owner ==> owner[o] == fd
      requires forall g :: g in connections && g != fd ==> Owns(g)
      modifies this`owner
      ensures Valid()
      ensures owner.Keys == old(owner).Keys + connections[fd].Footprint()
      ensures forall g :: g in connections ==> connections[g].Model() == old(connections[g].Model())
    {
      hide ConnectionState.Model, ConnectionState.Valid;
      owner := owner + map o: object | o in connections[fd].Footprint() :: fd;
    }

    /** close_connection. */
    method CloseClient(fd: int, ghost reason: CloseReason)
      requires Valid() && fd in connections
      modifies this
      ensures Valid() && Repr() == old(Repr()) && Model() == Close(old(Model()), fd, reason)
    {
      hide ConnectionState.Model, ConnectionState.Valid;
      ghost var conn := connections[fd].Model();
      retired := retired[conn.id := Retired(conn, reason)];
      connections := connections - {fd};
    }

    /** Puts a client, whose objects nobody owns, under a free descriptor. */
    method Insert(fd: int, connection: ConnectionState)
      requires Valid() && fd !in connections && connection.Footprint() !! Repr() && connection.Valid()
      modifies this`connections, this`owner
      ensures Valid() && Repr() <= old(Repr()) + connection.Footprint()
      ensures Model() == old(Model()).(connections := old(Model()).connections[fd := connection.Model()])
    {
      hide ConnectionState.Model, ConnectionState.Valid;
      ghost var after := Model().connections[fd := connection.Model()];
      connections := connections[fd := connection];
      forall g | g in connections
        ensures connections[g].Model() == after[g]
      {}
      Adopt(fd);
      assert Model().connections == after;
    }

    /** The next id is taken. */
    method TakeId()
      requires Valid()
      modifies this`nextConnectionId
      ensures Valid() && Repr() == old(Repr()) && Model() == old(Model()).(nextId := old(nextConnectionId) + 1)
    {
      hide ConnectionState.Model, ConnectionState.Valid;
      nextConnectionId := nextConnectionId + 1;
    }

    /** Emplaces a new client, whose objects nobody owns, under its descriptor; an occupied one stays as it is. */
    method Emplace(fd: int, connection: ConnectionState)
      requires Valid() && connection.Footprint() !! Repr()
      requires connection.Valid() && connection.Model() == Opened(engine, nextConnectionId)
      modifies this
      ensures Valid() && Repr() <= old(Repr()) + connection.Footprint()
      ensures fd in connections && Model() == Emplaced(engine, old(Model()), fd)
    {
      hide Model, Valid, ConnectionState.Model, ConnectionState.Valid, Opened;
      TakeId();
      if fd !in connections {
        Insert(fd, connection);
      }
    }

    /** One accepted client. */
    method AcceptClient(fd: int, registered: bool)
      requires Valid()
      modifies this
      ensures Valid() && fresh(Repr() - old(Repr())) && Model() == Admit(engine, old(Model()), fd, registered)
    {
      hide ConnectionState.Model, ConnectionState.Valid, Opened, Close, Emplaced;
      ghost var before := Model();
      var connection := new ConnectionState(engine, nextConnectionId);
      assert Valid() && Model() == before;
      Emplace(fd, connection);
      if !registered {
        CloseClient(fd, RegistrationFailed);
      }
    }

    /** The accept loop. */
    method AcceptClients(answers: seq<AcceptAnswer>)
      requires Valid()
      modifies this
      ensures Valid() && fresh(Repr() - old(Repr())) && Model() == AcceptLoop(engine, old(Model()), answers)
    {
      hide Model, Valid, Admit;
      ghost var target := AcceptLoop(engine, Model(), answers);
      var i := 0;
      while i < |answers| && answers[i].Accepted?
        invariant i <= |answers| && Valid() && fresh(Repr() - old(Repr()))
        invariant target == AcceptLoop(engine, Model(), answers[i..])
      {
        assert answers[i..][0] == answers[i] && answers[i..][1..] == answers[i + 1..];
        AcceptClient(answers[i].fd, answers[i].registered);
        i := i + 1;
      }
    }

    /** Lets a client handle an event; the other clients are untouched. */
    method CallClient(fd: int, ev: ClientEvent) returns (verdict: Verdict, ghost served: seq<Served>)
      requires Valid() && fd in connections
      modifies Repr() - {this}
      ensures connections[fd].Valid() && forall o :: o in connections[fd].Footprint() ==> OwnedBy(o, fd) || fresh(o)
      ensures Step(connections[fd].Model(), rng.state, served, verdict, 0)
           == ConnectionState.Uncounted(HandleEvent(engine, old(connections[fd].Model()), old(rng.state), ev))
      ensures forall g :: g in connections && g != fd ==>
                Owns(g) && connections[g].Model() == old(connections[g].Model())
    {
      hide ConnectionState.Model, ConnectionState.Valid, HandleEvent;
      assert Owns(fd);
      verdict, served := connections[fd].HandleReadiness(engine, rng, ev);
      forall g | g in connections && g != fd
        ensures Owns(g)
        ensures connections[g].Model() == old(connections[g].Model())
      {
        assert old(Owns(g));
      }
    }

    /** The same, with whatever the client allocated recorded as its own. */
    method CallAndAdopt(fd: int, ev: ClientEvent) returns (verdict: Verdict, ghost served: seq<Served>)
      requires Valid() && fd in connections
      modifies Repr()
      ensures Valid() && fresh(Repr() - old(Repr()))
      ensures unchanged(`connections, `nextConnectionId, `log, `retired)
      ensures Step(connections[fd].Model(), rng.state, served, verdict, 0)
           == ConnectionState.Uncounted(HandleEvent(engine, old(connections[fd].Model()), old(rng.state), ev))
      ensures forall g :: g in connections && g != fd ==> connections[g].Model() == old(connections[g].Model())
    {
      hide ConnectionState.Model, ConnectionState.Valid, HandleEvent;
      verdict, served := CallClient(fd, ev);
      Adopt(fd);
    }

    /** The log gains the requests handled. */
    ghost method Record(served: seq<Served>)
      requires Valid()
      modifies this`log
      ensures Valid() && Repr() == old(Repr()) && Model() == old(Model()).(log := old(log) + served)
    {
      hide ConnectionState.Model, ConnectionState.Valid;
      log := log + served;
    }

    /** What an event does to a known client, its verdict not yet carried out. */
    method StepClient(fd: int, ev: ClientEvent) returns (verdict: Verdict)
      requires Valid() && fd in connections
      modifies Repr()
      ensures Valid() && fresh(Repr() - old(Repr())) && connections == old(connections)
      ensures var s := HandleEvent(engine, old(Model()).connections[fd], old(Model()).rng, ev);
              verdict == s.verdict && Model() == Handled(old(Model()), fd, s)
    {
      hide ConnectionState.Model, ConnectionState.Valid, HandleEvent;
      ghost var before := Model();
      ghost var s := HandleEvent(engine, before.connections[fd], before.rng, ev);
      ghost var served;
      verdict, served := CallAndAdopt(fd, ev);
      forall g | g in connections
        ensures connections[g].Model() == before.connections[fd := s.conn][g]
      {
        assert g != fd ==> before.connections[g] == old(connections[g].Model());
      }
      assert Model().connections == before.connections[fd := s.conn];
      Record(served);
    }

    /** An event for a client. */
    method HandleClient(fd: int, ev: ClientEvent)
      requires Valid()
      modifies Repr()
      ensures Valid() && fresh(Repr() - old(Repr())) && Model() == ClientStep(engine, old(Model()), fd, ev)
    {
      hide HandleEvent, Model, Valid, Handled, Close;
      if fd in connections {
        var verdict := StepClient(fd, ev);
        if verdict.CloseConnection? {
          CloseClient(fd, verdict.reason);
        }
      }
    }

    /** The events of one wake-up; true once a shutdown is among them. */
    method HandleBatch(events: seq<Readiness>) returns (stopped: bool)
      requires Valid()
      modifies Repr()
      ensures Valid() && fresh(Repr() - old(Repr())) && (Model(), stopped) == Batch(engine, old(Model()), events)
    {
      ghost var target := Batch(engine, Model(), events);
      for i := 0 to |events|
        invariant Valid() && fresh(Repr() - old(Repr()))
        invariant target == Batch(engine, Model(), events[i..])
      {
        assert events[i..][0] == events[i] && events[i..][1..] == events[i + 1..];
        match events[i]
        case Shutdown => return true;
        case Listening(answers) => AcceptClients(answers);
        case Client(fd, ev) => HandleClient(fd, ev);
      }
      return false;
    }

    /** run_worker_loop, for the wake-ups it gets. */
    method RunLoop(batches: seq<seq<Readiness>>)
      requires Valid()
      modifies Repr()
      ensures Valid() && fresh(Repr() - old(Repr())) && Model() == Run(engine, old(Model()), batches)
    {
      ghost var target := Run(engine, Model(), batches);
      for i := 0 to |batches|
        invariant Valid() && fresh(Repr() - old(Repr()))
        invariant target == Run(engine, Model(), batches[i..])
      {
        assert batches[i..][0] == batches[i] && batches[i..][1..] == batches[i + 1..];
        var stopped := HandleBatch(batches[i]);
        if stopped {
          return;
        }
      }
    }
  }
}
