/**
 * The engine put together: parsing, the request pipeline and the worker's connections. What is proved of the parts is
 * restated here of whole runs: of every request a worker handles, and of every response a client decodes.
 */
module BidEngines {
  import opened Bytes
  import opened EngineTypes
  import opened CampaignStores
  import opened StoreInvariants
  import opened Decision
  import opened WorkerRngs
  import opened HandleRequests
  import opened BidCorrectness
  import opened ConnectionModel
  import opened Frames
  import opened ResponseFraming
  import Lockstep
  import WorkerModel
  import opened WorkerRuntimes

  /** A request message as the protobuf library hands it over; an enum field may hold any number. */
  datatype BidRequest = BidRequest(
    requestId: Text,
    tmaxMs: nat,
    country: Text,
    deviceType: Text,
    adSlot: Text,
    auctionType: int)

  /** The protobuf library, as far as the engine and its client use it. */
  datatype Codec = Codec(
    decodeRequest: Text -> Option<BidRequest>,
    encodeResponse: BidResponse -> Text,
    decodeResponse: Text -> Option<BidResponse>)

  /** A response arrives as it was sent, but for the rounding of its price. */
  predicate Carries(codec: Codec, response: BidResponse) {
    var arrived := codec.decodeResponse(codec.encodeResponse(response));
    arrived.Some? && arrived.value.(price := 0.0) == response.(price := 0.0)
  }

  /** What is assumed of the library: limits are 32-bit, and responses to decoded requests survive the wire. */
  ghost predicate Lawful(codec: Codec) {
    && (forall frame :: codec.decodeRequest(frame).Some? ==> codec.decodeRequest(frame).value.tmaxMs < U32_LIMIT)
    && (forall frame, ctx: RequestContext, decision ::
          codec.decodeRequest(frame).Some? && ctx.requestId == codec.decodeRequest(frame).value.requestId ==>
            Carries(codec, BuildBidResponse(ctx, decision)))
  }

  // ---- Parsing ----

  datatype ParseError =
    MalformedProto | MissingRequestId | MissingCountry | MissingDeviceType | MissingAdSlot | InvalidAuctionType

  datatype Parsed = Parsed(message: ParsedMessage) | Failed(error: ParseError)

  const INT_MAX: nat := 0x7FFF_FFFF

  function MapAuctionType(auctionType: int): AuctionType {
    if auctionType == 1 then FirstPrice else if auctionType == 2 then SecondPrice else UnspecifiedAuction
  }

  function ParseBidRequest(codec: Codec, frame: Text): Parsed {
    if |frame| > INT_MAX then Failed(MalformedProto)
    else match codec.decodeRequest(frame)
      case None => Failed(MalformedProto)
      case Some(request) =>
        if request.requestId == [] then Failed(MissingRequestId)
        else if request.country == [] then Failed(MissingCountry)
        else if request.deviceType == [] then Failed(MissingDeviceType)
        else if request.adSlot == [] then Failed(MissingAdSlot)
        else
          var auctionType := MapAuctionType(request.auctionType);
          if auctionType == UnspecifiedAuction then Failed(InvalidAuctionType)
          else Parsed(ParsedMessage(request.requestId, request.tmaxMs, request.country, request.deviceType,
                                    request.adSlot, auctionType, Ok))
  }

  /** A frame parses exactly when it decodes to a request with all its fields, which it then passes on unchanged. */
  lemma ParsesCompleteRequests(codec: Codec, frame: Text)
    ensures var parsed, decoded := ParseBidRequest(codec, frame), codec.decodeRequest(frame);
            && (parsed.Parsed? <==>
                  && |frame| <= INT_MAX && decoded.Some?
                  && decoded.value.requestId != [] && decoded.value.country != []
                  && decoded.value.deviceType != [] && decoded.value.adSlot != []
                  && 1 <= decoded.value.auctionType <= 2)
            && (parsed.Parsed? ==>
                  && parsed.message.processingStatus == Ok
                  && BidRequest(parsed.message.requestId, parsed.message.tmaxMs, parsed.message.country,
                                parsed.message.deviceType, parsed.message.adSlot,
                                if parsed.message.auctionType == FirstPrice then 1 else 2) == decoded.value)
  {}

  // ---- The engine ----

  /** What a worker does with one frame between extracting it and staging the response. */
  function HandleFrame(codec: Codec, store: Store, payload: Text, now: nat, rng: bv64): Handling {
    match ParseBidRequest(codec, payload)
    case Failed(_) => Handling(None, rng)
    case Parsed(m) =>
      var (result, after) := Handled(store, m, now, rng);
      Handling(if result.status == DropConnection then None else Some(codec.encodeResponse(result.response)), after)
  }

  function BidEngine(codec: Codec, store: Store, capacity: nat, maxFrame: nat): Engine {
    Engine(capacity, maxFrame, (payload: Text, now: nat, rng: bv64) => HandleFrame(codec, store, payload, now, rng))
  }

  /** The same function as it runs: parsing, then the pipeline with the generator updated in place. */
  method AnswerFrame(codec: Codec, store: Store, payload: Text, now: nat, rng: WorkerRng) returns (reply: Option<Text>)
    modifies rng
    ensures Handling(reply, rng.state) == HandleFrame(codec, store, payload, now, old(rng.state))
  {
    hide Handled;
    var parsed := ParseBidRequest(codec, payload);
    if parsed.Failed? {
      return None;
    }
    var result := HandleRequest(parsed.message, now, store, rng);
    return if result.status == DropConnection then None else Some(codec.encodeResponse(result.response));
  }

  /** The loop over the wake-ups it gets, from its seeded start. */
  method RunWorker(engine: Engine, seedValue: bv64, batches: seq<seq<WorkerModel.Readiness>>)
    returns (worker: WorkerRuntime)
    ensures worker.Valid()
    ensures worker.Model() == WorkerModel.Run(engine, WorkerModel.Started(Seeded(seedValue)), batches)
  {
    hide *;
    worker := new WorkerRuntime(engine, seedValue);
    worker.RunLoop(batches);
  }

  /**
   * A worker from start to stop: seeded, its store loaded, its loop run over the wake-ups it gets. It does not start
   * exactly when the campaign file is refused; otherwise it does what the value-level run does, from the seeded state.
   */
  method RunBidWorker(codec: Codec, isDouble: DoubleSyntax, lines: seq<Text>, capacity: nat, maxFrame: nat,
                      seedValue: bv64, batches: seq<seq<WorkerModel.Readiness>>)
    returns (worker: Option<WorkerRuntime>)
    ensures worker.Some? <==> Loaded(isDouble, lines).Some?
    ensures worker.Some? ==>
              && worker.value.Valid()
              && worker.value.Model()
                 == WorkerModel.Run(BidEngine(codec, Loaded(isDouble, lines).value, capacity, maxFrame),
                                    WorkerModel.Started(Seeded(seedValue)), batches)
  {
    hide *;
    var store := LoadCampaignStoreSnapshot(isDouble, lines);
    if store.None? {
      return None;
    }
    var runtime := RunWorker(BidEngine(codec, store.value, capacity, maxFrame), seedValue, batches);
    return Some(runtime);
  }

  // ---- One request ----

  /** How many rows offer on a frame: none if it is refused, dropped or late. */
  function OffersOn(codec: Codec, store: Store, payload: Text, now: nat): nat {
    match ParseBidRequest(codec, payload)
    case Failed(_) => 0
    case Parsed(m) => if Auctioned(m, now) then |WantedRows(store, m)| else 0
  }

  /** A frame advances the generator by exactly two draws per offer. */
  lemma FrameDraws(codec: Codec, store: Store, payload: Text, now: nat, rng: bv64)
    requires Lawful(codec) && Invariant(store) && now < U64_LIMIT
    ensures HandleFrame(codec, store, payload, now, rng).rng
         == StateAfter(rng, 2 * OffersOn(codec, store, payload, now))
  {
    hide Invariant, Handled, Malformed, ArrivesExpired, WantedRows, NextState, Carries;
    match ParseBidRequest(codec, payload)
    case Failed(_) =>
    case Parsed(m) =>
      OutcomeClassified(store, m, now, rng);
      if Auctioned(m, now) {
        var k := AuctionOutcome(store, m, now, rng);
      }
  }

  /** Whether a frame is a well-formed request: it parses and lacks no key. */
  predicate IsRequest(codec: Codec, payload: Text) {
    ParseBidRequest(codec, payload).Parsed? && !Malformed(ParseBidRequest(codec, payload).message)
  }

  /** Whoever gets a reply gets one that decodes and carries the id of the request it answers. */
  lemma ReplyNamesRequest(codec: Codec, store: Store, payload: Text, now: nat, rng: bv64)
    requires Lawful(codec) && HandleFrame(codec, store, payload, now, rng).reply.Some?
    ensures var arrived := codec.decodeResponse(HandleFrame(codec, store, payload, now, rng).reply.value);
            && codec.decodeRequest(payload).Some? && arrived.Some?
            && arrived.value.requestId == codec.decodeRequest(payload).value.requestId
  {
    hide Decided, Carries;
    var m := ParseBidRequest(codec, payload).message;
    var result := Handled(store, m, now, rng).0;
    assert result.response == BuildBidResponse(result.context, result.decision);
    ResponseCarried(codec, result.response);
  }

  /** Two responses that say the same, prices aside. */
  predicate SaySame(response: BidResponse, other: BidResponse) {
    && response.requestId == other.requestId && response.status == other.status
    && response.campaignId == other.campaignId && response.creativeId == other.creativeId
  }

  lemma ResponseCarried(codec: Codec, response: BidResponse)
    requires Carries(codec, response)
    ensures var arrived := codec.decodeResponse(codec.encodeResponse(response));
            arrived.Some? && SaySame(response, arrived.value)
  {
    var arrived := codec.decodeResponse(codec.encodeResponse(response)).value;
    assert arrived.(price := 0.0).requestId == response.(price := 0.0).requestId;
  }

  /** A reply that says truly whether some line of the file is wanted, and names one such line if it bids. */
  predicate AnswersFromFile(isDouble: DoubleSyntax, lines: seq<Text>, m: ParsedMessage, response: BidResponse) {
    && response.requestId == m.requestId
    && (response.status == StatusBid <==>
        m.tmaxMs >= 2 && exists line :: line in DataLines(lines) && LineWanted(isDouble, m, line))
    && (response.status == StatusBid ==>
          exists line :: line in DataLines(lines) && LineWanted(isDouble, m, line)
            && NamesLine(isDouble, response, line))
  }

  /**
   * The whole truth about an answer: it carries the request's id, it is true of the file unless the deadline wrapped
   * around, when it is no bid; and in an auction its ids are the winner's, from the generator the request met.
   */
  predicate TrueAnswer(isDouble: DoubleSyntax, lines: seq<Text>, store: Store, m: ParsedMessage, now: nat, rng: bv64,
                       response: BidResponse) {
    && response.requestId == m.requestId
    && (if DeadlineWraps(m, now) then response.status == StatusNoBid else AnswersFromFile(isDouble, lines, m, response))
    && (Auctioned(m, now) ==> IsAuctionOutcome(store, m, rng, response))
  }

  /** A request that is not dropped gets a true answer. */
  lemma ResponseIsTrue(isDouble: DoubleSyntax, lines: seq<Text>, store: Store, m: ParsedMessage, now: nat, rng: bv64)
    requires InWords(m, now)
    ensures var result := Handled(store, m, now, rng).0;
            Loads(isDouble, lines) && Loaded(isDouble, lines) == Some(store) && result.status == ResponseReady ==>
              TrueAnswer(isDouble, lines, store, m, now, rng, result.response)
  {
    hide LineWanted, IsAuctionOutcome, Malformed, Decided, Invariant, Represents, RowOfLine, NamesLine;
    var result := Handled(store, m, now, rng).0;
    if Loads(isDouble, lines) && Loaded(isDouble, lines) == Some(store) && result.status == ResponseReady {
      LoadedStore(isDouble, lines);
      OutcomeClassified(store, m, now, rng);
      if !DeadlineWraps(m, now) {
        BidIffWanted(store, m, now, rng);
        BidComesFromTheFile(isDouble, lines, m, now, rng);
      }
      if Auctioned(m, now) {
        AuctionedResponse(store, m, now, rng);
      }
    }
  }

  lemma OutcomeArrives(store: Store, m: ParsedMessage, rng: bv64, response: BidResponse, arrived: BidResponse)
    requires SaySame(response, arrived)
    ensures IsAuctionOutcome(store, m, rng, response) ==> IsAuctionOutcome(store, m, rng, arrived)
  {
    hide WantedRows, FirstHighest, CreativesIn, IndexBelow, StateAfter;
    var count := |WantedRows(store, m)|;
    if IsAuctionOutcome(store, m, rng, response) && count > 0 {
      var k :| 0 <= k < count && FirstHighest(rng, count, k) && NamesWinner(store, m, rng, response, k);
      assert NamesWinner(store, m, rng, arrived, k);
    }
  }

  lemma FileAnswerArrives(isDouble: DoubleSyntax, lines: seq<Text>, m: ParsedMessage,
                          response: BidResponse, arrived: BidResponse)
    requires SaySame(response, arrived) && AnswersFromFile(isDouble, lines, m, response)
    ensures AnswersFromFile(isDouble, lines, m, arrived)
  {
    hide LineWanted, RowOfLine, DataLines;
    if response.status == StatusBid {
      var line :| line in DataLines(lines) && LineWanted(isDouble, m, line) && NamesLine(isDouble, response, line);
      assert NamesLine(isDouble, arrived, line);
    }
  }

  /** What is true of a response is true of what arrives. */
  lemma TruthArrives(codec: Codec, isDouble: DoubleSyntax, lines: seq<Text>, store: Store, m: ParsedMessage, now: nat,
                     rng: bv64, response: BidResponse)
    requires Carries(codec, response) && TrueAnswer(isDouble, lines, store, m, now, rng, response)
    ensures TrueAnswer(isDouble, lines, store, m, now, rng,
                       codec.decodeResponse(codec.encodeResponse(response)).value)
  {
    hide Carries, AnswersFromFile, IsAuctionOutcome, Auctioned, DeadlineWraps;
    ResponseCarried(codec, response);
    var arrived := codec.decodeResponse(codec.encodeResponse(response)).value;
    if !DeadlineWraps(m, now) {
      FileAnswerArrives(isDouble, lines, m, response, arrived);
    }
    if Auctioned(m, now) {
      OutcomeArrives(store, m, rng, response, arrived);
    }
  }

  /**
   * A frame gets a response exactly when it is a well-formed request, and what arrives at the client is then a true
   * answer to that request from the campaign file.
   */
  lemma FrameAnsweredFromFile(codec: Codec, isDouble: DoubleSyntax, lines: seq<Text>, store: Store, payload: Text,
                              now: nat, rng: bv64)
    requires Lawful(codec) && now < U64_LIMIT
    ensures Loads(isDouble, lines) && Loaded(isDouble, lines) == Some(store) ==>
              var reply := HandleFrame(codec, store, payload, now, rng).reply;
              && (reply.Some? <==> IsRequest(codec, payload))
              && (reply.Some? ==>
                    var arrived, m := codec.decodeResponse(reply.value), ParseBidRequest(codec, payload).message;
                    arrived.Some? && TrueAnswer(isDouble, lines, store, m, now, rng, arrived.value))
  {
    hide Decided, Malformed, ArrivesExpired, Carries, BuildBidResponse, TrueAnswer, Loads, Loaded;
    match ParseBidRequest(codec, payload)
    case Failed(_) =>
    case Parsed(m) =>
      OutcomeClassified(store, m, now, rng);
      ResponseIsTrue(isDouble, lines, store, m, now, rng);
      var result := Handled(store, m, now, rng).0;
      assert result.response == BuildBidResponse(result.context, result.decision);
      ResponseCarried(codec, result.response);
      if TrueAnswer(isDouble, lines, store, m, now, rng, result.response) {
        TruthArrives(codec, isDouble, lines, store, m, now, rng, result.response);
      }
  }

  /**
   * A slot that hashes to the null key costs an answer: a frame that decodes to a request with such a slot gets no
   * reply, whatever else it says and whenever it comes.
   */
  lemma NullHashedSlotUnanswered(codec: Codec, store: Store, payload: Text, now: nat, rng: bv64)
    requires codec.decodeRequest(payload).Some? && codec.decodeRequest(payload).value.adSlot == Ascii("eSN.1")
    ensures HandleFrame(codec, store, payload, now, rng) == Handling(None, rng)
  {
    hide Handled, Ascii;
    match ParseBidRequest(codec, payload)
    case Failed(_) =>
    case Parsed(m) => NullHashedSlotDropped(store, m, now, rng);
  }

  // ---- Every run ----

  /** The log's clock readings are 64-bit. */
  predicate ClockInWords(log: seq<Served>) {
    forall i :: 0 <= i < |log| ==> log[i].now < U64_LIMIT
  }

  /** The offers made over a log. */
  function TotalOffers(codec: Codec, store: Store, log: seq<Served>): nat {
    if log == [] then 0
    else
      var last := log[|log| - 1];
      TotalOffers(codec, store, log[..|log| - 1]) + OffersOn(codec, store, last.payload, last.now)
  }

  lemma {:induction false} LogDraws(codec: Codec, store: Store, engine: Engine, first: bv64, log: seq<Served>,
                                    last: bv64)
    requires Lawful(codec) && Invariant(store) && engine == BidEngine(codec, store, engine.capacity, engine.maxFrame)
    requires AllGenuine(engine, log) && Chained(first, log, last) && ClockInWords(log)
    ensures last == StateAfter(first, 2 * TotalOffers(codec, store, log))
  {
    hide Lawful, Invariant, HandleFrame, NextState, OffersOn;
    if log != [] {
      var n := |log| - 1;
      var e := log[n];
      LogDraws(codec, store, engine, first, log[..n], e.before);
      assert Genuine(engine, e);
      FrameDraws(codec, store, e.payload, e.now, e.before);
      StateAfterSum(first, 2 * TotalOffers(codec, store, log[..n]), 2 * OffersOn(codec, store, e.payload, e.now));
    }
  }

  /**
   * Over every run of a worker, however its connections interleave, the generator has advanced by exactly two draws
   * per offer made on the requests in the log, and by nothing else.
   */
  lemma RunDrawsTwicePerOffer(codec: Codec, store: Store, capacity: nat, maxFrame: nat, seed: bv64,
                              batches: seq<seq<WorkerModel.Readiness>>)
    requires Lawful(codec) && Invariant(store)
    requires var engine := BidEngine(codec, store, capacity, maxFrame);
             ClockInWords(WorkerModel.Run(engine, WorkerModel.Started(seed), batches).log)
    ensures var w := WorkerModel.Run(BidEngine(codec, store, capacity, maxFrame), WorkerModel.Started(seed), batches);
            w.rng == StateAfter(seed, 2 * TotalOffers(codec, store, w.log))
  {
    var engine := BidEngine(codec, store, capacity, maxFrame);
    WorkerModel.StartedInvariant(engine, seed);
    WorkerModel.RunKeepsInvariant(engine, seed, WorkerModel.Started(seed), batches);
    var w := WorkerModel.Run(engine, WorkerModel.Started(seed), batches);
    LogDraws(codec, store, engine, seed, w.log, w.rng);
  }

  /**
   * A logged request was answered exactly when it is well formed and its response can be framed; and the answer is a
   * true one, from the campaign file.
   */
  predicate AnsweredTruly(codec: Codec, isDouble: DoubleSyntax, lines: seq<Text>, store: Store, e: Served) {
    var response := HandleFrame(codec, store, e.payload, e.now, e.before).reply;
    var parsed := ParseBidRequest(codec, e.payload);
    && (e.reply.Some? <==> IsRequest(codec, e.payload) && response.Some? && Stageable(response.value))
    && (e.reply.Some? ==>
          var arrived := codec.decodeResponse(e.reply.value);
          arrived.Some? && TrueAnswer(isDouble, lines, store, parsed.message, e.now, e.before, arrived.value))
  }

  /** Over every run of a worker, every request in the log is answered truly. */
  lemma RunAnswersFromFile(codec: Codec, isDouble: DoubleSyntax, lines: seq<Text>, capacity: nat, maxFrame: nat,
                           seed: bv64, batches: seq<seq<WorkerModel.Readiness>>)
    requires Lawful(codec)
    ensures Loads(isDouble, lines) ==>
              var store := Loaded(isDouble, lines).value;
              var engine := BidEngine(codec, store, capacity, maxFrame);
              var log := WorkerModel.Run(engine, WorkerModel.Started(seed), batches).log;
              forall i :: 0 <= i < |log| && log[i].now < U64_LIMIT ==>
                AnsweredTruly(codec, isDouble, lines, store, log[i])
  {
    hide Lawful, AnsweredTruly, HandleFrame, Loads, Loaded;
    if Loads(isDouble, lines) {
      LoadsMeansLoaded(isDouble, lines);
      var store := Loaded(isDouble, lines).value;
      var engine := BidEngine(codec, store, capacity, maxFrame);
      var log := WorkerModel.Run(engine, WorkerModel.Started(seed), batches).log;
      forall i | 0 <= i < |log| && log[i].now < U64_LIMIT
        ensures AnsweredTruly(codec, isDouble, lines, store, log[i])
      {
        WorkerModel.RunLogsKnownConnections(engine, seed, batches, i);
        GenuineEntryIsTrue(codec, isDouble, lines, engine, store, log[i]);
      }
    }
  }

  lemma LoadsMeansLoaded(isDouble: DoubleSyntax, lines: seq<Text>)
    ensures Loads(isDouble, lines) ==> Loaded(isDouble, lines).Some?
  {}

  lemma GenuineEntryIsTrue(codec: Codec, isDouble: DoubleSyntax, lines: seq<Text>, engine: Engine, store: Store,
                           e: Served)
    requires Lawful(codec) && Genuine(engine, e) && e.now < U64_LIMIT
    requires engine == BidEngine(codec, store, engine.capacity, engine.maxFrame)
    ensures Loads(isDouble, lines) && Loaded(isDouble, lines) == Some(store) ==>
              AnsweredTruly(codec, isDouble, lines, store, e)
  {
    hide Lawful, HandleFrame, TrueAnswer, Malformed, Loads, Loaded;
    FrameAnsweredFromFile(codec, isDouble, lines, store, e.payload, e.now, e.before);
  }

  /**
   * Lockstep, in terms of requests: on every schedule of the client, the engine and the two channels, the k-th
   * response the client decodes carries the id of the k-th request it sent, and at most one request is outstanding.
   */
  lemma ResponsesNameTheirRequests(codec: Codec, store: Store, capacity: nat, maxFrame: nat, id: nat,
                                   requests: seq<Text>, actions: seq<Lockstep.Action>)
    requires Lawful(codec) && AllAcceptable(requests, U32_LIMIT) && maxFrame <= U32_LIMIT
    ensures var engine := BidEngine(codec, store, capacity, maxFrame);
            var client := Lockstep.Run(engine, Lockstep.Start(engine, id, requests), actions).client;
            var responses := Lockstep.ResponsesOf(client);
            && |responses| <= client.sent <= |responses| + 1 && client.sent <= |requests|
            && forall k :: 0 <= k < |responses| ==>
                 var request, response := codec.decodeRequest(requests[k]), codec.decodeResponse(responses[k]);
                 request.Some? && response.Some? && response.value.requestId == request.value.requestId
  {
    hide Lawful, HandleFrame;
    var engine := BidEngine(codec, store, capacity, maxFrame);
    Lockstep.ClientAndEngineInLockstep(engine, id, requests, actions);
    var sys := Lockstep.Run(engine, Lockstep.Start(engine, id, requests), actions);
    forall k | 0 <= k < |Lockstep.ResponsesOf(sys.client)|
      ensures var request := codec.decodeRequest(requests[k]);
              var response := codec.decodeResponse(Lockstep.ResponsesOf(sys.client)[k]);
              request.Some? && response.Some? && response.value.requestId == request.value.requestId
    {
      ReplyNamesRequest(codec, store, requests[k], sys.log[k].now, sys.log[k].before);
    }
  }

  /** A response decodes to a true answer to a request, handled when a log entry says. */
  predicate AnswersTruly(codec: Codec, isDouble: DoubleSyntax, lines: seq<Text>, store: Store,
                         request: Text, e: Served, response: Text) {
    var parsed, arrived := ParseBidRequest(codec, request), codec.decodeResponse(response);
    && parsed.Parsed? && arrived.Some?
    && TrueAnswer(isDouble, lines, store, parsed.message, e.now, e.before, arrived.value)
  }

  /**
   * Lockstep, end to end: on every schedule, the k-th response the client decodes is a true answer to the k-th request
   * it sent, from the campaign file and from the generator that request met.
   */
  lemma ResponsesAnswerTheirRequests(codec: Codec, isDouble: DoubleSyntax, lines: seq<Text>, store: Store,
                                     capacity: nat, maxFrame: nat, id: nat,
                                     requests: seq<Text>, actions: seq<Lockstep.Action>)
    requires Lawful(codec) && AllAcceptable(requests, U32_LIMIT) && maxFrame <= U32_LIMIT
    ensures var engine := BidEngine(codec, store, capacity, maxFrame);
            var sys := Lockstep.Run(engine, Lockstep.Start(engine, id, requests), actions);
            var responses := Lockstep.ResponsesOf(sys.client);
            && |responses| <= |sys.log| && |responses| <= |requests|
            && (Loads(isDouble, lines) && Loaded(isDouble, lines) == Some(store) ==>
                  forall k :: 0 <= k < |responses| && sys.log[k].now < U64_LIMIT ==>
                    AnswersTruly(codec, isDouble, lines, store, requests[k], sys.log[k], responses[k]))
  {
    hide Lawful, HandleFrame, TrueAnswer, Loads, Loaded;
    var engine := BidEngine(codec, store, capacity, maxFrame);
    Lockstep.ClientAndEngineInLockstep(engine, id, requests, actions);
    var sys := Lockstep.Run(engine, Lockstep.Start(engine, id, requests), actions);
    forall k | 0 <= k < |Lockstep.ResponsesOf(sys.client)| && sys.log[k].now < U64_LIMIT
      ensures Loads(isDouble, lines) && Loaded(isDouble, lines) == Some(store) ==>
                AnswersTruly(codec, isDouble, lines, store, requests[k], sys.log[k],
                             Lockstep.ResponsesOf(sys.client)[k])
    {
      FrameAnsweredFromFile(codec, isDouble, lines, store, requests[k], sys.log[k].now, sys.log[k].before);
    }
  }
}
