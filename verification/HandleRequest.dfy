/** One parsed request from its keys to its response: validation, retrieval, decision, and what they add up to. */
module HandleRequests {
  import opened Bytes
  import opened EngineTypes
  import opened Normalize
  import opened CsvText
  import opened CampaignStores
  import opened Retrieve
  import opened Decision
  import opened WorkerRngs

  datatype HandleRequestStatus = ResponseReady | DropConnection

  datatype HandleRequestResult = HandleRequestResult(
    status: HandleRequestStatus,
    context: RequestContext,
    decision: BidDecision,
    response: BidResponse)

  // ---- The pipeline, as a function of the request and the generator ----

  /** Whether a key the request must have is missing. */
  predicate LacksKey(ctx: RequestContext) {
    || ctx.countryKey == 0 || ctx.deviceTypeKey == UnknownDevice || ctx.adSlotKey == 0
    || ctx.auctionType == UnspecifiedAuction
  }

  function Validated(ctx: RequestContext): RequestContext {
    if LacksKey(ctx) then ctx.(processingStatus := Invalid, noBidReason := InvalidRequest)
    else if ctx.processingStatus != Ok && ctx.noBidReason == NoReason then ctx.(noBidReason := InvalidRequest)
    else ctx
  }

  /** The response echoes the request's id; a bid's ids are printed in decimal. */
  function BuildBidResponse(ctx: RequestContext, decision: BidDecision): BidResponse {
    if decision.hasBid
    then BidResponse(ctx.requestId, StatusBid, ToDecimal(decision.campaignId), ToDecimal(decision.creativeId),
                     decision.bidPrice)
    else BidResponse(ctx.requestId, StatusNoBid, [], [], 0.0)
  }

  /** The result of handling a request, and the generator after it. */
  function Handled(store: Store, m: ParsedMessage, receivedAtNs: nat, rng: bv64): (HandleRequestResult, bv64) {
    var ctx := Validated(BuildRequestContext(m, receivedAtNs));
    var invalid := ctx.processingStatus != Ok && ctx.noBidReason == InvalidRequest;
    var status := if invalid then DropConnection else ResponseReady;
    var (decision, after) := Decided(ctx, Retrieved(store, ctx), rng);
    (HandleRequestResult(status, ctx, decision, BuildBidResponse(ctx, decision)), after)
  }

  // ---- The pipeline as it runs ----

  method ValidateRequestContext(ctx: RequestContext) returns (validated: RequestContext)
    ensures validated == Validated(ctx)
  {
    validated := ctx;
    if ctx.countryKey == 0 || ctx.deviceTypeKey == UnknownDevice || ctx.adSlotKey == 0
       || ctx.auctionType == UnspecifiedAuction {
      validated := validated.(processingStatus := Invalid);
      validated := validated.(noBidReason := InvalidRequest);
      return;
    }
    if ctx.processingStatus != Ok {
      if ctx.noBidReason == NoReason {
        validated := validated.(noBidReason := InvalidRequest);
      }
    }
  }

  method HandleRequest(m: ParsedMessage, receivedAtNs: nat, store: Store, rng: WorkerRng)
    returns (result: HandleRequestResult)
    modifies rng
    ensures (result, rng.state) == Handled(store, m, receivedAtNs, old(rng.state))
  {
    hide Retrieved, NextState, Offers, FirstBest, ToDecimal;
    var context := BuildRequestContext(m, receivedAtNs);
    context := ValidateRequestContext(context);
    var status := ResponseReady;
    if context.processingStatus != Ok && context.noBidReason == InvalidRequest {
      status := DropConnection;
    }
    if !context.IsEligible() {
      var decision := NoBid(context.noBidReason);
      return HandleRequestResult(status, context, decision, BuildBidResponse(context, decision));
    }
    var candidates := RetrieveCandidates(store, context);
    var decision := MakeBidDecision(context, candidates, rng);
    return HandleRequestResult(status, context, decision, BuildBidResponse(context, decision));
  }

  // ---- Which requests are dropped, late, or answered ----

  /** A request without one of its keys, read off its text: the classification knows no clock, store or generator. */
  predicate Malformed(m: ParsedMessage) {
    || |m.country| != 2 || m.country == [0, 0]
    || NormalizeDeviceTypeKey(m.deviceType) == UnknownDevice
    || NormalizeAdSlotKey(m.adSlot) == 0
    || m.auctionType == UnspecifiedAuction
  }

  /** The machine words of a request: a 32-bit limit and a 64-bit clock. */
  predicate InWords(m: ParsedMessage, receivedAtNs: nat) {
    m.tmaxMs < U32_LIMIT && receivedAtNs < U64_LIMIT
  }

  predicate DeadlineWraps(m: ParsedMessage, receivedAtNs: nat) {
    m.tmaxMs >= 2 && receivedAtNs + (m.tmaxMs - 1) * 1_000_000 >= 0x1_0000_0000_0000_0000
  }

  predicate ArrivesExpired(m: ParsedMessage, receivedAtNs: nat) {
    m.tmaxMs <= 1 || DeadlineWraps(m, receivedAtNs)
  }

  lemma MalformedLacksKey(m: ParsedMessage, receivedAtNs: nat)
    ensures LacksKey(BuildRequestContext(m, receivedAtNs)) <==> Malformed(m)
  {
    CountryKeyNull(m.country);
  }

  /**
   * Classification. A request is dropped exactly when it is malformed, or was already marked by the parser and is not
   * expired; being malformed takes priority over being late. Otherwise it is answered "deadline exceeded" exactly
   * when it arrives expired. In both cases there is no bid and the generator is untouched; all others are eligible.
   */
  lemma OutcomeClassified(store: Store, m: ParsedMessage, receivedAtNs: nat, rng: bv64)
    requires InWords(m, receivedAtNs)
    ensures var (result, after) := Handled(store, m, receivedAtNs, rng);
            var expired := ArrivesExpired(m, receivedAtNs);
            && (result.status == DropConnection <==> Malformed(m) || (m.processingStatus != Ok && !expired))
            && (result.status == DropConnection ==> result.decision == NoBid(InvalidRequest) && after == rng)
            && (result.status == ResponseReady && expired ==>
                  result.decision == NoBid(DeadlineExceeded) && after == rng)
            && (result.context.IsEligible() <==> result.status == ResponseReady && !expired)
            && (result.decision.noBidReason == DeadlineExceeded <==> result.status == ResponseReady && expired)
            && (result.status == ResponseReady && expired ==>
                  result.response == BidResponse(m.requestId, StatusNoBid, [], [], 0.0))
  {
    hide Retrieved, NextState, Offers, OfferCount, FirstBest, ToDecimal, NormalizeCountryKey,
      NormalizeDeviceTypeKey, FnvFrom;
    MalformedLacksKey(m, receivedAtNs);
    ExpiredOnArrival(receivedAtNs, m.tmaxMs);
  }

  /** A slot whose hash happens to be the null key makes a request malformed although every field of it is given. */
  lemma NullHashedSlotDropped(store: Store, m: ParsedMessage, receivedAtNs: nat, rng: bv64)
    requires m.adSlot == Ascii("eSN.1")
    ensures Handled(store, m, receivedAtNs, rng).0.status == DropConnection
    ensures Handled(store, m, receivedAtNs, rng).1 == rng
  {
    hide Retrieved, NextState, Offers, OfferCount, FirstBest, ToDecimal, NormalizeCountryKey, NormalizeDeviceTypeKey,
      NormalizeAdSlotKey, Ascii, ComputeDeadlineNs;
    NullSlotKeyExample();
  }

  // ---- The clock decides nothing ----

  lemma {:induction false} CandidatesByKeys(s: Store, ctx: RequestContext, other: RequestContext, bucket: seq<nat>)
    requires other.countryKey == ctx.countryKey && other.deviceTypeKey == ctx.deviceTypeKey
    requires other.adSlotKey == ctx.adSlotKey
    ensures Candidates(s, ctx, bucket) == Candidates(s, other, bucket)
  {
    if bucket != [] {
      CandidatesByKeys(s, ctx, other, bucket[..|bucket| - 1]);
    }
  }

  /**
   * As long as no deadline wraps around, when a request is received changes neither whether it is dropped, nor the
   * decision, the response, or the generator: the deadline is only ever compared with the time it is computed from.
   */
  lemma ClockIndependent(store: Store, m: ParsedMessage, receivedAtNs: nat, otherNs: nat, rng: bv64)
    requires InWords(m, receivedAtNs) && !DeadlineWraps(m, receivedAtNs)
    requires InWords(m, otherNs) && !DeadlineWraps(m, otherNs)
    ensures var (result, after) := Handled(store, m, receivedAtNs, rng);
            var (other, otherAfter) := Handled(store, m, otherNs, rng);
            && result.status == other.status && result.decision == other.decision
            && result.response == other.response && after == otherAfter
  {
    hide NextState, Offers, OfferCount, FirstBest, Candidates, NormalizeCountryKey, NormalizeDeviceTypeKey, FnvFrom;
    ExpiredOnArrival(receivedAtNs, m.tmaxMs);
    ExpiredOnArrival(otherNs, m.tmaxMs);
    var ctx := Validated(BuildRequestContext(m, receivedAtNs));
    var other := Validated(BuildRequestContext(m, otherNs));
    if ctx.IsEligible() && ChooseSeedBucket(store, ctx).Some? {
      CandidatesByKeys(store, ctx, other, ChooseSeedBucket(store, ctx).value);
    }
  }
}
