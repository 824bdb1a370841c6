/** A lawful codec: messages as comma-separated texts. It shows that what is assumed of the codec can be met. */
module CommaCodecs {
  import opened Bytes
  import opened EngineTypes
  import opened CsvText
  import opened HandleRequests
  import opened BidEngines

  function EncodeRequest(request: BidRequest): Text
    requires request.auctionType >= 0
  {
    JoinWith([request.requestId, ToDecimal(request.tmaxMs), request.country, request.deviceType, request.adSlot,
              ToDecimal(request.auctionType)], COMMA)
  }

  function DecodeRequest(frame: Text): Option<BidRequest> {
    var fields := SplitOn(frame, COMMA);
    if |fields| != 6 then None
    else
      var tmaxMs, auctionType := ParseU64(fields[1]), ParseU64(fields[5]);
      if tmaxMs.None? || auctionType.None? || tmaxMs.value >= U32_LIMIT then None
      else Some(BidRequest(fields[0], tmaxMs.value, fields[2], fields[3], fields[4], auctionType.value))
  }

  function StatusText(status: BidStatus): Text {
    if status == StatusBid then [1] else [0]
  }

  function EncodeResponse(response: BidResponse): Text {
    JoinWith([response.requestId, StatusText(response.status), response.campaignId, response.creativeId], COMMA)
  }

  function DecodeResponse(bytes: Text): Option<BidResponse> {
    var fields := SplitOn(bytes, COMMA);
    if |fields| != 4 then None
    else Some(BidResponse(fields[0], if fields[1] == [1] then StatusBid else StatusNoBid, fields[2], fields[3], 0.0))
  }

  function CommaCodec(): Codec {
    Codec(DecodeRequest, EncodeResponse, DecodeResponse)
  }

  lemma {:induction false} FieldsHoldNoDelimiter(t: Text, d: byte)
    ensures forall f :: f in SplitOn(t, d) ==> d !in f
    decreases |t|
  {
    var i := IndexOf(t, d);
    if i < |t| {
      FieldsHoldNoDelimiter(t[i + 1..], d);
    } else {
      assert t[..i] == t;
    }
  }

  lemma DecimalHoldsNoComma(n: nat)
    ensures COMMA !in ToDecimal(n)
  {
    DecimalOfNumber(n);
  }

  /** Every request whose texts hold no comma is one that the codec decodes. */
  lemma RequestsDecode(request: BidRequest)
    requires request.tmaxMs < U32_LIMIT && 0 <= request.auctionType < U64_LIMIT
    requires COMMA !in request.requestId && COMMA !in request.country && COMMA !in request.deviceType
    requires COMMA !in request.adSlot
    ensures CommaCodec().decodeRequest(EncodeRequest(request)) == Some(request)
  {
    hide ParseU64, ToDecimal, SplitOn, JoinWith;
    DecimalHoldsNoComma(request.tmaxMs);
    DecimalHoldsNoComma(request.auctionType);
    PrintedNumberParses(request.tmaxMs);
    PrintedNumberParses(request.auctionType);
    SplitOfJoin([request.requestId, ToDecimal(request.tmaxMs), request.country, request.deviceType, request.adSlot,
                 ToDecimal(request.auctionType)], COMMA);
  }

  lemma ResponseArrives(response: BidResponse)
    requires COMMA !in response.requestId && COMMA !in response.campaignId && COMMA !in response.creativeId
    ensures Carries(CommaCodec(), response)
  {
    hide SplitOn, JoinWith;
    SplitOfJoin([response.requestId, StatusText(response.status), response.campaignId, response.creativeId], COMMA);
  }

  /** The codec meets every law. */
  lemma CommaCodecIsLawful()
    ensures Lawful(CommaCodec())
  {
    hide Carries, ParseU64, ToDecimal, SplitOn;
    var codec := CommaCodec();
    forall frame, ctx: RequestContext, decision |
      codec.decodeRequest(frame).Some? && ctx.requestId == codec.decodeRequest(frame).value.requestId
      ensures Carries(codec, BuildBidResponse(ctx, decision))
    {
      FieldsHoldNoDelimiter(frame, COMMA);
      assert ctx.requestId == SplitOn(frame, COMMA)[0];
      DecimalHoldsNoComma(decision.campaignId);
      DecimalHoldsNoComma(decision.creativeId);
      ResponseArrives(BuildBidResponse(ctx, decision));
    }
  }
}
