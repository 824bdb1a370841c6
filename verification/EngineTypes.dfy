/** The engine's records: requests as parsed and as normalised, campaigns, decisions and responses. */
module EngineTypes {
  import opened Bytes

  datatype AuctionType = UnspecifiedAuction | FirstPrice | SecondPrice

  datatype DeviceTypeKey = UnknownDevice | Desktop | Mobile | Tablet | ConnectedTv

  datatype NoBidReason = NoReason | InvalidRequest | DeadlineExceeded | NoEligibleCampaign

  datatype ProcessingStatus = Ok | Invalid | Expired

  datatype ParsedMessage = ParsedMessage(
    requestId: Text,
    tmaxMs: nat,
    country: Text,
    deviceType: Text,
    adSlot: Text,
    auctionType: AuctionType,
    processingStatus: ProcessingStatus)

  datatype RequestContext = RequestContext(
    requestId: Text,
    countryKey: nat,
    deviceTypeKey: DeviceTypeKey,
    adSlotKey: nat,
    auctionType: AuctionType,
    receivedAtNs: nat,
    deadlineNs: nat,
    processingStatus: ProcessingStatus,
    noBidReason: NoBidReason)
  {
    predicate IsEligible() {
      processingStatus == Ok && noBidReason == NoReason
    }
  }

  datatype CampaignRecord = CampaignRecord(
    campaignId: nat,
    countryKey: nat,
    deviceTypeKey: DeviceTypeKey,
    adSlotKey: nat,
    creativeOffset: nat,
    creativeCount: nat,
    active: bool)

  datatype CreativeRecord = CreativeRecord(creativeId: nat, adSlotKey: nat)

  /** A campaign and its creatives; the campaign may be missing, as a null pointer in a view may be. */
  datatype CampaignView = CampaignView(campaign: Option<CampaignRecord>, creatives: seq<CreativeRecord>)

  datatype BidDecision = BidDecision(
    hasBid: bool,
    noBidReason: NoBidReason,
    campaignId: nat,
    creativeId: nat,
    bidPrice: real)

  function NoBid(reason: NoBidReason): BidDecision {
    BidDecision(false, reason, 0, 0, 0.0)
  }

  datatype BidStatus = StatusNoBid | StatusBid

  /** The response message; texts that are not set are empty and an unset price is 0. */
  datatype BidResponse = BidResponse(
    requestId: Text,
    status: BidStatus,
    campaignId: Text,
    creativeId: Text,
    price: real)
}
