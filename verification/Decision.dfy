/** Choosing the bid: one random creative and one random price per candidate, the first highest price wins. */
module Decision {
  import opened Bytes
  import opened EngineTypes
  import opened WorkerRngs

  const MIN_BID_PRICE: real := 0.05
  const MAX_BID_PRICE: real := 5.00

  // ---- The specification: the offers of all candidates, and the first best of them ----

  datatype Offer = Offer(campaignId: nat, creativeId: nat, price: real)

  predicate CanOffer(view: CampaignView) {
    view.campaign.Some? && view.creatives != []
  }

  /** The price of a drawn word, over exact reals. */
  function PriceOf(word: bv64): real {
    MIN_BID_PRICE + UnitBits(word) as real / 0x20_0000_0000_0000 as real * (MAX_BID_PRICE - MIN_BID_PRICE)
  }

  /** What a candidate offers from a generator state: the first draw picks the creative, the second the price. */
  function OfferOf(view: CampaignView, s: bv64): Offer
    requires CanOffer(view)
  {
    var index := IndexBelow(NextState(s), |view.creatives|);
    Offer(view.campaign.value.campaignId, view.creatives[index].creativeId, PriceOf(NextState(NextState(s))))
  }

  function OfferCount(candidates: seq<CampaignView>): nat {
    if candidates == [] then 0
    else OfferCount(candidates[..|candidates| - 1]) + (if CanOffer(candidates[|candidates| - 1]) then 1 else 0)
  }

  /** The offers in candidate order, each made two draws after the one before it. */
  function Offers(candidates: seq<CampaignView>, s: bv64): (offers: seq<Offer>)
    ensures |offers| == OfferCount(candidates)
  {
    if candidates == [] then []
    else
      var init, last := candidates[..|candidates| - 1], candidates[|candidates| - 1];
      Offers(init, s) + (if CanOffer(last) then [OfferOf(last, StateAfter(s, 2 * OfferCount(init)))] else [])
  }

  /** The best offer so far, replaced only by a strictly better one. */
  function FirstBest(offers: seq<Offer>): Option<Offer> {
    if offers == [] then None
    else
      var best, last := FirstBest(offers[..|offers| - 1]), offers[|offers| - 1];
      if best.None? || last.price > best.value.price then Some(last) else best
  }

  function DecisionFor(best: Option<Offer>): BidDecision {
    match best
    case None => NoBid(NoEligibleCampaign)
    case Some(offer) => BidDecision(true, NoReason, offer.campaignId, offer.creativeId, offer.price)
  }

  /** The decision and the generator after it. */
  function Decided(ctx: RequestContext, candidates: seq<CampaignView>, s: bv64): (BidDecision, bv64) {
    if !ctx.IsEligible() then (NoBid(ctx.noBidReason), s)
    else (DecisionFor(FirstBest(Offers(candidates, s))), StateAfter(s, 2 * OfferCount(candidates)))
  }

  // ---- The loop as it runs ----

  method ChooseRandomCreative(creatives: seq<CreativeRecord>, rng: WorkerRng) returns (creative: Option<CreativeRecord>)
    modifies rng
    ensures creatives == [] ==> creative == None && rng.state == old(rng.state)
    ensures creatives != [] ==>
              rng.state == NextState(old(rng.state)) && creative == Some(creatives[IndexBelow(rng.state, |creatives|)])
  {
    if |creatives| == 0 {
      return None;
    }
    var index := rng.UniformIndex(|creatives|);
    return Some(creatives[index]);
  }

  method GenerateBidPrice(rng: WorkerRng) returns (price: real)
    modifies rng
    ensures rng.state == NextState(old(rng.state)) && price == PriceOf(rng.state)
  {
    var unit := rng.NextUnitDouble();
    price := MIN_BID_PRICE + unit * (MAX_BID_PRICE - MIN_BID_PRICE);
  }

  method MakeBidDecision(ctx: RequestContext, candidates: seq<CampaignView>, rng: WorkerRng)
    returns (decision: BidDecision)
    modifies rng
    ensures (decision, rng.state) == Decided(ctx, candidates, old(rng.state))
  {
    hide NextState, PriceOf, IndexBelow;
    if !ctx.IsEligible() {
      return NoBid(ctx.noBidReason);
    }
    if |candidates| == 0 {
      return NoBid(NoEligibleCampaign);
    }
    decision := NoBid(NoEligibleCampaign);
    ghost var seed := rng.state;
    var bestBidPrice: Option<real> := None;   // none stands for minus infinity
    for i := 0 to |candidates|
      invariant rng.state == StateAfter(seed, 2 * OfferCount(candidates[..i]))
      invariant var best := FirstBest(Offers(candidates[..i], seed));
                decision == DecisionFor(best) && bestBidPrice == if best.None? then None else Some(best.value.price)
    {
      ghost var s := rng.state;
      var candidate := candidates[i];
      CandidateAdded(candidates, i, seed);
      if candidate.campaign.None? {
        continue;
      }
      var creative := ChooseRandomCreative(candidate.creatives, rng);
      if creative.None? {
        continue;
      }
      var bidPrice := GenerateBidPrice(rng);
      assert OfferOf(candidate, s) == Offer(candidate.campaign.value.campaignId, creative.value.creativeId, bidPrice);
      if bestBidPrice.Some? && bidPrice <= bestBidPrice.value {
        continue;
      }
      bestBidPrice := Some(bidPrice);
      decision := BidDecision(true, NoReason, candidate.campaign.value.campaignId, creative.value.creativeId, bidPrice);
    }
    assert candidates[..|candidates|] == candidates;
  }

  lemma CandidateAdded(candidates: seq<CampaignView>, i: nat, s: bv64)
    requires i < |candidates|
    ensures var before, after := Offers(candidates[..i], s), Offers(candidates[..i + 1], s);
            var state := StateAfter(s, 2 * OfferCount(candidates[..i]));
            if !CanOffer(candidates[i])
            then after == before && StateAfter(s, 2 * OfferCount(candidates[..i + 1])) == state
            else
              var offer, best := OfferOf(candidates[i], state), FirstBest(before);
              && StateAfter(s, 2 * OfferCount(candidates[..i + 1])) == NextState(NextState(state))
              && FirstBest(after) == if best.None? || offer.price > best.value.price then Some(offer) else best
  {
    hide NextState, OfferOf;
    assert candidates[..i + 1][..i] == candidates[..i];
    var before := Offers(candidates[..i], s);
    if CanOffer(candidates[i]) {
      var offer := OfferOf(candidates[i], StateAfter(s, 2 * OfferCount(candidates[..i])));
      assert (before + [offer])[..|before|] == before;
    } else {
      assert before + [] == before;
    }
  }

  // ---- What the decision is ----

  /** The first best offer: none before it is as high, none after it is higher. */
  lemma {:induction false} FirstBestIsFirstMaximum(offers: seq<Offer>) returns (k: nat)
    requires offers != []
    ensures k < |offers| && FirstBest(offers) == Some(offers[k])
    ensures forall j :: 0 <= j < k ==> offers[j].price < offers[k].price
    ensures forall j :: k < j < |offers| ==> offers[j].price <= offers[k].price
  {
    var n := |offers| - 1;
    if n == 0 {
      assert offers[..0] == [];
      return 0;
    }
    k := FirstBestIsFirstMaximum(offers[..n]);
    if offers[n].price > offers[k].price {
      k := n;
    }
  }

  lemma PriceInRange(word: bv64)
    ensures MIN_BID_PRICE <= PriceOf(word) < MAX_BID_PRICE
  {
    var unit := UnitBits(word) as real / 0x20_0000_0000_0000 as real;
    assert 0.0 <= unit < 1.0;
  }

  /** The price of a word whose upper 53 bits are a number: it rises evenly from 0.05 by 4.95 over the whole range. */
  lemma PriceScale(word: bv64, bits: nat)
    requires bits * 2048 <= word as int < (bits + 1) * 2048
    ensures PriceOf(word) == 0.05 + bits as real * (4.95 / 9007199254740992.0)
  {
    UpperBits(word, bits);
    hide UnitBits;
    var unit := bits as real / 0x20_0000_0000_0000 as real;
    assert unit * 4.95 == bits as real * (4.95 / 9007199254740992.0);
  }

  /** The highest price is the highest draw: words 2048 apart differ in price, and a higher price is a higher word. */
  lemma PriceOrder(word: bv64, other: bv64)
    ensures word as int + 2048 <= other as int ==> PriceOf(word) < PriceOf(other)
    ensures PriceOf(word) < PriceOf(other) ==> word as int < other as int
  {
    UpperBits(word, UnitBits(word));
    UpperBits(other, UnitBits(other));
    PriceOfBits(word, other);
  }

  lemma PriceOfBits(word: bv64, other: bv64)
    ensures PriceOf(word) < PriceOf(other) <==> UnitBits(word) < UnitBits(other)
  {
    hide UnitBits;
    var a, b := UnitBits(word) as real, UnitBits(other) as real;
    assert a / 0x20_0000_0000_0000 as real < b / 0x20_0000_0000_0000 as real <==> a < b;
  }

  /** An offer names its candidate, one of its creatives, and a price in range. */
  lemma {:induction false} OffersAreOfCandidates(candidates: seq<CampaignView>, s: bv64, k: nat)
    requires k < |Offers(candidates, s)|
    ensures var offer := Offers(candidates, s)[k];
            && MIN_BID_PRICE <= offer.price < MAX_BID_PRICE
            && exists i, j :: 0 <= i < |candidates| && CanOffer(candidates[i]) && 0 <= j < |candidates[i].creatives|
                 && offer.campaignId == candidates[i].campaign.value.campaignId
                 && offer.creativeId == candidates[i].creatives[j].creativeId
  {
    hide NextState, PriceOf;
    var n := |candidates| - 1;
    if k < |Offers(candidates[..n], s)| {
      OffersAreOfCandidates(candidates[..n], s, k);
      var i, j :| 0 <= i < n && CanOffer(candidates[..n][i]) && 0 <= j < |candidates[..n][i].creatives|
                  && Offers(candidates, s)[k].campaignId == candidates[..n][i].campaign.value.campaignId
                  && Offers(candidates, s)[k].creativeId == candidates[..n][i].creatives[j].creativeId;
      assert candidates[i] == candidates[..n][i];
    } else {
      var state := StateAfter(s, 2 * OfferCount(candidates[..n]));
      var j := IndexBelow(NextState(state), |candidates[n].creatives|);
      PriceInRange(NextState(NextState(state)));
      assert Offers(candidates, s)[k] == OfferOf(candidates[n], state);
      assert CanOffer(candidates[n]) && candidates[n].creatives[j].creativeId == Offers(candidates, s)[k].creativeId;
    }
  }

  /**
   * The decision on an eligible request: a bid exactly when some candidate can offer; then it is the first offer of
   * the highest price, its price lies in [0.05, 5.00), and every offer made cost exactly two draws.
   */
  lemma DecisionIsFirstHighestOffer(ctx: RequestContext, candidates: seq<CampaignView>, s: bv64) returns (k: nat)
    requires ctx.IsEligible()
    ensures var (decision, after) := Decided(ctx, candidates, s);
            var offers := Offers(candidates, s);
            && (decision.hasBid <==> exists i :: 0 <= i < |candidates| && CanOffer(candidates[i]))
            && after == StateAfter(s, 2 * |offers|)
            && (decision.hasBid ==>
                  && k < |offers| && decision == DecisionFor(Some(offers[k]))
                  && MIN_BID_PRICE <= decision.bidPrice < MAX_BID_PRICE
                  && (forall j :: 0 <= j < k ==> offers[j].price < decision.bidPrice)
                  && (forall j :: k < j < |offers| ==> offers[j].price <= decision.bidPrice))
            && (!decision.hasBid ==> decision == NoBid(NoEligibleCampaign) && after == s)
  {
    hide NextState, OfferOf;
    OfferCountPositive(candidates);
    k := 0;
    if OfferCount(candidates) > 0 {
      k := FirstBestIsFirstMaximum(Offers(candidates, s));
      OffersAreOfCandidates(candidates, s, k);
    }
  }

  lemma {:induction false} OfferCountPositive(candidates: seq<CampaignView>)
    ensures OfferCount(candidates) > 0 <==> exists i :: 0 <= i < |candidates| && CanOffer(candidates[i])
  {
    if candidates != [] {
      var n := |candidates| - 1;
      OfferCountPositive(candidates[..n]);
      if i :| 0 <= i < n && CanOffer(candidates[..n][i]) {
        assert CanOffer(candidates[i]);
      }
      if i :| 0 <= i < |candidates| && CanOffer(candidates[i]) && i != n {
        assert CanOffer(candidates[..n][i]);
      }
    }
  }
}
