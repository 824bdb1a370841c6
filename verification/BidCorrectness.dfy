/**
 * What a bid is, end to end: from the bytes of the campaign file and the state of the generator to the ids and the
 * price in the response.
 */
module BidCorrectness {
  import opened Bytes
  import opened EngineTypes
  import opened Normalize
  import opened CsvText
  import opened CampaignStores
  import opened StoreInvariants
  import opened Retrieve
  import opened Decision
  import opened WorkerRngs
  import opened HandleRequests

  /** The campaigns a request asks for: active, and with its three keys. */
  predicate Wanted(m: ParsedMessage, c: CampaignRecord) {
    && c.active
    && c.countryKey == NormalizeCountryKey(m.country)
    && c.deviceTypeKey == NormalizeDeviceTypeKey(m.deviceType)
    && c.adSlotKey == NormalizeAdSlotKey(m.adSlot)
  }

  function WantedBy(m: ParsedMessage): RowTest {
    (c: CampaignRecord) => Wanted(m, c)
  }

  function WantedRows(store: Store, m: ParsedMessage): seq<nat> {
    RowsWhere(store.campaigns, WantedBy(m))
  }

  /** The price drawn for the k-th wanted row, when the generator was in a state before the request. */
  function DrawnPrice(rng: bv64, k: nat): real {
    PriceOf(StateAfter(rng, 2 * k + 2))
  }

  lemma {:induction false} RowsByTest(campaigns: seq<CampaignRecord>, test: RowTest, other: RowTest)
    requires forall c :: test(c) <==> other(c)
    ensures RowsWhere(campaigns, test) == RowsWhere(campaigns, other)
  {
    if campaigns != [] {
      RowsByTest(campaigns[..|campaigns| - 1], test, other);
    }
  }

  /** When every candidate can offer, the k-th offer is the k-th candidate's, made after 2k draws. */
  lemma {:induction false} OffersOfAll(candidates: seq<CampaignView>, s: bv64, k: nat)
    requires (forall i :: 0 <= i < |candidates| ==> CanOffer(candidates[i])) && k < |candidates|
    ensures |Offers(candidates, s)| == |candidates|
    ensures Offers(candidates, s)[k] == OfferOf(candidates[k], StateAfter(s, 2 * k))
  {
    hide NextState, OfferOf;
    AllOffer(candidates);
    var n := |candidates| - 1;
    AllOffer(candidates[..n]);
    if k < n {
      OffersOfAll(candidates[..n], s, k);
    }
  }

  lemma {:induction false} AllOffer(candidates: seq<CampaignView>)
    requires forall i :: 0 <= i < |candidates| ==> CanOffer(candidates[i])
    ensures OfferCount(candidates) == |candidates|
  {
    if candidates != [] {
      AllOffer(candidates[..|candidates| - 1]);
    }
  }

  /** Whether a request is answered by an auction: neither dropped nor late. */
  predicate Auctioned(m: ParsedMessage, receivedAtNs: nat) {
    !Malformed(m) && m.processingStatus == Ok && !ArrivesExpired(m, receivedAtNs)
  }

  /** The candidates of an auctioned request are the wanted rows in order, each with its own, non-empty creatives. */
  lemma CandidatesAreWantedRows(store: Store, m: ParsedMessage, receivedAtNs: nat)
    requires Invariant(store)
    requires BuildRequestContext(m, receivedAtNs).IsEligible()
    ensures var rows := WantedRows(store, m);
            && RowsExist(store, rows)
            && Retrieved(store, BuildRequestContext(m, receivedAtNs)) == Views(store, rows)
            && forall i :: 0 <= i < |rows| ==> Wanted(m, store.campaigns[rows[i]]) && CanOffer(ViewOf(store, rows[i]))
  {
    hide NormalizeCountryKey, NormalizeDeviceTypeKey, FnvFrom, Indexes, Retrieved;
    var ctx := BuildRequestContext(m, receivedAtNs);
    IndexedRetrievalIsFullScan(store, ctx);
    RowsByTest(store.campaigns, Matching(ctx), WantedBy(m));
    RowsWhereExact(store.campaigns, WantedBy(m));
    var rows := WantedRows(store, m);
    forall i | 0 <= i < |rows|
      ensures rows[i] < |store.campaigns| && Wanted(m, store.campaigns[rows[i]]) && CanOffer(ViewOf(store, rows[i]))
    {
      assert rows[i] in rows;
      assert RangePacked(store.campaigns, store.creatives, rows[i]);
    }
  }

  lemma OfferPrice(view: CampaignView, rng: bv64, k: nat)
    requires CanOffer(view)
    ensures OfferOf(view, StateAfter(rng, 2 * k)).price == DrawnPrice(rng, k)
  {
    assert StateAfter(rng, 2 * k + 2) == NextState(StateAfter(rng, 2 * k + 1));
  }

  /** Among candidates that can all offer, the first with the highest drawn price wins. */
  lemma FirstHighestDrawWins(candidates: seq<CampaignView>, rng: bv64) returns (k: nat)
    requires candidates != [] && forall i :: 0 <= i < |candidates| ==> CanOffer(candidates[i])
    ensures k < |candidates|
    ensures FirstBest(Offers(candidates, rng)) == Some(OfferOf(candidates[k], StateAfter(rng, 2 * k)))
    ensures forall j :: 0 <= j < k ==> DrawnPrice(rng, j) < DrawnPrice(rng, k)
    ensures forall j :: k < j < |candidates| ==> DrawnPrice(rng, j) <= DrawnPrice(rng, k)
  {
    hide CanOffer, NextState, OfferOf, DrawnPrice, OfferCount;
    AllOffer(candidates);
    var offers := Offers(candidates, rng);
    k := FirstBestIsFirstMaximum(offers);
    forall j | 0 <= j < |candidates|
      ensures offers[j] == OfferOf(candidates[j], StateAfter(rng, 2 * j)) && offers[j].price == DrawnPrice(rng, j)
    {
      OffersOfAll(candidates, rng, j);
      OfferPrice(candidates[j], rng, j);
    }
  }

  /** The decision on such a request, and the generator after it: see AuctionOutcome. */
  lemma DecisionAmongWantedRows(store: Store, m: ParsedMessage, receivedAtNs: nat, rng: bv64) returns (k: nat)
    requires Invariant(store) && BuildRequestContext(m, receivedAtNs).IsEligible()
    ensures var ctx := BuildRequestContext(m, receivedAtNs);
            var (decision, after) := Decided(ctx, Retrieved(store, ctx), rng);
            var rows := WantedRows(store, m);
            && RowsExist(store, rows)
            && after == StateAfter(rng, 2 * |rows|)
            && (rows == [] ==> decision == NoBid(NoEligibleCampaign))
            && (rows != [] ==>
                  && k < |rows|
                  && CanOffer(ViewOf(store, rows[k]))
                  && decision == DecisionFor(Some(OfferOf(ViewOf(store, rows[k]), StateAfter(rng, 2 * k))))
                  && (forall j :: 0 <= j < k ==> DrawnPrice(rng, j) < DrawnPrice(rng, k))
                  && (forall j :: k < j < |rows| ==> DrawnPrice(rng, j) <= DrawnPrice(rng, k)))
  {
    hide BuildRequestContext, Retrieved, Invariant, CanOffer, NextState, DrawnPrice, OfferOf, Wanted, WantedRows;
    CandidatesAreWantedRows(store, m, receivedAtNs);
    var candidates := Views(store, WantedRows(store, m));
    AllOffer(candidates);
    k := 0;
    if candidates != [] {
      k := FirstHighestDrawWins(candidates, rng);
    }
  }

  /**
   * The auction, in closed form. The wanted rows bid in row order, the k-th with the generator's draws 2k + 1 (which
   * of its creatives) and 2k + 2 (its price); the first of the highest prices wins, and the generator ends two draws
   * per wanted row ahead.
   */
  lemma AuctionOutcome(store: Store, m: ParsedMessage, receivedAtNs: nat, rng: bv64) returns (k: nat)
    requires Invariant(store) && InWords(m, receivedAtNs) && Auctioned(m, receivedAtNs)
    ensures var (result, after) := Handled(store, m, receivedAtNs, rng);
            var rows := WantedRows(store, m);
            && result.status == ResponseReady
            && RowsExist(store, rows)
            && after == StateAfter(rng, 2 * |rows|)
            && if rows == [] then result.response == BidResponse(m.requestId, StatusNoBid, [], [], 0.0)
               else
                 && k < |rows|
                 && var c := store.campaigns[rows[k]];
                 var pool := CreativesIn(store, c);
                 && pool != []
                 && result.response == BidResponse(m.requestId, StatusBid, ToDecimal(c.campaignId),
                      ToDecimal(pool[IndexBelow(StateAfter(rng, 2 * k + 1), |pool|)].creativeId), DrawnPrice(rng, k))
                 && MIN_BID_PRICE <= DrawnPrice(rng, k) < MAX_BID_PRICE
                 && (forall j :: 0 <= j < k ==> DrawnPrice(rng, j) < DrawnPrice(rng, k))
                 && (forall j :: k < j < |rows| ==> DrawnPrice(rng, j) <= DrawnPrice(rng, k))
  {
    hide Retrieved, Invariant, NextState, PriceOf, IndexBelow, ToDecimal, WantedRows, Decided, NormalizeCountryKey,
      NormalizeDeviceTypeKey, FnvFrom, CreativesIn;
    OutcomeClassified(store, m, receivedAtNs, rng);
    k := DecisionAmongWantedRows(store, m, receivedAtNs, rng);
    if WantedRows(store, m) != [] {
      OfferPrice(ViewOf(store, WantedRows(store, m)[k]), rng, k);
      PriceInRange(StateAfter(rng, 2 * k + 2));
      assert StateAfter(rng, 2 * k + 1) == NextState(StateAfter(rng, 2 * k));
    }
  }

  /** The row's prices before it are lower, and none behind it is higher. */
  predicate FirstHighest(rng: bv64, count: nat, k: nat) {
    && k < count
    && (forall j :: 0 <= j < k ==> DrawnPrice(rng, j) < DrawnPrice(rng, k))
    && (forall j :: k < j < count ==> DrawnPrice(rng, j) <= DrawnPrice(rng, k))
  }

  /** A response names the k-th wanted row and the creative drawn for it, the generator being in a state before. */
  predicate NamesWinner(store: Store, m: ParsedMessage, rng: bv64, response: BidResponse, k: nat)
    requires k < |WantedRows(store, m)|
  {
    var row := WantedRows(store, m)[k];
    && row < |store.campaigns|
    && var pool := CreativesIn(store, store.campaigns[row]);
       && pool != []
       && response.campaignId == ToDecimal(store.campaigns[row].campaignId)
       && response.creativeId == ToDecimal(pool[IndexBelow(StateAfter(rng, 2 * k + 1), |pool|)].creativeId)
  }

  /** A response with the status and the ids that the auction of the wanted rows comes to from a generator state. */
  predicate IsAuctionOutcome(store: Store, m: ParsedMessage, rng: bv64, response: BidResponse) {
    var count := |WantedRows(store, m)|;
    && (response.status == StatusBid <==> count > 0)
    && (count > 0 ==>
          exists k :: 0 <= k < count && FirstHighest(rng, count, k) && NamesWinner(store, m, rng, response, k))
  }

  lemma AuctionedResponse(store: Store, m: ParsedMessage, receivedAtNs: nat, rng: bv64)
    requires Invariant(store) && InWords(m, receivedAtNs) && Auctioned(m, receivedAtNs)
    ensures IsAuctionOutcome(store, m, rng, Handled(store, m, receivedAtNs, rng).0.response)
  {
    hide Invariant, Handled, WantedRows, NextState, PriceOf, IndexBelow, CreativesIn, ToDecimal, Malformed;
    var k := AuctionOutcome(store, m, receivedAtNs, rng);
    var response := Handled(store, m, receivedAtNs, rng).0.response;
    assert WantedRows(store, m) != [] ==> NamesWinner(store, m, rng, response, k);
  }

  lemma SomeRowWanted(store: Store, m: ParsedMessage)
    ensures WantedRows(store, m) != [] <==>
            exists row :: 0 <= row < |store.campaigns| && Wanted(m, store.campaigns[row])
  {
    RowsWhereExact(store.campaigns, WantedBy(m));
    var rows := WantedRows(store, m);
    if rows != [] {
      assert rows[0] in rows;
    }
    if row :| 0 <= row < |store.campaigns| && Wanted(m, store.campaigns[row]) {
      assert row in rows;
    }
  }

  /**
   * Over any loaded store: a request that is not dropped is bid on exactly when its limit leaves time and some active
   * row has its three keys; either way the response carries the request's own id.
   */
  lemma BidIffWanted(store: Store, m: ParsedMessage, receivedAtNs: nat, rng: bv64)
    requires Invariant(store) && InWords(m, receivedAtNs) && !DeadlineWraps(m, receivedAtNs)
    ensures var result := Handled(store, m, receivedAtNs, rng).0;
            && result.response.requestId == m.requestId
            && (result.status == ResponseReady ==>
                  (result.response.status == StatusBid <==>
                   m.tmaxMs >= 2 && exists row :: 0 <= row < |store.campaigns| && Wanted(m, store.campaigns[row])))
  {
    hide Retrieved, Invariant, NextState, ToDecimal, Offers, FirstBest, OfferCount, NormalizeCountryKey,
      NormalizeDeviceTypeKey, FnvFrom, Wanted, WantedRows, PriceOf, IndexBelow, CreativesIn;
    OutcomeClassified(store, m, receivedAtNs, rng);
    SomeRowWanted(store, m);
    if Auctioned(m, receivedAtNs) {
      var k := AuctionOutcome(store, m, receivedAtNs, rng);
    }
  }

  // ---- From the file ----

  /** The file loads, and its rows and creatives can be counted in 32 bits. */
  predicate Loads(isDouble: DoubleSyntax, lines: seq<Text>) {
    var rows := RowsOf(isDouble, DataLines(lines));
    rows.Some? && |rows.value| < U32_LIMIT && CreativeTotal(rows.value) < U32_LIMIT
  }

  /** A line of the file that a request asks for. */
  predicate LineWanted(isDouble: DoubleSyntax, m: ParsedMessage, line: Text) {
    var row := RowOfLine(isDouble, line);
    && row.Some?
    && row.value.active
    && row.value.countryKey == NormalizeCountryKey(m.country)
    && row.value.deviceTypeKey == NormalizeDeviceTypeKey(m.deviceType)
    && row.value.adSlotKey == NormalizeAdSlotKey(m.adSlot)
  }

  /** The printed ids read back as the line's campaign and one of its own creatives. */
  predicate NamesLine(isDouble: DoubleSyntax, response: BidResponse, line: Text) {
    var row := RowOfLine(isDouble, line);
    && row.Some?
    && ParseU64(response.campaignId) == Some(row.value.campaignId)
    && ParseU64(response.creativeId).Some?
    && ParseU64(response.creativeId).value in row.value.creativeIds
  }

  lemma {:induction false} IdsAreWords(tokens: seq<Text>)
    ensures ParseIds(tokens).Some? ==> forall id :: id in ParseIds(tokens).value ==> id < U64_LIMIT
  {
    hide IsDecimal, DecimalValue;
    if tokens != [] {
      IdsAreWords(tokens[1..]);
    }
  }

  lemma RowIdsAreWords(isDouble: DoubleSyntax, line: Text)
    requires RowOfLine(isDouble, line).Some?
    ensures var row := RowOfLine(isDouble, line).value;
            row.campaignId < U64_LIMIT && forall id :: id in row.creativeIds ==> id < U64_LIMIT
  {
    hide IsDecimal, DecimalValue, SplitOn, NormalizeCountryKey, NormalizeDeviceTypeKey, FnvFrom;
    IdsAreWords(SplitOn(TrimAll(SplitOn(line, COMMA))[7], PIPE));
  }

  /** The campaign of a wanted row is what a wanted line of the file says, and its creatives are that line's. */
  lemma RowIsLine(isDouble: DoubleSyntax, lines: seq<Text>, m: ParsedMessage, i: nat)
    requires Loads(isDouble, lines) && i < |DataLines(lines)|
    ensures var store := Loaded(isDouble, lines).value;
            var row := RowOfLine(isDouble, DataLines(lines)[i]);
            && |store.campaigns| == |DataLines(lines)| && row.Some?
            && (Wanted(m, store.campaigns[i]) <==> LineWanted(isDouble, m, DataLines(lines)[i]))
            && store.campaigns[i].campaignId == row.value.campaignId
            && CreativesIn(store, store.campaigns[i]) == CreativesOf(row.value.creativeIds, row.value.adSlotKey)
  {
    hide RowOfLine, NormalizeCountryKey, NormalizeDeviceTypeKey, FnvFrom, Invariant, CreativesIn, CreativesOf;
    LoadedStore(isDouble, lines);
    RowsOfLines(isDouble, DataLines(lines));
  }

  /** Printed ids of a row and of one of its creatives name the row's line. */
  lemma PrintedIdsNameLine(isDouble: DoubleSyntax, line: Text, response: BidResponse, j: nat)
    requires RowOfLine(isDouble, line).Some?
    requires var row := RowOfLine(isDouble, line).value;
             && j < |row.creativeIds| && response.campaignId == ToDecimal(row.campaignId)
             && response.creativeId == ToDecimal(CreativesOf(row.creativeIds, row.adSlotKey)[j].creativeId)
    ensures NamesLine(isDouble, response, line)
  {
    hide RowOfLine, ToDecimal, ParseU64;
    RowIdsAreWords(isDouble, line);
    var row := RowOfLine(isDouble, line).value;
    PrintedNumberParses(row.campaignId);
    assert row.creativeIds[j] in row.creativeIds;
    PrintedNumberParses(row.creativeIds[j]);
  }

  /**
   * End to end, from the file: a request that is not dropped is bid on exactly when its limit leaves time and some
   * line of the file is wanted; and the ids printed in a bid read back as those of one wanted line, the creative
   * being one of that line's own.
   */
  lemma BidComesFromTheFile(isDouble: DoubleSyntax, lines: seq<Text>, m: ParsedMessage, receivedAtNs: nat, rng: bv64)
    requires InWords(m, receivedAtNs) && !DeadlineWraps(m, receivedAtNs)
    ensures Loads(isDouble, lines) ==>
              var result := Handled(Loaded(isDouble, lines).value, m, receivedAtNs, rng).0;
              result.status == ResponseReady ==>
                && (result.response.status == StatusBid <==>
                    m.tmaxMs >= 2 && exists line :: line in DataLines(lines) && LineWanted(isDouble, m, line))
                && (result.response.status == StatusBid ==>
                      exists line :: line in DataLines(lines) && LineWanted(isDouble, m, line)
                        && NamesLine(isDouble, result.response, line))
  {
    hide Handled, LineWanted, Wanted, NamesLine, Invariant, RowOfLine, CreativesIn, NextState, PriceOf, ToDecimal,
      CreativesOf;
    if Loads(isDouble, lines) {
      var store, data := Loaded(isDouble, lines).value, DataLines(lines);
      LoadedStore(isDouble, lines);
      BidIffWanted(store, m, receivedAtNs, rng);
      forall i | 0 <= i < |data|
        ensures |store.campaigns| == |data| && (Wanted(m, store.campaigns[i]) <==> LineWanted(isDouble, m, data[i]))
      {
        RowIsLine(isDouble, lines, m, i);
      }
      WinnerNamesLine(isDouble, lines, m, receivedAtNs, rng);
    }
  }

  lemma WinnerNamesLine(isDouble: DoubleSyntax, lines: seq<Text>, m: ParsedMessage, receivedAtNs: nat, rng: bv64)
    requires InWords(m, receivedAtNs)
    ensures Loads(isDouble, lines) ==>
              var response := Handled(Loaded(isDouble, lines).value, m, receivedAtNs, rng).0.response;
              response.status == StatusBid ==>
                exists line :: line in DataLines(lines) && LineWanted(isDouble, m, line)
                  && NamesLine(isDouble, response, line)
  {
    hide LineWanted, NamesLine, Invariant, RowOfLine, CreativesIn, NextState, PriceOf, ToDecimal, CreativesOf,
      Retrieved,
      IndexBelow, NormalizeCountryKey, NormalizeDeviceTypeKey, FnvFrom, Offers, FirstBest, OfferCount;
    if Loads(isDouble, lines) {
      var store := Loaded(isDouble, lines).value;
      var response := Handled(store, m, receivedAtNs, rng).0.response;
      LoadedStore(isDouble, lines);
      OutcomeClassified(store, m, receivedAtNs, rng);
      if response.status == StatusBid {
        var k := AuctionOutcome(store, m, receivedAtNs, rng);
        var i := WantedRows(store, m)[k];
        RowsWhereExact(store.campaigns, WantedBy(m));
        assert i in WantedRows(store, m);
        RowIsLine(isDouble, lines, m, i);
        var pool := CreativesIn(store, store.campaigns[i]);
        PrintedIdsNameLine(isDouble, DataLines(lines)[i], response, IndexBelow(StateAfter(rng, 2 * k + 1), |pool|));
        assert DataLines(lines)[i] in DataLines(lines);
      }
    }
  }
}
