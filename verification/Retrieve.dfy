/** Retrieval through the indexes, and its agreement with a plain scan. */
module Retrieve {
  import opened Bytes
  import opened EngineTypes
  import opened CampaignStores
  import opened StoreInvariants

  predicate MatchesRequest(ctx: RequestContext, c: CampaignRecord) {
    c.active && c.countryKey == ctx.countryKey && c.deviceTypeKey == ctx.deviceTypeKey && c.adSlotKey == ctx.adSlotKey
  }

  function Matching(ctx: RequestContext): RowTest {
    (c: CampaignRecord) => MatchesRequest(ctx, c)
  }

  function ViewOf(s: Store, row: nat): CampaignView
    requires row < |s.campaigns|
  {
    CampaignView(Some(s.campaigns[row]), CreativesIn(s, s.campaigns[row]))
  }

  /** The smaller bucket of the two keys, the country's when they are equally large; none if a key is absent. */
  function ChooseSeedBucket(s: Store, ctx: RequestContext): (bucket: Option<seq<nat>>)
    ensures bucket.Some? <==> ctx.countryKey in s.byCountry && ctx.adSlotKey in s.bySlot
    ensures bucket.Some? ==>
              var country, slot := s.byCountry[ctx.countryKey], s.bySlot[ctx.adSlotKey];
              && |bucket.value| == Min(|country|, |slot|)
              && (bucket.value == country || (bucket.value == slot && |slot| < |country|))
  {
    if ctx.countryKey !in s.byCountry || ctx.adSlotKey !in s.bySlot then None
    else
      var country, slot := s.byCountry[ctx.countryKey], s.bySlot[ctx.adSlotKey];
      Some(if |country| <= |slot| then country else slot)
  }

  /** The views of a bucket's rows that match, in the bucket's order; rows beyond the table are skipped. */
  function Candidates(s: Store, ctx: RequestContext, bucket: seq<nat>): seq<CampaignView> {
    if bucket == [] then []
    else
      var row := bucket[|bucket| - 1];
      Candidates(s, ctx, bucket[..|bucket| - 1])
      + (if row < |s.campaigns| && MatchesRequest(ctx, s.campaigns[row]) then [ViewOf(s, row)] else [])
  }

  function Retrieved(s: Store, ctx: RequestContext): seq<CampaignView> {
    if !ctx.IsEligible() then []
    else match ChooseSeedBucket(s, ctx)
      case None => []
      case Some(bucket) => Candidates(s, ctx, bucket)
  }

  method RetrieveCandidates(s: Store, ctx: RequestContext) returns (candidates: seq<CampaignView>)
    ensures candidates == Retrieved(s, ctx)
  {
    candidates := [];
    if !ctx.IsEligible() {
      return;
    }
    var seedBucket := ChooseSeedBucket(s, ctx);
    if seedBucket.None? {
      return;
    }
    var bucket := seedBucket.value;
    for i := 0 to |bucket|
      invariant candidates == Candidates(s, ctx, bucket[..i])
    {
      assert bucket[..i + 1][..i] == bucket[..i];
      var row := bucket[i];
      if row < |s.campaigns| && MatchesRequest(ctx, s.campaigns[row]) {
        candidates := candidates + [ViewOf(s, row)];
      }
    }
    assert bucket[..|bucket|] == bucket;
  }

  // ---- The reference: a scan of all campaigns ----

  predicate RowsExist(s: Store, rows: seq<nat>) {
    forall i :: 0 <= i < |rows| ==> rows[i] < |s.campaigns|
  }

  function Views(s: Store, rows: seq<nat>): (views: seq<CampaignView>)
    requires RowsExist(s, rows)
    ensures |views| == |rows|
    ensures forall i :: 0 <= i < |rows| ==> views[i] == ViewOf(s, rows[i])
  {
    seq(|rows|, i requires 0 <= i < |rows| => ViewOf(s, rows[i]))
  }

  lemma MatchingRowsExist(s: Store, ctx: RequestContext, n: nat)
    requires n <= |s.campaigns|
    ensures RowsExist(s, RowsWhere(s.campaigns[..n], Matching(ctx)))
  {
    RowsWhereExact(s.campaigns[..n], Matching(ctx));
    var rows := RowsWhere(s.campaigns[..n], Matching(ctx));
    forall i | 0 <= i < |rows|
      ensures rows[i] < |s.campaigns|
    {
      assert rows[i] in rows;
    }
  }

  /** All matching campaigns, in row order. */
  function FullScan(s: Store, ctx: RequestContext): seq<CampaignView> {
    assert s.campaigns[..|s.campaigns|] == s.campaigns;
    MatchingRowsExist(s, ctx, |s.campaigns|);
    Views(s, RowsWhere(s.campaigns, Matching(ctx)))
  }

  lemma ViewsAppend(s: Store, rows: seq<nat>, row: nat)
    requires RowsExist(s, rows) && row < |s.campaigns|
    ensures RowsExist(s, rows + [row]) && Views(s, rows + [row]) == Views(s, rows) + [ViewOf(s, row)]
  {}

  lemma CandidatesAppend(s: Store, ctx: RequestContext, bucket: seq<nat>, row: nat)
    requires row < |s.campaigns|
    ensures Candidates(s, ctx, bucket + [row])
         == if MatchesRequest(ctx, s.campaigns[row]) then Candidates(s, ctx, bucket) + [ViewOf(s, row)]
            else Candidates(s, ctx, bucket)
  {
    assert (bucket + [row])[..|bucket|] == bucket;
  }

  /** Filtering the rows of a weaker test gives the rows of the request's test. */
  lemma {:induction false} FilteredBucket(s: Store, ctx: RequestContext, test: RowTest, n: nat)
    requires n <= |s.campaigns|
    requires forall c :: MatchesRequest(ctx, c) ==> test(c)
    ensures var rows := RowsWhere(s.campaigns[..n], Matching(ctx));
            RowsExist(s, rows) && Candidates(s, ctx, RowsWhere(s.campaigns[..n], test)) == Views(s, rows)
  {
    hide Candidates, ViewOf, RowsExist;
    MatchingRowsExist(s, ctx, n);
    if n == 0 {
      NothingRetrieved(s, ctx);
    } else {
      FilteredBucket(s, ctx, test, n - 1);
      var c := s.campaigns[n - 1];
      assert s.campaigns[..n] == s.campaigns[..n - 1] + [c];
      RowsWhereAppend(s.campaigns[..n - 1], c, test);
      RowsWhereAppend(s.campaigns[..n - 1], c, Matching(ctx));
      var bucket, rows := RowsWhere(s.campaigns[..n - 1], test), RowsWhere(s.campaigns[..n - 1], Matching(ctx));
      MatchingRowsExist(s, ctx, n - 1);
      CandidatesAppend(s, ctx, bucket, n - 1);
      ViewsAppend(s, rows, n - 1);
      assert bucket + [] == bucket && rows + [] == rows;
    }
  }

  lemma NothingRetrieved(s: Store, ctx: RequestContext)
    ensures RowsExist(s, []) && Candidates(s, ctx, []) == [] == Views(s, [])
  {}

  /**
   * Indexed retrieval is a full scan: for a store with exact indexes and an eligible request it returns exactly the
   * active campaigns with the request's three keys, in row order, whichever bucket is filtered and also when a key
   * is absent.
   */
  lemma IndexedRetrievalIsFullScan(s: Store, ctx: RequestContext)
    requires WellIndexed(s) && ctx.IsEligible()
    ensures Retrieved(s, ctx) == FullScan(s, ctx)
  {
    var n := |s.campaigns|;
    assert s.campaigns[..n] == s.campaigns;
    var byCountry, bySlot := InCountry(ctx.countryKey), InSlot(ctx.adSlotKey);
    FilteredBucket(s, ctx, byCountry, n);
    FilteredBucket(s, ctx, bySlot, n);
    assert ctx.countryKey !in s.byCountry ==> Candidates(s, ctx, RowsWhere(s.campaigns, byCountry)) == [];
    assert ctx.adSlotKey !in s.bySlot ==> Candidates(s, ctx, RowsWhere(s.campaigns, bySlot)) == [];
  }
}
