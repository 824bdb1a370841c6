/** What every loaded store satisfies: exact indexes, and creatives packed without gap or overlap. */
module StoreInvariants {
  import opened Bytes
  import opened EngineTypes
  import opened CampaignStores

  type RowTest = CampaignRecord -> bool

  function InCountry(key: nat): RowTest {
    (c: CampaignRecord) => c.countryKey == key
  }

  function InSlot(key: nat): RowTest {
    (c: CampaignRecord) => c.adSlotKey == key
  }

  /** The rows that pass a test, in order: what a scan of all campaigns finds. */
  function RowsWhere(campaigns: seq<CampaignRecord>, test: RowTest): seq<nat> {
    if campaigns == [] then []
    else
      var n := |campaigns| - 1;
      RowsWhere(campaigns[..n], test) + (if test(campaigns[n]) then [n] else [])
  }

  /** An index has a bucket for exactly the keys that occur, holding exactly their rows in order. */
  ghost predicate Indexes(index: map<nat, seq<nat>>, campaigns: seq<CampaignRecord>, testOf: nat -> RowTest) {
    && (forall key :: key in index ==> index[key] == RowsWhere(campaigns, testOf(key)) && index[key] != [])
    && (forall key :: RowsWhere(campaigns, testOf(key)) != [] ==> key in index)
  }

  /** The number of creatives of the first n campaigns. */
  function CreativesBefore(campaigns: seq<CampaignRecord>, n: nat): nat
    requires n <= |campaigns|
  {
    if n == 0 then 0 else CreativesBefore(campaigns, n - 1) + campaigns[n - 1].creativeCount
  }

  /** Ranges are non-empty and lie one behind the other, covering the array; a creative knows its campaign's slot. */
  predicate Packed(s: Store) {
    && CreativesBefore(s.campaigns, |s.campaigns|) == |s.creatives|
    && forall i :: 0 <= i < |s.campaigns| ==> RangePacked(s.campaigns, s.creatives, i)
  }

  ghost predicate WellIndexed(s: Store) {
    Indexes(s.byCountry, s.campaigns, InCountry) && Indexes(s.bySlot, s.campaigns, InSlot)
  }

  ghost predicate Invariant(s: Store) {
    WellIndexed(s) && Packed(s)
  }

  predicate StrictlyIncreasing(rows: seq<nat>) {
    forall a, b :: 0 <= a < b < |rows| ==> rows[a] < rows[b]
  }

  /** A scan's result is strictly increasing and holds exactly the rows that pass. */
  lemma {:induction false} RowsWhereExact(campaigns: seq<CampaignRecord>, test: RowTest)
    ensures forall i :: i in RowsWhere(campaigns, test) <==> 0 <= i < |campaigns| && test(campaigns[i])
    ensures StrictlyIncreasing(RowsWhere(campaigns, test))
  {
    if campaigns != [] {
      var n := |campaigns| - 1;
      RowsWhereExact(campaigns[..n], test);
      var before := RowsWhere(campaigns[..n], test);
      forall a | 0 <= a < |before|
        ensures before[a] < n
      {
        assert before[a] in before;
      }
      assert StrictlyIncreasing(before + [n]);
    }
  }

  lemma RowsWhereAppend(campaigns: seq<CampaignRecord>, c: CampaignRecord, test: RowTest)
    ensures RowsWhere(campaigns + [c], test)
         == RowsWhere(campaigns, test) + (if test(c) then [|campaigns|] else [])
  {
    assert (campaigns + [c])[..|campaigns|] == campaigns;
  }

  /** Adding the row to its key's bucket, and to no other, keeps an index exact. */
  lemma AppendKeepsIndex(index: map<nat, seq<nat>>, campaigns: seq<CampaignRecord>, c: CampaignRecord,
                         testOf: nat -> RowTest, key: nat)
    requires Indexes(index, campaigns, testOf)
    requires forall k :: testOf(k)(c) <==> k == key
    ensures Indexes(index[key := Bucket(index, key) + [|campaigns|]], campaigns + [c], testOf)
  {
    var next := index[key := Bucket(index, key) + [|campaigns|]];
    forall k
      ensures RowsWhere(campaigns + [c], testOf(k))
           == if k == key then Bucket(index, key) + [|campaigns|] else RowsWhere(campaigns, testOf(k))
    {
      RowsWhereAppend(campaigns, c, testOf(k));
      assert testOf(k)(c) <==> k == key;
    }
  }

  lemma AppendKeepsWellIndexed(s: Store, row: Row)
    requires WellIndexed(s) && |s.campaigns| < U32_LIMIT
    ensures WellIndexed(AppendRow(s, row))
  {
    hide Indexes, RowsWhere, Bucket;
    var c := RecordOf(s, row);
    AppendKeepsIndex(s.byCountry, s.campaigns, c, InCountry, row.countryKey);
    AppendKeepsIndex(s.bySlot, s.campaigns, c, InSlot, row.adSlotKey);
  }

  lemma {:induction false} CreativesBeforeAppend(campaigns: seq<CampaignRecord>, c: CampaignRecord, n: nat)
    requires n <= |campaigns|
    ensures CreativesBefore(campaigns + [c], n) == CreativesBefore(campaigns, n)
  {
    if n > 0 {
      CreativesBeforeAppend(campaigns, c, n - 1);
    }
  }

  /** A row's range: non-empty, placed behind those of the rows before it, and its creatives know the row's slot. */
  predicate RangePacked(campaigns: seq<CampaignRecord>, creatives: seq<CreativeRecord>, i: nat)
    requires i < |campaigns|
  {
    var c := campaigns[i];
    && c.creativeCount > 0
    && c.creativeOffset == CreativesBefore(campaigns, i)
    && c.creativeOffset + c.creativeCount <= |creatives|
    && forall j :: c.creativeOffset <= j < c.creativeOffset + c.creativeCount ==> creatives[j].adSlotKey == c.adSlotKey
  }

  lemma MoreKeepRange(campaigns: seq<CampaignRecord>, creatives: seq<CreativeRecord>, i: nat,
                      c: CampaignRecord, more: seq<CreativeRecord>)
    requires i < |campaigns| && RangePacked(campaigns, creatives, i)
    ensures RangePacked(campaigns + [c], creatives + more, i)
  {
    CreativesBeforeAppend(campaigns, c, i);
  }

  lemma AppendKeepsPacked(s: Store, row: Row)
    requires Packed(s) && row.creativeIds != [] && |s.creatives| + |row.creativeIds| < U32_LIMIT
    ensures Packed(AppendRow(s, row))
  {
    hide RangePacked;
    var t, c, n := AppendRow(s, row), RecordOf(s, row), |s.campaigns|;
    CreativesBeforeAppend(s.campaigns, c, n);
    assert t.campaigns[n] == c;
    forall i | 0 <= i < n
      ensures RangePacked(t.campaigns, t.creatives, i)
    {
      MoreKeepRange(s.campaigns, s.creatives, i, c, CreativesOf(row.creativeIds, row.adSlotKey));
    }
    LastRange(s, row);
  }

  lemma LastRange(s: Store, row: Row)
    requires CreativesBefore(s.campaigns, |s.campaigns|) == |s.creatives|
    requires row.creativeIds != [] && |s.creatives| + |row.creativeIds| < U32_LIMIT
    ensures var t := AppendRow(s, row); RangePacked(t.campaigns, t.creatives, |s.campaigns|)
  {
    var t := AppendRow(s, row);
    CreativesBeforeAppend(s.campaigns, RecordOf(s, row), |s.campaigns|);
    assert t.campaigns[|s.campaigns|] == RecordOf(s, row);
  }

  /** How many creatives some rows bring. */
  function CreativeTotal(rows: seq<Row>): nat {
    if rows == [] then 0 else CreativeTotal(rows[..|rows| - 1]) + |rows[|rows| - 1].creativeIds|
  }

  /** What the 32-bit row indexes and creative offsets allow for. */
  predicate Fits(rows: seq<Row>) {
    && |rows| < U32_LIMIT && CreativeTotal(rows) < U32_LIMIT
    && forall i :: 0 <= i < |rows| ==> rows[i].creativeIds != []
  }

  lemma {:induction false} BuildSizes(rows: seq<Row>)
    ensures |Build(rows).campaigns| == |rows| && |Build(rows).creatives| == CreativeTotal(rows)
  {
    if rows != [] {
      BuildSizes(rows[..|rows| - 1]);
    }
  }

  /** Every store built from rows has exact indexes and packed creatives. */
  lemma {:induction false} BuildInvariant(rows: seq<Row>)
    requires Fits(rows)
    ensures Invariant(Build(rows))
  {
    if rows != [] {
      var n := |rows| - 1;
      BuildSizes(rows[..n]);
      BuildInvariant(rows[..n]);
      AppendKeepsWellIndexed(Build(rows[..n]), rows[n]);
      AppendKeepsPacked(Build(rows[..n]), rows[n]);
    }
  }

  /** The creatives of a campaign: its range of the packed array. */
  function CreativesIn(s: Store, c: CampaignRecord): seq<CreativeRecord> {
    if c.creativeOffset + c.creativeCount <= |s.creatives|
    then s.creatives[c.creativeOffset..c.creativeOffset + c.creativeCount] else []
  }

  /** A row of the store says what its line said, creatives included. */
  predicate Represents(s: Store, i: nat, row: Row)
    requires i < |s.campaigns|
  {
    var c := s.campaigns[i];
    && c.campaignId == row.campaignId && c.countryKey == row.countryKey && c.deviceTypeKey == row.deviceTypeKey
    && c.adSlotKey == row.adSlotKey && c.active == row.active
    && CreativesIn(s, c) == CreativesOf(row.creativeIds, row.adSlotKey)
  }

  lemma AppendRepresents(s: Store, row: Row, i: nat, other: Row)
    requires Packed(s) && row.creativeIds != [] && |s.creatives| + |row.creativeIds| < U32_LIMIT
    requires i <= |s.campaigns| && if i == |s.campaigns| then other == row else Represents(s, i, other)
    ensures Represents(AppendRow(s, row), i, other)
  {
    hide CreativesOf, CreativesBefore;
    var t, more := AppendRow(s, row), CreativesOf(row.creativeIds, row.adSlotKey);
    if i == |s.campaigns| {
      SlicesOfConcat(s.creatives, more, 0, 0);
    } else {
      var c := s.campaigns[i];
      assert t.campaigns[i] == c && RangePacked(s.campaigns, s.creatives, i);
      SlicesOfConcat(s.creatives, more, c.creativeOffset, c.creativeOffset + c.creativeCount);
    }
  }

  lemma {:induction false} BuildRepresents(rows: seq<Row>, i: nat)
    requires Fits(rows) && i < |rows|
    ensures |Build(rows).campaigns| == |rows| && Represents(Build(rows), i, rows[i])
  {
    var n := |rows| - 1;
    BuildSizes(rows);
    BuildSizes(rows[..n]);
    BuildInvariant(rows[..n]);
    if i < n {
      BuildRepresents(rows[..n], i);
    }
    AppendRepresents(Build(rows[..n]), rows[n], i, rows[i]);
  }

  predicate AllAccepted(isDouble: DoubleSyntax, lines: seq<Text>) {
    forall i :: 0 <= i < |lines| ==> RowOfLine(isDouble, lines[i]).Some?
  }

  lemma {:induction false} RowsOfLines(isDouble: DoubleSyntax, lines: seq<Text>)
    ensures RowsOf(isDouble, lines).Some? <==> AllAccepted(isDouble, lines)
    ensures RowsOf(isDouble, lines).Some? ==>
              |RowsOf(isDouble, lines).value| == |lines|
              && forall i :: 0 <= i < |lines| ==>
                   RowOfLine(isDouble, lines[i]) == Some(RowsOf(isDouble, lines).value[i])
  {
    hide RowOfLine;
    if lines != [] {
      var n := |lines| - 1;
      RowsOfLines(isDouble, lines[..n]);
      assert forall i :: 0 <= i < n ==> lines[..n][i] == lines[i];
    }
  }

  lemma AcceptedRowHasCreatives(isDouble: DoubleSyntax, line: Text)
    requires RowOfLine(isDouble, line).Some?
    ensures var row := RowOfLine(isDouble, line).value;
            row.creativeIds != [] && row.countryKey != 0 && row.deviceTypeKey != UnknownDevice && row.adSlotKey != 0
  {}

  /**
   * Loading: it succeeds exactly when every line that is not skipped is acceptable, and then campaign i is what the
   * i-th such line says, both indexes are exact and the creatives are packed.
   */
  lemma LoadedStore(isDouble: DoubleSyntax, lines: seq<Text>)
    ensures Loaded(isDouble, lines).Some? <==> AllAccepted(isDouble, DataLines(lines))
    ensures var data, rows := DataLines(lines), RowsOf(isDouble, DataLines(lines));
            rows.Some? && |rows.value| < U32_LIMIT && CreativeTotal(rows.value) < U32_LIMIT ==>
              var s := Loaded(isDouble, lines).value;
              && Invariant(s)
              && |s.campaigns| == |data|
              && forall i :: 0 <= i < |data| ==> Represents(s, i, RowOfLine(isDouble, data[i]).value)
  {
    hide RowOfLine;
    var data := DataLines(lines);
    RowsOfLines(isDouble, data);
    var rows := RowsOf(isDouble, data);
    assert Loaded(isDouble, lines).Some? <==> rows.Some?;
    if rows.Some? && |rows.value| < U32_LIMIT && CreativeTotal(rows.value) < U32_LIMIT {
      forall i | 0 <= i < |data|
        ensures rows.value[i].creativeIds != []
      {
        AcceptedRowHasCreatives(isDouble, data[i]);
      }
      BuildInvariant(rows.value);
      BuildSizes(rows.value);
      forall i | 0 <= i < |data|
        ensures Represents(Build(rows.value), i, RowOfLine(isDouble, data[i]).value)
      {
        BuildRepresents(rows.value, i);
      }
    }
  }
}
