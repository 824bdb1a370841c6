/** Loading the campaign file into a store with two indexes and one packed array of creatives. */
module CampaignStores {
  import opened Bytes
  import opened EngineTypes
  import opened Normalize
  import opened CsvText

  /** The loaded snapshot: rows, packed creatives, and the rows of each country and ad-slot key. */
  datatype Store = Store(
    campaigns: seq<CampaignRecord>,
    creatives: seq<CreativeRecord>,
    byCountry: map<nat, seq<nat>>,
    bySlot: map<nat, seq<nat>>)

  const EMPTY_STORE := Store([], [], map[], map[])

  /** What a line says, once its fields are accepted. */
  datatype Row = Row(
    campaignId: nat,
    countryKey: nat,
    deviceTypeKey: DeviceTypeKey,
    adSlotKey: nat,
    active: bool,
    creativeIds: seq<nat>)

  /** Which texts the stream extraction of a double accepts completely; the values themselves are never used. */
  type DoubleSyntax = Text -> bool

  // ---- Fields ----

  function ParseBoolValue(value: Text): Option<bool> {
    if value == Ascii("1") || value == Ascii("true") || value == Ascii("TRUE") then Some(true)
    else if value == Ascii("0") || value == Ascii("false") || value == Ascii("FALSE") then Some(false)
    else None
  }

  /** The ids among the tokens, in order, empty tokens being skipped; none if a token is not an id. */
  function ParseIds(tokens: seq<Text>): Option<seq<nat>> {
    if tokens == [] then Some([])
    else
      var rest := ParseIds(tokens[1..]);
      if tokens[0] == [] then rest
      else if ParseU64(tokens[0]).None? || rest.None? then None
      else Some([ParseU64(tokens[0]).value] + rest.value)
  }

  function CreativesOf(ids: seq<nat>, adSlotKey: nat): (creatives: seq<CreativeRecord>)
    ensures |creatives| == |ids|
  {
    seq(|ids|, i requires 0 <= i < |ids| => CreativeRecord(ids[i], adSlotKey))
  }

  /** The row of a line, if every field is accepted; the count of creatives is kept in 32 bits. */
  function ParseRow(isDouble: DoubleSyntax, fields: seq<Text>): Option<Row> {
    if |fields| != 8 then None
    else
      var campaignId, active := ParseU64(fields[0]), ParseBoolValue(fields[6]);
      var country, device, slot :=
        NormalizeCountryKey(fields[1]), NormalizeDeviceTypeKey(fields[2]), NormalizeAdSlotKey(fields[3]);
      var ids := ParseIds(SplitOn(fields[7], PIPE));
      if campaignId.None? || !isDouble(fields[4]) || !isDouble(fields[5]) || active.None? then None
      else if country == 0 || device == UnknownDevice || slot == 0 then None
      else if ids.None? || |ids.value| % U32_LIMIT == 0 then None
      else Some(Row(campaignId.value, country, device, slot, active.value, ids.value))
  }

  // ---- Building the store ----

  function Bucket(index: map<nat, seq<nat>>, key: nat): seq<nat> {
    if key in index then index[key] else []
  }

  function RecordOf(store: Store, row: Row): CampaignRecord {
    CampaignRecord(row.campaignId, row.countryKey, row.deviceTypeKey, row.adSlotKey,
                   |store.creatives| % U32_LIMIT, |row.creativeIds| % U32_LIMIT, row.active)
  }

  /** The store with a row added at the end; indexes and offsets are kept in 32 bits. */
  function AppendRow(store: Store, row: Row): Store {
    var index := |store.campaigns| % U32_LIMIT;
    Store(store.campaigns + [RecordOf(store, row)],
          store.creatives + CreativesOf(row.creativeIds, row.adSlotKey),
          store.byCountry[row.countryKey := Bucket(store.byCountry, row.countryKey) + [index]],
          store.bySlot[row.adSlotKey := Bucket(store.bySlot, row.adSlotKey) + [index]])
  }

  function Build(rows: seq<Row>): Store {
    if rows == [] then EMPTY_STORE else AppendRow(Build(rows[..|rows| - 1]), rows[|rows| - 1])
  }

  // ---- Lines ----

  /** Whether the line with this number (from 1) carries a campaign: not empty, not a comment, not the header. */
  predicate IsDataLine(line: Text, number: nat) {
    line != [] && line[0] != '#' as int && !(number == 1 && Ascii("campaign_id,") <= line)
  }

  /** The lines that are not skipped, among the first n. */
  function DataLines(lines: seq<Text>): seq<Text> {
    if lines == [] then []
    else
      var n := |lines|;
      DataLines(lines[..n - 1]) + (if IsDataLine(lines[n - 1], n) then [lines[n - 1]] else [])
  }

  function RowOfLine(isDouble: DoubleSyntax, line: Text): Option<Row> {
    ParseRow(isDouble, TrimAll(SplitOn(line, COMMA)))
  }

  /** The rows of the lines, if every line has one. */
  function RowsOf(isDouble: DoubleSyntax, lines: seq<Text>): Option<seq<Row>> {
    if lines == [] then Some([])
    else
      var rows, last := RowsOf(isDouble, lines[..|lines| - 1]), RowOfLine(isDouble, lines[|lines| - 1]);
      if rows.None? || last.None? then None else Some(rows.value + [last.value])
  }

  /** Loading, as a function of the lines: nothing if any line that is not skipped is refused. */
  function Loaded(isDouble: DoubleSyntax, lines: seq<Text>): Option<Store> {
    var rows := RowsOf(isDouble, DataLines(lines));
    if rows.None? then None else Some(Build(rows.value))
  }

  // ---- The loader as it runs ----

  class CampaignStoreSnapshot {
    var campaigns: seq<CampaignRecord>
    var creatives: seq<CreativeRecord>
    var campaignsByCountry: map<nat, seq<nat>>
    var campaignsByAdSlot: map<nat, seq<nat>>

    ghost function Model(): Store
      reads this
    {
      Store(campaigns, creatives, campaignsByCountry, campaignsByAdSlot)
    }

    constructor ()
      ensures Model() == EMPTY_STORE
    {
      campaigns, creatives, campaignsByCountry, campaignsByAdSlot := [], [], map[], map[];
    }

    /** Appends one creative. */
    method PushCreative(creativeId: nat, adSlotKey: nat, ghost before: seq<CreativeRecord>, ghost done: seq<nat>)
      requires creatives == before + CreativesOf(done, adSlotKey)
      modifies this`creatives
      ensures creatives == before + CreativesOf(done + [creativeId], adSlotKey) && old(creatives) <= creatives
    {
      creatives := creatives + [CreativeRecord(creativeId, adSlotKey)];
      CreativesAppend(done, creativeId, adSlotKey);
      ConcatAssociative(before, CreativesOf(done, adSlotKey), [CreativeRecord(creativeId, adSlotKey)]);
    }

    /** Appends the creatives of a specification as it reads them; a refusal may come after some were appended. */
    method ParseCreativeSpecs(value: Text, adSlotKey: nat) returns (ok: bool, offset: nat, count: nat)
      modifies this`creatives
      ensures var ids := ParseIds(SplitOn(value, PIPE));
              && (ok <==> ids.Some? && |ids.value| % U32_LIMIT != 0)
              && (ok ==> offset == |old(creatives)| % U32_LIMIT && count == |ids.value| % U32_LIMIT
                         && creatives == old(creatives) + CreativesOf(ids.value, adSlotKey))
      ensures old(creatives) <= creatives
    {
      hide IndexOf, SplitOn, ParseU64, CreativesOf, IdsFrom, Continues;
      offset, count := |creatives| % U32_LIMIT, 0;
      ghost var target := ParseIds(SplitOn(value, PIPE));
      ghost var done: seq<nat> := [];
      var start := 0;
      NothingDone(value);
      NoCreatives(adSlotKey);
      while start < |value|
        invariant start <= |value| + 1
        invariant creatives == old(creatives) + CreativesOf(done, adSlotKey) && count == |done| % U32_LIMIT
        invariant Continues(target, done, IdsFrom(value, start))
      {
        var length := IndexOf(value[start..], PIPE);
        var token := value[start..start + length];
        TokenTaken(target, done, value, start);
        if |token| > 0 {
          var creativeId := ParseU64(token);
          if creativeId.None? {
            return false, offset, count;
          }
          PushCreative(creativeId.value, adSlotKey, old(creatives), done);
          count := (count + 1) % U32_LIMIT;
          done := done + [creativeId.value];
        }
        start := start + length + 1;
      }
      EverythingDone(target, done, value, start);
      return count > 0, offset, count;
    }

    /** A line's fields, accepted as one more row or refused; a refusal leaves the rows and the indexes alone. */
    method AppendCampaignLine(isDouble: DoubleSyntax, fields: seq<Text>) returns (ok: bool)
      modifies this
      ensures ok <==> ParseRow(isDouble, fields).Some?
      ensures ok ==> Model() == AppendRow(old(Model()), ParseRow(isDouble, fields).value)
      ensures !ok ==> unchanged(`campaigns, `campaignsByCountry, `campaignsByAdSlot)
    {
      hide ParseU64, ParseBoolValue, ParseIds, SplitOn;
      if |fields| != 8 {
        return false;
      }
      var campaignId, active := ParseU64(fields[0]), ParseBoolValue(fields[6]);
      if campaignId.None? || !isDouble(fields[4]) || !isDouble(fields[5]) || active.None? {
        return false;
      }
      var countryKey := NormalizeCountryKey(fields[1]);
      var deviceTypeKey := NormalizeDeviceTypeKey(fields[2]);
      var adSlotKey := HashAdSlot(fields[3]);
      if countryKey == 0 || deviceTypeKey == UnknownDevice || adSlotKey == 0 {
        return false;
      }
      var offset, count;
      ok, offset, count := ParseCreativeSpecs(fields[7], adSlotKey);
      if !ok {
        return;
      }
      var campaignIndex := |campaigns| % U32_LIMIT;
      campaigns := campaigns
        + [CampaignRecord(campaignId.value, countryKey, deviceTypeKey, adSlotKey, offset, count, active.value)];
      campaignsByCountry := campaignsByCountry[countryKey := Bucket(campaignsByCountry, countryKey) + [campaignIndex]];
      campaignsByAdSlot := campaignsByAdSlot[adSlotKey := Bucket(campaignsByAdSlot, adSlotKey) + [campaignIndex]];
    }
  }

  /** load_campaign_store_snapshot, for the lines of the file. */
  method LoadCampaignStoreSnapshot(isDouble: DoubleSyntax, lines: seq<Text>) returns (store: Option<Store>)
    ensures store == Loaded(isDouble, lines)
  {
    hide ParseRow, AppendRow, SplitOn, TrimAll;
    var snapshot := new CampaignStoreSnapshot();
    assert lines[..0] == [];
    for i := 0 to |lines|
      invariant fresh(snapshot)
      invariant var rows := RowsOf(isDouble, DataLines(lines[..i]));
                rows.Some? && snapshot.Model() == Build(rows.value)
    {
      var line := lines[i];
      LineAdded(isDouble, lines, i);
      if IsDataLine(line, i + 1) {
        var fields := SplitCsvLine(line);
        var ok := snapshot.AppendCampaignLine(isDouble, fields);
        if !ok {
          RefusalIsFinal(isDouble, lines, i + 1);
          return None;
        }
      }
    }
    assert lines[..|lines|] == lines;
    return Some(Store(snapshot.campaigns, snapshot.creatives, snapshot.campaignsByCountry, snapshot.campaignsByAdSlot));
  }

  /** What one more line does to the rows of the lines before it. */
  lemma LineAdded(isDouble: DoubleSyntax, lines: seq<Text>, i: nat)
    requires i < |lines|
    ensures var before, after := RowsOf(isDouble, DataLines(lines[..i])), RowsOf(isDouble, DataLines(lines[..i + 1]));
            if !IsDataLine(lines[i], i + 1) then after == before
            else
              var row := RowOfLine(isDouble, lines[i]);
              && after == (if before.None? || row.None? then None else Some(before.value + [row.value]))
              && (after.Some? ==> Build(after.value) == AppendRow(Build(before.value), row.value))
  {
    hide RowOfLine, AppendRow, IsDataLine;
    assert lines[..i + 1][..i] == lines[..i];
    var data := DataLines(lines[..i]);
    if IsDataLine(lines[i], i + 1) {
      assert DataLines(lines[..i + 1]) == data + [lines[i]];
      assert (data + [lines[i]])[..|data|] == data;
      var before, row := RowsOf(isDouble, data), RowOfLine(isDouble, lines[i]);
      if before.Some? && row.Some? {
        assert (before.value + [row.value])[..|before.value|] == before.value;
      }
    } else {
      assert DataLines(lines[..i + 1]) == data + [] == data;
    }
  }

  lemma {:induction false} RefusalIsFinal(isDouble: DoubleSyntax, lines: seq<Text>, i: nat)
    requires i <= |lines| && RowsOf(isDouble, DataLines(lines[..i])).None?
    ensures RowsOf(isDouble, DataLines(lines)).None?
    decreases |lines| - i
  {
    if i < |lines| {
      LineAdded(isDouble, lines, i);
      RefusalIsFinal(isDouble, lines, i + 1);
    } else {
      assert lines[..i] == lines;
    }
  }

  /** A result that starts with what is done and goes on with the rest. */
  predicate Continues(target: Option<seq<nat>>, done: seq<nat>, rest: Option<seq<nat>>) {
    target == if rest.None? then None else Some(done + rest.value)
  }

  /** The ids from a position on; past the end there are none. */
  function IdsFrom(value: Text, start: nat): Option<seq<nat>> {
    if start > |value| then Some([]) else ParseIds(SplitOn(value[start..], PIPE))
  }

  lemma IdsNext(value: Text, start: nat)
    requires start < |value|
    ensures var length := IndexOf(value[start..], PIPE);
            var token := value[start..start + length];
            var rest := IdsFrom(value, start + length + 1);
            IdsFrom(value, start) ==
              if token == [] then rest
              else if ParseU64(token).None? || rest.None? then None
              else Some([ParseU64(token).value] + rest.value)
  {
    hide IndexOf, ParseU64;
    var length := IndexOf(value[start..], PIPE);
    var token := value[start..start + length];
    assert value[start..][..length] == token;
    if start + length < |value| {
      assert value[start..][length + 1..] == value[start + length + 1..];
      var rest := SplitOn(value[start + length + 1..], PIPE);
      assert ([token] + rest)[1..] == rest;
    } else {
      var only: seq<Text> := [token];
      assert value[start..] == token;
      assert SplitOn(value[start..], PIPE) == only && only[1..] == [];
      assert ParseIds(only[1..]) == Some([]);
    }
  }

  lemma NothingDone(value: Text)
    ensures Continues(ParseIds(SplitOn(value, PIPE)), [], IdsFrom(value, 0))
  {
    assert value[0..] == value;
    var target := ParseIds(SplitOn(value, PIPE));
    assert target.Some? ==> [] + target.value == target.value;
  }

  /** Reading one token: it is skipped, it is refused, or its id is done. */
  lemma TokenTaken(target: Option<seq<nat>>, done: seq<nat>, value: Text, start: nat)
    requires start < |value| && Continues(target, done, IdsFrom(value, start))
    ensures var length := IndexOf(value[start..], PIPE);
            var token := value[start..start + length];
            var rest := IdsFrom(value, start + length + 1);
            if token == [] then Continues(target, done, rest)
            else match ParseU64(token)
              case None => target.None?
              case Some(id) => Continues(target, done + [id], rest)
  {
    hide IndexOf, SplitOn, ParseU64, IdsFrom;
    IdsNext(value, start);
    var length := IndexOf(value[start..], PIPE);
    var id := ParseU64(value[start..start + length]);
    var rest := IdsFrom(value, start + length + 1);
    if id.Some? && rest.Some? {
      ConcatAssociative(done, [id.value], rest.value);
    }
  }

  lemma EverythingDone(target: Option<seq<nat>>, done: seq<nat>, value: Text, start: nat)
    requires |value| <= start <= |value| + 1 && Continues(target, done, IdsFrom(value, start))
    ensures target == Some(done)
  {
    NothingToParse();
    assert start == |value| ==> value[start..] == [];
    assert done + [] == done;
  }

  lemma NoCreatives(adSlotKey: nat)
    ensures CreativesOf([], adSlotKey) == []
  {}

  lemma NothingToParse()
    ensures ParseIds(SplitOn([], PIPE)) == Some([])
  {
    var only: seq<Text> := [[]];
    assert SplitOn([], PIPE) == only && only[1..] == [];
  }

  lemma CreativesAppend(ids: seq<nat>, id: nat, adSlotKey: nat)
    ensures CreativesOf(ids + [id], adSlotKey) == CreativesOf(ids, adSlotKey) + [CreativeRecord(id, adSlotKey)]
  {}
}
