/** What the text of the campaign file means, byte for byte: lines, fields, flags, line ends and comments. */
module CampaignFiles {
  import opened Bytes
  import opened EngineTypes
  import opened Normalize
  import opened CsvText
  import opened CampaignStores
  import opened StoreInvariants

  // ---- A line and its row ----

  predicate SaysActive(flag: Text) {
    flag == [49] || flag == [116, 114, 117, 101] || flag == [84, 82, 85, 69]   // 1, true, TRUE
  }

  predicate SaysInactive(flag: Text) {
    flag == [48] || flag == [102, 97, 108, 115, 101] || flag == [70, 65, 76, 83, 69]   // 0, false, FALSE
  }

  lemma FlagsParsed(flag: Text)
    ensures ParseBoolValue(flag)
         == if SaysActive(flag) then Some(true) else if SaysInactive(flag) then Some(false) else None
  {
    FlagTexts();
    assert SaysActive(flag) ==> !SaysInactive(flag);
  }

  lemma FlagTexts()
    ensures Ascii("1") == [49] && Ascii("true") == [116, 114, 117, 101] && Ascii("TRUE") == [84, 82, 85, 69]
    ensures Ascii("0") == [48] && Ascii("false") == [102, 97, 108, 115, 101] && Ascii("FALSE") == [70, 65, 76, 83, 69]
  {}

  function NonEmpty(tokens: seq<Text>): seq<Text> {
    if tokens == [] then [] else (if tokens[0] == [] then [] else [tokens[0]]) + NonEmpty(tokens[1..])
  }

  /** The ids of some tokens are those of the non-empty ones, in order, if each of these is an id. */
  lemma {:induction false} IdsOfTokens(tokens: seq<Text>)
    ensures ParseIds(tokens).Some? <==> forall t :: t in NonEmpty(tokens) ==> ParseU64(t).Some?
    ensures ParseIds(tokens).Some? ==>
              |ParseIds(tokens).value| == |NonEmpty(tokens)|
              && forall i :: 0 <= i < |NonEmpty(tokens)| ==>
                   ParseU64(NonEmpty(tokens)[i]) == Some(ParseIds(tokens).value[i])
  {
    hide ParseU64;
    if tokens != [] {
      IdsOfTokens(tokens[1..]);
      if tokens[0] != [] {
        assert NonEmpty(tokens)[0] == tokens[0] && NonEmpty(tokens)[1..] == NonEmpty(tokens[1..]);
      }
    }
  }

  /**
   * Which lines are accepted, and what their rows are, by field: eight comma-separated fields, trimmed, of which the
   * first is the id, then country, device and slot with non-null keys, two doubles, one of six flags, and at least
   * one id between bars.
   */
  lemma LineAccepted(isDouble: DoubleSyntax, line: Text)
    ensures var fields := TrimAll(SplitOn(line, 44));
            var row := RowOfLine(isDouble, line);
            && (row.Some? <==>
                  && |fields| == 8
                  && ParseU64(fields[0]).Some?
                  && NormalizeCountryKey(fields[1]) != 0 && NormalizeDeviceTypeKey(fields[2]) != UnknownDevice
                  && NormalizeAdSlotKey(fields[3]) != 0
                  && isDouble(fields[4]) && isDouble(fields[5])
                  && (SaysActive(fields[6]) || SaysInactive(fields[6]))
                  && (forall t :: t in NonEmpty(SplitOn(fields[7], 124)) ==> ParseU64(t).Some?)
                  && |NonEmpty(SplitOn(fields[7], 124))| % 0x1_0000_0000 != 0)
            && (row.Some? ==>
                  && ParseU64(fields[0]) == Some(row.value.campaignId)
                  && row.value.countryKey == NormalizeCountryKey(fields[1])
                  && row.value.deviceTypeKey == NormalizeDeviceTypeKey(fields[2])
                  && row.value.adSlotKey == NormalizeAdSlotKey(fields[3])
                  && row.value.active == SaysActive(fields[6])
                  && Some(row.value.creativeIds) == ParseIds(SplitOn(fields[7], 124)))
  {
    hide SplitOn, TrimAll, ParseU64, NormalizeCountryKey, NormalizeDeviceTypeKey, NormalizeAdSlotKey, ParseBoolValue,
      SaysActive, SaysInactive, ParseIds, NonEmpty;
    var fields := TrimAll(SplitOn(line, 44));
    if |fields| == 8 {
      FlagsParsed(fields[6]);
      IdsOfTokens(SplitOn(fields[7], 124));
    }
  }

  // ---- Round trip ----

  /** A text that can stand as a field: no comma in it, no padding around it. */
  predicate IsField(t: Text) {
    44 !in t && IsTrimmed(t)
  }

  function Printed(ids: seq<nat>): (texts: seq<Text>)
    ensures |texts| == |ids|
  {
    seq(|ids|, i requires 0 <= i < |ids| => ToDecimal(ids[i]))
  }

  /** The line of a campaign: eight fields between commas, the last one its creative ids between bars. */
  function CampaignLine(id: nat, country: Text, device: Text, slot: Text, valuePerAction: Text, aggressiveness: Text,
                        flag: Text, creativeIds: seq<nat>): Text
    requires creativeIds != []
  {
    JoinWith([ToDecimal(id), country, device, slot, valuePerAction, aggressiveness, flag,
              JoinWith(Printed(creativeIds), 124)], 44)
  }

  /** Digits and bars only. */
  predicate IsIdList(t: Text) {
    t != [] && forall i :: 0 <= i < |t| ==> 48 <= t[i] <= 57 || t[i] == 124
  }

  lemma {:induction false} PrintedIdList(ids: seq<nat>)
    requires ids != []
    ensures IsIdList(JoinWith(Printed(ids), 124))
  {
    hide ToDecimal;
    DecimalOfNumber(ids[0]);
    assert forall i :: 0 <= i < |ToDecimal(ids[0])| ==> IsDigit(ToDecimal(ids[0])[i]);
    if |ids| > 1 {
      PrintedIdList(ids[1..]);
      assert Printed(ids)[1..] == Printed(ids[1..]);
    }
  }

  lemma FieldTrimmed(t: Text)
    requires IsField(t)
    ensures Trim(t) == t
  {
    TrimRemovesBlanks([], t, []);
    assert [] + t + [] == t;
  }

  lemma IdListIsField(t: Text)
    requires IsIdList(t)
    ensures IsField(t)
  {}

  lemma PrintedIsField(n: nat)
    ensures IsField(ToDecimal(n))
  {
    DecimalOfNumber(n);
    var t := ToDecimal(n);
    assert IsDigit(t[0]) && IsDigit(t[|t| - 1]);
  }

  /** Printed ids between bars are read back, all of them in order. */
  lemma {:induction false} PrintedIdsParse(ids: seq<nat>)
    requires forall i :: 0 <= i < |ids| ==> ids[i] < U64_LIMIT
    ensures ParseIds(Printed(ids)) == Some(ids)
  {
    hide ToDecimal, ParseU64;
    if ids != [] {
      PrintedNumberParses(ids[0]);
      DecimalOfNumber(ids[0]);
      PrintedIdsParse(ids[1..]);
      assert Printed(ids)[1..] == Printed(ids[1..]) && [ids[0]] + ids[1..] == ids;
    }
  }

  lemma IdListParses(ids: seq<nat>)
    requires ids != [] && forall i :: 0 <= i < |ids| ==> ids[i] < U64_LIMIT
    ensures ParseIds(SplitOn(JoinWith(Printed(ids), 124), 124)) == Some(ids)
  {
    hide ToDecimal, SplitOn, JoinWith;
    forall t | t in Printed(ids)
      ensures 124 !in t
    {
      var i :| 0 <= i < |ids| && t == ToDecimal(ids[i]);
      DecimalOfNumber(ids[i]);
    }
    SplitOfJoin(Printed(ids), 124);
    PrintedIdsParse(ids);
  }

  /** The fields of such a line are read back as they are. */
  lemma FieldsReadBack(fields: seq<Text>)
    requires fields != [] && forall f :: f in fields ==> IsField(f)
    ensures TrimAll(SplitOn(JoinWith(fields, 44), 44)) == fields
  {
    hide SplitOn, JoinWith, Trim, IsTrimmed;
    SplitOfJoin(fields, 44);
    forall i | 0 <= i < |fields|
      ensures Trim(fields[i]) == fields[i]
    {
      FieldTrimmed(fields[i]);
    }
  }

  /**
   * Round trip: the line written for a campaign is loaded as exactly that campaign: each column feeds its own field,
   * the flag says whether it is active, and the creative ids come in their order.
   */
  lemma LineRoundTrip(isDouble: DoubleSyntax, id: nat, country: Text, device: Text, slot: Text, valuePerAction: Text,
                      aggressiveness: Text, flag: Text, creativeIds: seq<nat>)
    requires id < U64_LIMIT && 0 < |creativeIds| < U32_LIMIT
    requires forall i :: 0 <= i < |creativeIds| ==> creativeIds[i] < U64_LIMIT
    requires IsField(country) && IsField(device) && IsField(slot) && IsField(valuePerAction) && IsField(aggressiveness)
    requires NormalizeCountryKey(country) != 0 && NormalizeDeviceTypeKey(device) != UnknownDevice
    requires NormalizeAdSlotKey(slot) != 0 && isDouble(valuePerAction) && isDouble(aggressiveness)
    requires SaysActive(flag) || SaysInactive(flag)
    ensures RowOfLine(isDouble,
                      CampaignLine(id, country, device, slot, valuePerAction, aggressiveness, flag, creativeIds))
         == Some(Row(id, NormalizeCountryKey(country), NormalizeDeviceTypeKey(device), NormalizeAdSlotKey(slot),
                     SaysActive(flag), creativeIds))
  {
    hide ToDecimal, SplitOn, JoinWith, TrimAll, IsField, IsIdList, NormalizeCountryKey, NormalizeDeviceTypeKey,
      NormalizeAdSlotKey, ParseU64, ParseIds, ParseBoolValue;
    PrintedIsField(id);
    FlagIsField(flag);
    PrintedIdList(creativeIds);
    IdListIsField(JoinWith(Printed(creativeIds), 124));
    var fields := [ToDecimal(id), country, device, slot, valuePerAction, aggressiveness, flag,
                   JoinWith(Printed(creativeIds), 124)];
    FieldsReadBack(fields);
    PrintedNumberParses(id);
    FlagsParsed(flag);
    IdListParses(creativeIds);
  }

  lemma FlagIsField(flag: Text)
    requires SaysActive(flag) || SaysInactive(flag)
    ensures IsField(flag)
  {}

  // ---- Line ends ----

  lemma {:induction false} TrimStartBeforeReturn(t: Text)
    ensures TrimStart(t + [13]) == if TrimStart(t) == [] then [] else TrimStart(t) + [13]
  {
    if t == [] {
      assert t + [13] == [13] && [13][1..] == [];
    } else {
      assert (t + [13])[0] == t[0] && (t + [13])[1..] == t[1..] + [13];
      if IsBlank(t[0]) {
        TrimStartBeforeReturn(t[1..]);
      }
    }
  }

  lemma TrimIgnoresReturn(t: Text)
    ensures Trim(t + [13]) == Trim(t)
  {
    TrimStartBeforeReturn(t);
    var rest := TrimStart(t);
    assert (rest + [13])[..|rest + [13]| - 1] == rest;
  }

  /** A carriage return at the end of a line ends up in its last field. */
  lemma {:induction false} SplitBeforeReturn(line: Text)
    ensures var fields := SplitOn(line, 44);
            var last := |fields| - 1;
            SplitOn(line + [13], 44) == fields[..last] + [fields[last] + [13]]
    decreases |line|
  {
    hide IndexOf;
    var i := IndexOf(line, 44);
    IndexBeforeReturn(line);
    var t := line + [13];
    if i < |line| {
      var rest := line[i + 1..];
      assert t[..i] == line[..i] && t[i + 1..] == rest + [13];
      SplitBeforeReturn(rest);
      var fields, others := SplitOn(line, 44), SplitOn(rest, 44);
      assert fields == [line[..i]] + others;
      assert fields[..|fields| - 1] == [line[..i]] + others[..|others| - 1];
    } else {
      assert SplitOn(line, 44)[..0] == [];
    }
  }

  lemma {:induction false} IndexBeforeReturn(line: Text)
    ensures IndexOf(line + [13], 44) == if IndexOf(line, 44) == |line| then |line| + 1 else IndexOf(line, 44)
  {
    if line == [] {
      assert [] + [13] == [13] && [13][1..] == [];
    } else if line[0] != 44 {
      assert (line + [13])[0] == line[0] && (line + [13])[1..] == line[1..] + [13];
      IndexBeforeReturn(line[1..]);
    }
  }

  lemma RowIgnoresReturn(isDouble: DoubleSyntax, line: Text)
    ensures RowOfLine(isDouble, line + [13]) == RowOfLine(isDouble, line)
  {
    hide SplitOn, Trim, ParseRow;
    SplitBeforeReturn(line);
    var fields := SplitOn(line, 44);
    TrimIgnoresReturn(fields[|fields| - 1]);
    assert TrimAll(SplitOn(line + [13], 44)) == TrimAll(fields);
  }

  /** The same lines with carriage returns at their ends. */
  function WithReturns(lines: seq<Text>): (others: seq<Text>)
    ensures |others| == |lines|
  {
    seq(|lines|, i requires 0 <= i < |lines| => lines[i] + [13])
  }

  predicate IsHeader(line: Text) {
    Ascii("campaign_id,") <= line
  }

  lemma HeaderIgnoresReturn(line: Text)
    ensures IsHeader(line + [13]) <==> IsHeader(line)
  {
    var header := Ascii("campaign_id,");
    assert |header| == 12 && header[11] == 44;
    assert forall i :: 0 <= i < 12 ==> header[i] != 13;
  }

  lemma {:induction false} DataWithReturns(lines: seq<Text>)
    requires [] !in lines
    ensures DataLines(WithReturns(lines)) == WithReturns(DataLines(lines))
  {
    if lines != [] {
      var n := |lines| - 1;
      assert WithReturns(lines)[..n] == WithReturns(lines[..n]);
      DataWithReturns(lines[..n]);
      HeaderIgnoresReturn(lines[n]);
      assert (lines[n] + [13])[0] == lines[n][0];
      var data := DataLines(lines[..n]);
      assert WithReturns(data + [lines[n]]) == WithReturns(data) + [lines[n] + [13]];
      assert data + [] == data && WithReturns(data) + [] == WithReturns(data);
    }
  }

  lemma {:induction false} RowsIgnoreReturns(isDouble: DoubleSyntax, lines: seq<Text>)
    ensures RowsOf(isDouble, WithReturns(lines)) == RowsOf(isDouble, lines)
  {
    hide RowOfLine;
    if lines != [] {
      var n := |lines| - 1;
      assert WithReturns(lines)[..n] == WithReturns(lines[..n]);
      RowsIgnoreReturns(isDouble, lines[..n]);
      RowIgnoresReturn(isDouble, lines[n]);
    }
  }

  lemma {:induction false} DataLineIn(lines: seq<Text>, i: nat)
    requires i < |lines| && IsDataLine(lines[i], i + 1)
    ensures lines[i] in DataLines(lines)
  {
    hide IsDataLine;
    var n := |lines| - 1;
    if i < n {
      DataLineIn(lines[..n], i);
    }
  }

  lemma LoneReturnRefused(isDouble: DoubleSyntax)
    ensures RowOfLine(isDouble, [13]).None?
  {
    assert [13][..1] == [13];
    var only: seq<Text> := [[13]];
    assert SplitOn([13], 44) == only;
  }

  /**
   * Line ends: a file with CRLF line ends loads like the one with LF, unless a line is empty. An empty line is
   * skipped, but with a carriage return in it it is a line of one field, and the file is refused.
   */
  lemma CrlfFile(isDouble: DoubleSyntax, lines: seq<Text>)
    ensures Loaded(isDouble, WithReturns(lines)) == if [] in lines then None else Loaded(isDouble, lines)
  {
    hide RowOfLine, DataLines, Build, RowsOf;
    if i :| 0 <= i < |lines| && lines[i] == [] {
      assert WithReturns(lines)[i] == [13];
      HeaderIgnoresReturn([]);
      assert [] + [13] == [13];
      DataLineIn(WithReturns(lines), i);
      LoneReturnRefused(isDouble);
      RefusedLine(isDouble, WithReturns(lines), [13]);
    } else {
      DataWithReturns(lines);
      RowsIgnoreReturns(isDouble, DataLines(lines));
    }
  }

  /** One line that is not skipped and not acceptable refuses the file. */
  lemma RefusedLine(isDouble: DoubleSyntax, lines: seq<Text>, line: Text)
    requires line in DataLines(lines) && RowOfLine(isDouble, line).None?
    ensures Loaded(isDouble, lines).None?
  {
    hide RowOfLine;
    RowsOfLines(isDouble, DataLines(lines));
  }

  // ---- Lines that say nothing ----

  /** An empty line, a comment, or a header on the first line. */
  predicate SaysNothing(before: seq<Text>, line: Text) {
    line == [] || line[0] == 35 || (before == [] && IsHeader(line))
  }

  lemma DataAppend(lines: seq<Text>, line: Text)
    ensures DataLines(lines + [line]) == DataLines(lines) + (if IsDataLine(line, |lines| + 1) then [line] else [])
  {
    hide IsDataLine;
    assert (lines + [line])[..|lines|] == lines;
  }

  /** The number of a line matters only for a header. */
  lemma DataAnywhere(line: Text, number: nat, other: nat)
    requires (number == 1) == (other == 1) || !IsHeader(line)
    ensures IsDataLine(line, number) == IsDataLine(line, other)
  {}

  lemma {:induction false} DataWithout(before: seq<Text>, line: Text, after: seq<Text>)
    requires SaysNothing(before, line) && (before == [] && after != [] ==> !IsHeader(after[0]))
    ensures DataLines(before + [line] + after) == DataLines(before + after)
    decreases |after|
  {
    if after == [] {
      DataAppend(before, line);
      NothingIsNoData(before, line);
      assert before + [line] + after == before + [line] && before + after == before;
    } else {
      hide IsDataLine, DataLines, SaysNothing, IsHeader;
      var n := |after| - 1;
      assert before + [line] + after == (before + [line] + after[..n]) + [after[n]];
      assert before + after == (before + after[..n]) + [after[n]];
      DataAppend(before + [line] + after[..n], after[n]);
      DataAppend(before + after[..n], after[n]);
      DataWithout(before, line, after[..n]);
      DataAnywhere(after[n], |before| + n + 2, |before| + n + 1);
    }
  }

  lemma NothingIsNoData(before: seq<Text>, line: Text)
    requires SaysNothing(before, line)
    ensures !IsDataLine(line, |before| + 1)
  {}

  lemma HeaderRefused(isDouble: DoubleSyntax, line: Text)
    requires IsHeader(line)
    ensures RowOfLine(isDouble, line).None?
  {
    hide DecimalValue;
    var name := Ascii("campaign_id");
    var rest := line[11..];
    assert line[..12] == Ascii("campaign_id,") && rest[0] == 44;
    assert line == name + rest;
    assert forall i :: 0 <= i < 11 ==> name[i] != 44;
    IndexInConcat(name, 44, rest);
    assert line[..11] == name;
    assert name[0] == 99 && name[10] == 100;
    FieldTrimmed(name);
    assert !IsDecimal(name) by {
      assert !IsDigit(name[0]);
    }
    assert TrimAll(SplitOn(line, 44))[0] == name;
  }

  /**
   * Lines that say nothing: taking an empty line, a comment or the header out of a file changes nothing about what it
   * loads. The one exception is a line put above the header, which is then no longer on the first line: the header
   * is read as a campaign and the file is refused.
   */
  lemma LineSaysNothing(isDouble: DoubleSyntax, before: seq<Text>, line: Text, after: seq<Text>)
    requires SaysNothing(before, line)
    ensures Loaded(isDouble, before + [line] + after)
         == if before == [] && after != [] && IsHeader(after[0]) then None else Loaded(isDouble, before + after)
  {
    hide RowOfLine, DataLines, Build, RowsOf;
    if before == [] && after != [] && IsHeader(after[0]) {
      var all := before + [line] + after;
      assert all[1] == after[0];
      HeaderIsData(after[0]);
      DataLineIn(all, 1);
      HeaderRefused(isDouble, after[0]);
      RefusedLine(isDouble, all, after[0]);
    } else {
      DataWithout(before, line, after);
    }
  }

  lemma HeaderIsData(line: Text)
    requires IsHeader(line)
    ensures IsDataLine(line, 2)
  {
    assert Ascii("campaign_id,")[0] == 99;
  }
}
