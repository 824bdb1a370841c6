/** The text handling of the campaign file: trimming, splitting, and unsigned decimals. */
module CsvText {
  import opened Bytes

  const COMMA: byte := ',' as int
  const PIPE: byte := '|' as int

  // ---- Trimming ----

  predicate IsBlank(c: byte) {
    c == ' ' as int || c == '\t' as int || c == '\r' as int
  }

  function TrimStart(t: Text): Text {
    if t != [] && IsBlank(t[0]) then TrimStart(t[1..]) else t
  }

  function TrimEnd(t: Text): Text {
    if t != [] && IsBlank(t[|t| - 1]) then TrimEnd(t[..|t| - 1]) else t
  }

  function Trim(t: Text): Text {
    TrimEnd(TrimStart(t))
  }

  /** A space, a tab or a carriage return, as a byte. */
  predicate IsPadding(c: byte) {
    c == 32 || c == 9 || c == 13
  }

  predicate AllBlank(t: Text) {
    forall i :: 0 <= i < |t| ==> IsPadding(t[i])
  }

  /** No padding at either end. */
  predicate IsTrimmed(t: Text) {
    t != [] ==> !IsPadding(t[0]) && !IsPadding(t[|t| - 1])
  }

  lemma WithoutLast(value: Text, start: nat, end: nat)
    requires start < end <= |value|
    ensures value[start..end][..end - start - 1] == value[start..end - 1]
    ensures value[start..end][end - start - 1] == value[end - 1]
  {}

  method TrimCopy(value: Text) returns (r: Text)
    ensures r == Trim(value)
  {
    hide IsBlank;
    var start := 0;
    while start < |value| && IsBlank(value[start])
      invariant start <= |value| && TrimStart(value[start..]) == TrimStart(value)
    {
      assert value[start..][1..] == value[start + 1..];
      start := start + 1;
    }
    var end := |value|;
    assert value[start..end] == value[start..];
    while end > start && IsBlank(value[end - 1])
      invariant start <= end <= |value| && TrimEnd(value[start..end]) == TrimEnd(value[start..])
    {
      WithoutLast(value, start, end);
      end := end - 1;
    }
    return value[start..end];
  }

  lemma {:induction false} TrimStartBlanks(lead: Text, core: Text)
    requires AllBlank(lead) && (core != [] ==> !IsBlank(core[0]))
    ensures TrimStart(lead + core) == core
  {
    if lead == [] {
      assert lead + core == core;
    } else {
      assert (lead + core)[1..] == lead[1..] + core;
      TrimStartBlanks(lead[1..], core);
    }
  }

  lemma {:induction false} TrimEndBlanks(core: Text, trail: Text)
    requires AllBlank(trail) && (core != [] ==> !IsBlank(core[|core| - 1]))
    ensures TrimEnd(core + trail) == core
  {
    if trail == [] {
      assert core + trail == core;
    } else {
      assert (core + trail)[..|core + trail| - 1] == core + trail[..|trail| - 1];
      TrimEndBlanks(core, trail[..|trail| - 1]);
    }
  }

  /** Trimming removes exactly the blanks around a text, and an all-blank text entirely. */
  lemma TrimRemovesBlanks(lead: Text, core: Text, trail: Text)
    requires AllBlank(lead) && AllBlank(trail) && IsTrimmed(core)
    ensures Trim(lead + core + trail) == core
  {
    if core == [] {
      assert lead + core + trail == (lead + trail) + [];
      TrimStartBlanks(lead + trail, []);
    } else {
      assert lead + core + trail == lead + (core + trail);
      TrimStartBlanks(lead, core + trail);
      TrimEndBlanks(core, trail);
    }
  }

  // ---- Splitting ----

  /** Where a delimiter first occurs, or the length if it does not: `find`. */
  function IndexOf(t: Text, d: byte): (i: nat)
    ensures i <= |t| && d !in t[..i] && (i < |t| ==> t[i] == d)
  {
    if t == [] || t[0] == d then 0
    else
      var i := 1 + IndexOf(t[1..], d);
      assert t[..i] == [t[0]] + t[1..][..i - 1];
      i
  }

  function SplitOn(t: Text, d: byte): (fields: seq<Text>)
    ensures fields != []
    decreases |t|
  {
    var i := IndexOf(t, d);
    if i == |t| then [t] else [t[..i]] + SplitOn(t[i + 1..], d)
  }

  function JoinWith(fields: seq<Text>, d: byte): Text
    requires fields != []
  {
    if |fields| == 1 then fields[0] else fields[0] + [d] + JoinWith(fields[1..], d)
  }

  function Occurrences(t: Text, d: byte): nat {
    if t == [] then 0 else (if t[0] == d then 1 else 0) + Occurrences(t[1..], d)
  }

  lemma {:induction false} IndexInConcat(a: Text, d: byte, b: Text)
    requires d !in a && (b != [] ==> b[0] == d)
    ensures IndexOf(a + b, d) == |a|
  {
    if a == [] {
      assert a + b == b;
    } else {
      assert (a + b)[0] == a[0] && (a + b)[1..] == a[1..] + b;
      IndexInConcat(a[1..], d, b);
    }
  }

  /** Splitting what was joined gives the fields back, when none of them holds the delimiter. */
  lemma {:induction false} SplitOfJoin(fields: seq<Text>, d: byte)
    requires fields != [] && forall f :: f in fields ==> d !in f
    ensures SplitOn(JoinWith(fields, d), d) == fields
    decreases |fields|
  {
    var f := fields[0];
    if |fields| == 1 {
      IndexInConcat(f, d, []);
      assert f + [] == f;
    } else {
      var rest := JoinWith(fields[1..], d);
      var t := JoinWith(fields, d);
      assert t == f + ([d] + rest);
      IndexInConcat(f, d, [d] + rest);
      assert t[..|f|] == f && t[|f| + 1..] == rest;
      SplitOfJoin(fields[1..], d);
    }
  }

  /** Joining what was split gives the text back. */
  lemma {:induction false} JoinOfSplit(t: Text, d: byte)
    ensures JoinWith(SplitOn(t, d), d) == t
    decreases |t|
  {
    hide IndexOf;
    var i := IndexOf(t, d);
    if i < |t| {
      JoinOfSplit(t[i + 1..], d);
      JoinFirst(t[..i], SplitOn(t[i + 1..], d), d);
      assert t == t[..i] + [d] + t[i + 1..];
    }
  }

  /** There is always one field more than there are delimiters. */
  lemma {:induction false} SplitCount(t: Text, d: byte)
    ensures |SplitOn(t, d)| == Occurrences(t, d) + 1
    decreases |t|
  {
    hide IndexOf;
    var i := IndexOf(t, d);
    NoneBefore(t, d);
    if i < |t| {
      SplitCount(t[i + 1..], d);
    }
  }

  lemma JoinFirst(first: Text, others: seq<Text>, d: byte)
    requires others != []
    ensures JoinWith([first] + others, d) == first + [d] + JoinWith(others, d)
  {
    assert ([first] + others)[1..] == others;
  }

  lemma {:induction false} NoneBefore(t: Text, d: byte)
    ensures var i := IndexOf(t, d);
            Occurrences(t, d) == if i == |t| then 0 else 1 + Occurrences(t[i + 1..], d)
  {
    if t != [] && t[0] != d {
      NoneBefore(t[1..], d);
      var i := IndexOf(t, d);
      if i < |t| {
        assert t[1..][i..] == t[i + 1..];
      }
    }
  }

  function TrimAll(fields: seq<Text>): (trimmed: seq<Text>)
    ensures |trimmed| == |fields|
  {
    seq(|fields|, i requires 0 <= i < |fields| => Trim(fields[i]))
  }

  lemma SplitNext(line: Text, start: nat)
    requires start <= |line| && start + IndexOf(line[start..], COMMA) < |line|
    ensures var next := start + IndexOf(line[start..], COMMA);
            var others := TrimAll(SplitOn(line[next + 1..], COMMA));
            TrimAll(SplitOn(line[start..], COMMA)) == [Trim(line[start..next])] + others
  {
    hide Trim;
    var length := IndexOf(line[start..], COMMA);
    assert line[start..][..length] == line[start..start + length];
    assert line[start..][length + 1..] == line[start + length + 1..];
  }

  lemma SplitLast(line: Text, start: nat)
    requires start <= |line| && start + IndexOf(line[start..], COMMA) == |line|
    ensures TrimAll(SplitOn(line[start..], COMMA)) == [Trim(line[start..])]
  {
    hide Trim;
  }

  /** The comma-separated fields of a line, each trimmed. */
  method SplitCsvLine(line: Text) returns (fields: seq<Text>)
    ensures fields == TrimAll(SplitOn(line, COMMA))
  {
    hide SplitOn, TrimAll, Trim, IndexOf;
    fields := [];
    var start := 0;
    assert line[0..] == line;
    while start <= |line|
      invariant start <= |line|
      invariant fields + TrimAll(SplitOn(line[start..], COMMA)) == TrimAll(SplitOn(line, COMMA))
      decreases |line| - start
    {
      var length := IndexOf(line[start..], COMMA);
      if start + length == |line| {
        var field := TrimCopy(line[start..]);
        SplitLast(line, start);
        return fields + [field];
      }
      var field := TrimCopy(line[start..start + length]);
      SplitNext(line, start);
      ConcatAssociative(fields, [field], TrimAll(SplitOn(line[start + length + 1..], COMMA)));
      fields := fields + [field];
      start := start + length + 1;
    }
  }

  /** Round trip: a line made of comma-free fields splits into those fields, trimmed. */
  lemma CsvRoundTrip(fields: seq<Text>)
    requires fields != [] && forall f :: f in fields ==> COMMA !in f
    ensures TrimAll(SplitOn(JoinWith(fields, COMMA), COMMA)) == TrimAll(fields)
  {
    SplitOfJoin(fields, COMMA);
  }

  // ---- Unsigned decimals ----

  predicate IsDigit(c: byte) {
    '0' as int <= c <= '9' as int
  }

  predicate IsDecimal(t: Text) {
    t != [] && forall i :: 0 <= i < |t| ==> IsDigit(t[i])
  }

  function DecimalValue(t: Text): nat
    requires forall i :: 0 <= i < |t| ==> IsDigit(t[i])
  {
    if t == [] then 0
    else
      var last := t[|t| - 1];
      assert IsDigit(last);
      10 * DecimalValue(t[..|t| - 1]) + (last as int - '0' as int)
  }

  /** `from_chars` on the whole text: digits only, at least one, and a value that fits into 64 bits. */
  function ParseU64(t: Text): Option<nat> {
    if IsDecimal(t) && DecimalValue(t) < U64_LIMIT then Some(DecimalValue(t)) else None
  }

  /** `to_string` of an unsigned number. */
  function ToDecimal(n: nat): Text {
    var digit: byte := '0' as int + n % 10;
    if n < 10 then [digit] else ToDecimal(n / 10) + [digit]
  }

  lemma {:induction false} DecimalOfNumber(n: nat)
    ensures IsDecimal(ToDecimal(n)) && DecimalValue(ToDecimal(n)) == n
  {
    if n >= 10 {
      DecimalOfNumber(n / 10);
      assert ToDecimal(n)[..|ToDecimal(n)| - 1] == ToDecimal(n / 10);
    } else {
      assert ToDecimal(n)[..0] == [];
    }
  }

  /** Round trip: a printed 64-bit number parses back to itself; a larger one is refused. */
  lemma PrintedNumberParses(n: nat)
    ensures ParseU64(ToDecimal(n)) == if n < U64_LIMIT then Some(n) else None
  {
    DecimalOfNumber(n);
  }

  /** Some zeros. */
  function Zeros(count: nat): Text {
    seq(count, _ => 48)
  }

  /** A printed number starts with a zero only if it is "0". */
  lemma {:induction false} NoLeadingZero(n: nat)
    ensures ToDecimal(n) != [] && (ToDecimal(n)[0] == 48 ==> ToDecimal(n) == [48])
  {
    if n >= 10 {
      NoLeadingZero(n / 10);
      assert ToDecimal(n)[0] == ToDecimal(n / 10)[0];
      DecimalOfNumber(n / 10);
    }
  }

  lemma {:induction false} ValueBehindZeros(count: nat, t: Text)
    requires forall i :: 0 <= i < |t| ==> IsDigit(t[i])
    ensures forall i :: 0 <= i < |Zeros(count) + t| ==> IsDigit((Zeros(count) + t)[i])
    ensures DecimalValue(Zeros(count) + t) == DecimalValue(t)
    decreases |t|, count
  {
    var z := Zeros(count);
    if t != [] {
      var init := t[..|t| - 1];
      assert (z + t)[..|z + t| - 1] == z + init;
      ValueBehindZeros(count, init);
    } else if count > 0 {
      assert z + t == z && z[..count - 1] == Zeros(count - 1) + [];
      ValueBehindZeros(count - 1, []);
    } else {
      assert z + t == t;
    }
  }

  lemma {:induction false} DigitsArePrinted(t: Text) returns (count: nat)
    requires IsDecimal(t)
    ensures t == Zeros(count) + ToDecimal(DecimalValue(t))
  {
    var n, init, last := DecimalValue(t), t[..|t| - 1], t[|t| - 1];
    if |t| == 1 {
      assert init == [] && IsDigit(t[0]) && DecimalValue(init) == 0;
      assert Zeros(0) + ToDecimal(n) == ToDecimal(n);
      return 0;
    }
    count := DigitsArePrinted(init);
    var m := DecimalValue(init);
    assert IsDigit(last) && n == 10 * m + (last as int - 48);
    if m == 0 {
      assert init == Zeros(count) + [48] == Zeros(count + 1);
      assert t == init + [last] && ToDecimal(n) == [last];
      count := count + 1;
    } else {
      assert n / 10 == m && n % 10 == last as int - 48;
      assert ToDecimal(n) == ToDecimal(m) + [last];
      assert t == (Zeros(count) + ToDecimal(m)) + [last] == Zeros(count) + (ToDecimal(m) + [last]);
    }
  }

  /**
   * Which texts are ids: exactly the printed numbers below 2^64, with any number of zeros in front; anything else,
   * a sign, a blank, an empty text or a larger number, is refused.
   */
  lemma IdsAccepted(t: Text)
    ensures ParseU64(t).Some? <==>
              exists count: nat, n: nat :: n < 0x1_0000_0000_0000_0000 && t == Zeros(count) + ToDecimal(n)
    ensures forall count: nat, n: nat :: n < 0x1_0000_0000_0000_0000 && t == Zeros(count) + ToDecimal(n) ==>
              ParseU64(t) == Some(n)
  {
    hide DecimalValue, ToDecimal;
    forall count: nat, n: nat | n < 0x1_0000_0000_0000_0000 && t == Zeros(count) + ToDecimal(n)
      ensures ParseU64(t) == Some(n)
    {
      DecimalOfNumber(n);
      ValueBehindZeros(count, ToDecimal(n));
    }
    if ParseU64(t).Some? {
      var count := DigitsArePrinted(t);
      assert t == Zeros(count) + ToDecimal(DecimalValue(t));
    }
  }
}
