/**
 CSV export: escaping and formatting, and a decoder written after section 2 of RFC 4180.
 */
module Csv {
  import opened Strings

  const QUOTE := '\"'
  const NEWLINE := "\r\n"

  /** Rule 6 of section 2: a field holding one of these is enclosed in quotes. */
  predicate IsSpecial(c: char) { c == QUOTE || c == ',' || c == '\r' || c == '\n' }

  predicate NeedsQuotes(v: string) { exists i :: 0 <= i < |v| && IsSpecial(v[i]) }

  function Doubled(v: string): string {
    if v == "" then "" else (if v[0] == QUOTE then [QUOTE, QUOTE] else [v[0]]) + Doubled(v[1..])
  }

  function Encode(v: string): string {
    if NeedsQuotes(v) then [QUOTE] + Doubled(v) + [QUOTE] else v
  }

  function EncodeAll(fields: seq<string>): (encoded: seq<string>)
    ensures |encoded| == |fields| && forall i :: 0 <= i < |fields| ==> encoded[i] == Encode(fields[i])
  {
    if fields == [] then [] else [Encode(fields[0])] + EncodeAll(fields[1..])
  }

  function Line(fields: seq<string>): string { Join(EncodeAll(fields), ",") }

  function Lines(records: seq<seq<string>>): (lines: seq<string>)
    ensures |lines| == |records| && forall i :: 0 <= i < |records| ==> lines[i] == Line(records[i])
  {
    if records == [] then [] else [Line(records[0])] + Lines(records[1..])
  }

  /** A table as text: one line per record, no line break after the last. */
  function Text(records: seq<seq<string>>): string { Join(Lines(records), NEWLINE) }

  datatype HeaderInfo = HeaderInfo(label_: string, value: string)

  function InfoFields(info: seq<HeaderInfo>): (fields: seq<string>)
    ensures |fields| == |info| && forall i :: 0 <= i < |fields| ==> fields[i] == info[i].label_ + info[i].value
  {
    if info == [] then [] else [info[0].label_ + info[0].value] + InfoFields(info[1..])
  }

  /** The records `format` writes: the extra header line if there is one, the column names, the rows. */
  function Records(rows: seq<seq<string>>, names: seq<string>, info: seq<HeaderInfo>): seq<seq<string>> {
    (if info == [] then [] else [InfoFields(info)]) + [names] + rows
  }

  method Format(rows: seq<seq<string>>, names: seq<string>, info: seq<HeaderInfo>) returns (csv: string)
    ensures csv == Text(Records(rows, names, info))
  {
    var lines: seq<string> := [];
    if |info| > 0 {
      // an array among the lines is joined with commas
      lines := lines + [Join(EncodeAll(InfoFields(info)), ",")];
    }
    lines := lines + [Join(EncodeAll(names), ",")];
    lines := lines + Lines(rows);
    assert lines == Lines(Records(rows, names, info));
    return Join(lines, NEWLINE);
  }

  // ---------------------------------------------------------------- decoding

  datatype Parsed<T> = Parsed(value: T, rest: string)

  function PlainRun(s: string): (n: nat)
    ensures n <= |s| && (forall i :: 0 <= i < n ==> !IsSpecial(s[i])) && (n < |s| ==> IsSpecial(s[n]))
  {
    if s == "" || IsSpecial(s[0]) then 0 else 1 + PlainRun(s[1..])
  }

  /** What follows an opening quote: two quotes stand for one, a single one closes. */
  function ReadQuoted(s: string): (r: Option<Parsed<string>>)
    ensures r.Some? ==> |r.value.rest| < |s|
  {
    if s == "" then None
    else if s[0] != QUOTE then
      var r := ReadQuoted(s[1..]);
      if r.None? then None else Some(Parsed([s[0]] + r.value.value, r.value.rest))
    else if |s| > 1 && s[1] == QUOTE then
      var r := ReadQuoted(s[2..]);
      if r.None? then None else Some(Parsed([QUOTE] + r.value.value, r.value.rest))
    else Some(Parsed("", s[1..]))
  }

  function ReadField(s: string): (r: Option<Parsed<string>>)
    ensures r.Some? ==> |r.value.rest| <= |s|
  {
    if s != "" && s[0] == QUOTE then ReadQuoted(s[1..]) else Some(Parsed(s[..PlainRun(s)], s[PlainRun(s)..]))
  }

  function ReadRecord(s: string): (r: Option<Parsed<seq<string>>>)
    ensures r.Some? ==> |r.value.rest| <= |s|
    decreases |s|
  {
    var field := ReadField(s);
    if field.None? then None
    else
      var rest := field.value.rest;
      if rest != "" && rest[0] == ',' then
        var more := ReadRecord(rest[1..]);
        if more.None? then None else Some(Parsed([field.value.value] + more.value.value, more.value.rest))
      else Some(Parsed([field.value.value], rest))
  }

  /** A line break separates two records. */
  function Decode(s: string): Option<seq<seq<string>>>
    decreases |s|
  {
    var record := ReadRecord(s);
    if record.None? then None
    else
      var rest := record.value.rest;
      if rest == "" then Some([record.value.value])
      else if HasPrefix(rest, NEWLINE) then
        var more := Decode(rest[2..]);
        if more.None? then None else Some([record.value.value] + more.value)
      else None
  }

  // ---------------------------------------------------------------- round trip

  /** What can follow a field. */
  predicate EndsField(rest: string) { rest == "" || rest[0] == ',' || HasPrefix(rest, NEWLINE) }

  lemma {:induction false} ReadQuotedDoubled(v: string, rest: string)
    requires rest == "" || rest[0] != QUOTE
    ensures ReadQuoted(Doubled(v) + [QUOTE] + rest) == Some(Parsed(v, rest))
  {
    var s := Doubled(v) + [QUOTE] + rest;
    if v == "" {
      assert s == [QUOTE] + rest;
      assert s[1..] == rest;
    } else {
      var tail := Doubled(v[1..]) + [QUOTE] + rest;
      ReadQuotedDoubled(v[1..], rest);
      assert v == [v[0]] + v[1..];
      if v[0] == QUOTE {
        assert s == [QUOTE, QUOTE] + tail;
        assert s[2..] == tail;
      } else {
        assert s == [v[0]] + tail;
        assert s[1..] == tail;
      }
    }
  }

  lemma ReadEncodedField(v: string, rest: string)
    requires EndsField(rest)
    ensures ReadField(Encode(v) + rest) == Some(Parsed(v, rest))
  {
    hide ReadQuoted, Doubled, PlainRun, NeedsQuotes;
    var s := Encode(v) + rest;
    if NeedsQuotes(v) {
      ReadQuotedDoubled(v, rest);
      assert s == [QUOTE] + (Doubled(v) + [QUOTE] + rest);
      assert s[1..] == Doubled(v) + [QUOTE] + rest;
    } else {
      ReadPlain(v, rest);
    }
  }

  lemma ReadPlain(v: string, rest: string)
    requires EndsField(rest) && !NeedsQuotes(v)
    ensures ReadField(v + rest) == Some(Parsed(v, rest))
  {
    var s := v + rest;
    var n := PlainRun(s);
    assert forall i :: 0 <= i < |v| ==> s[i] == v[i] && !IsSpecial(v[i]);
    assert rest != "" ==> s[|v|] == rest[0] && IsSpecial(rest[0]) && rest[0] != QUOTE;
    assert n == |v|;
  }

  lemma {:induction false} ReadLine(fields: seq<string>, rest: string)
    requires |fields| > 0 && (rest == "" || HasPrefix(rest, NEWLINE))
    ensures ReadRecord(Line(fields) + rest) == Some(Parsed(fields, rest))
    decreases |fields|
  {
    hide ReadField, Encode;
    if |fields| == 1 {
      assert Line(fields) == Encode(fields[0]) && fields == [fields[0]];
      assert rest == "" || rest[0] == '\r';
      ReadEncodedField(fields[0], rest);
    } else {
      var tail := Line(fields[1..]) + rest;
      assert EncodeAll(fields)[1..] == EncodeAll(fields[1..]);
      assert Line(fields) + rest == Encode(fields[0]) + ("," + tail);
      ReadEncodedField(fields[0], "," + tail);
      assert ("," + tail)[1..] == tail;
      ReadLine(fields[1..], rest);
      assert fields == [fields[0]] + fields[1..];
    }
  }

  ghost predicate IsTable(records: seq<seq<string>>) {
    |records| > 0 && forall i :: 0 <= i < |records| ==> |records[i]| > 0
  }

  lemma {:induction false} DecodeStep(s: string, record: seq<string>, tail: string, records: seq<seq<string>>)
    ensures ReadRecord(s) == Some(Parsed(record, "")) ==> Decode(s) == Some([record])
    ensures ReadRecord(s) == Some(Parsed(record, NEWLINE + tail)) && Decode(tail) == Some(records)
      ==> Decode(s) == Some([record] + records)
  {
  }

  lemma TextOf(records: seq<seq<string>>)
    requires |records| > 0
    ensures Text(records) ==
      Line(records[0]) + if |records| == 1 then "" else NEWLINE + Text(records[1..])
  {
  }

  /** Decoding gives back every record and every field, whatever commas, quotes and line breaks they hold. */
  lemma {:induction false} DecodeText(records: seq<seq<string>>)
    requires IsTable(records)
    ensures Decode(Text(records)) == Some(records)
    decreases |records|
  {
    hide ReadRecord, Line, Decode, Text;
    TextOf(records);
    if |records| == 1 {
      assert records == [records[0]];
      ReadLine(records[0], "");
      DecodeStep(Text(records), records[0], "", []);
    } else {
      var tail := Text(records[1..]);
      ReadLine(records[0], NEWLINE + tail);
      DecodeText(records[1..]);
      assert records == [records[0]] + records[1..];
      DecodeStep(Text(records), records[0], tail, records[1..]);
    }
  }

  lemma TextIsInjective(a: seq<seq<string>>, b: seq<seq<string>>)
    requires IsTable(a) && IsTable(b) && Text(a) == Text(b)
    ensures a == b
  {
    DecodeText(a);
    DecodeText(b);
  }

  /** Rule 2 of section 2 lets a file end in a line break, which a reader then does not take for one more record. */
  function ReadFile(s: string): Option<seq<seq<string>>> {
    var records := Decode(s);
    if records.Some? && |records.value| > 1 && records.value[|records.value| - 1] == [""] then
      Some(records.value[..|records.value| - 1])
    else records
  }

  predicate EndsBlank(records: seq<seq<string>>) {
    |records| > 1 && records[|records| - 1] == [""]
  }

  /** Such a reader gives back the table exactly when it does not end in a row of one empty field. */
  lemma ReadFileText(records: seq<seq<string>>)
    requires IsTable(records)
    ensures ReadFile(Text(records)) == Some(records) <==> !EndsBlank(records)
    ensures EndsBlank(records) ==> ReadFile(Text(records)) == Some(records[..|records| - 1])
  {
    DecodeText(records);
  }

  // ---------------------------------------------------------------- what is quoted, and what is read back

  /** A field is written as it is exactly when it holds nothing special, and else between quotes. */
  lemma QuotedIff(v: string)
    ensures Encode(v) == v <==>
      forall i :: 0 <= i < |v| ==> !(v[i] == QUOTE || v[i] == ',' || v[i] == '\r' || v[i] == '\n')
    ensures Encode(v) != v ==> |Encode(v)| >= |v| + 2 && Encode(v)[0] == QUOTE && Encode(v)[|Encode(v)| - 1] == QUOTE
  {
    hide Doubled;
    DoubledIsLonger(v);
    if NeedsQuotes(v) {
      var i :| 0 <= i < |v| && IsSpecial(v[i]);
      assert |Encode(v)| > |v|;
    }
  }

  lemma {:induction false} DoubledIsLonger(v: string)
    ensures |Doubled(v)| >= |v|
  {
    if v != "" {
      DoubledIsLonger(v[1..]);
    }
  }

  /** What `format` writes reads back as its extra header line, if any, its column names and its rows. */
  lemma FormattedReadsBack(rows: seq<seq<string>>, names: seq<string>, info: seq<HeaderInfo>)
    requires names != [] && forall i :: 0 <= i < |rows| ==> rows[i] != []
    ensures var read := Decode(Text(Records(rows, names, info)));
      var start := if info == [] then 0 else 1;
      read.Some? && |read.value| == start + 1 + |rows| &&
      read.value[start] == names && read.value[start + 1..] == rows &&
      (info != [] ==> |read.value[0]| == |info|) &&
      forall i :: 0 <= i < |info| ==>
        info != [] && i < |read.value[0]| && read.value[0][i] == info[i].label_ + info[i].value
  {
    hide Decode, Text;
    DecodeText(Records(rows, names, info));
  }
}
