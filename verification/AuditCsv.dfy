/**
 * The audit export of the admin console and a reader for it: section 2 of RFC 4180 with a bare
 * line feed between records.
 */
module AuditCsv {
  import opened Prelude

  datatype Party = Party(kind: string, id: string, caption: string)

  datatype AuditEntry = AuditEntry(
    id: string, at: string, actor: Party, action: string, target: Party, outcome: string,
    requestId: Option<string>, hash: string, previousHash: Option<string>)

  const HEADER := [
    "id", "at", "actorKind", "actorId", "actorLabel", "action", "targetKind", "targetId", "targetLabel",
    "outcome", "requestId", "hash", "previousHash"]

  function OrEmpty(s: Option<string>): string { if s.Some? then s.value else "" }

  function Row(e: AuditEntry): seq<string> {
    [e.id, e.at, e.actor.kind, e.actor.id, e.actor.caption, e.action, e.target.kind, e.target.id, e.target.caption,
     e.outcome, OrEmpty(e.requestId), e.hash, OrEmpty(e.previousHash)]
  }

  /** The column of this number is headed so and holds this field. */
  ghost predicate Column(e: AuditEntry, i: nat, name: string, field: string) {
    i < |HEADER| && i < |Row(e)| && HEADER[i] == name && Row(e)[i] == field
  }

  /** Header and row go together: each of the thirteen columns holds what its name says. */
  lemma {:induction false} RowColumns(e: AuditEntry)
    ensures |Row(e)| == |HEADER| == 13
    ensures Column(e, 0, "id", e.id)
    ensures Column(e, 1, "at", e.at)
    ensures Column(e, 2, "actorKind", e.actor.kind)
    ensures Column(e, 3, "actorId", e.actor.id)
    ensures Column(e, 4, "actorLabel", e.actor.caption)
    ensures Column(e, 5, "action", e.action)
    ensures Column(e, 6, "targetKind", e.target.kind)
    ensures Column(e, 7, "targetId", e.target.id)
    ensures Column(e, 8, "targetLabel", e.target.caption)
    ensures Column(e, 9, "outcome", e.outcome)
    ensures Column(e, 10, "requestId", if e.requestId.Some? then e.requestId.value else "")
    ensures Column(e, 11, "hash", e.hash)
    ensures Column(e, 12, "previousHash", if e.previousHash.Some? then e.previousHash.value else "")
  {
  }

  // ---------------------------------------------------------------- the writer

  /** `replaceAll('"', '""')`. */
  function Doubled(s: string): string {
    if |s| == 0 then "" else (if s[0] == '\"' then "\"\"" else [s[0]]) + Doubled(s[1..])
  }

  function Quoted(s: string): string { "\"" + Doubled(s) + "\"" }

  function Join(separator: char, parts: seq<string>): string {
    if |parts| == 0 then ""
    else if |parts| == 1 then parts[0]
    else parts[0] + [separator] + Join(separator, parts[1..])
  }

  function Line(row: seq<string>): string { Join(',', Map(Quoted, row)) }

  function Csv(header: seq<string>, rows: seq<seq<string>>): string {
    Join('\n', [Join(',', header)] + Map(Line, rows))
  }

  /** The exported text; without entries there are no keys to head it. */
  function ExportCsv(entries: seq<AuditEntry>): string {
    Csv(if |entries| == 0 then [] else HEADER, Map(Row, entries))
  }

  // ---------------------------------------------------------------- the reader

  datatype Read<T> = Read(value: T, rest: string)

  /** An escaped field after its opening quote: two quotes stand for one, a single one closes it. */
  function ReadEscaped(text: string): Option<Read<string>> {
    if |text| == 0 then None
    else if text[0] != '\"' then Prefixed(text[0], ReadEscaped(text[1..]))
    else if |text| > 1 && text[1] == '\"' then Prefixed('\"', ReadEscaped(text[2..]))
    else Some(Read("", text[1..]))
  }

  function Prefixed(c: char, r: Option<Read<string>>): Option<Read<string>> {
    if r.None? then None else Some(Read([c] + r.value.value, r.value.rest))
  }

  /** A non-escaped field runs to a comma, a line feed or the end, and holds no quote. */
  function ReadPlain(text: string): Option<Read<string>> {
    if |text| == 0 || text[0] == ',' || text[0] == '\n' then Some(Read("", text))
    else if text[0] == '\"' then None
    else Prefixed(text[0], ReadPlain(text[1..]))
  }

  function ReadField(text: string): (r: Option<Read<string>>)
    ensures r.Some? ==> |r.value.rest| <= |text|
  {
    FieldShrinks(text);
    if |text| > 0 && text[0] == '\"' then ReadEscaped(text[1..]) else ReadPlain(text)
  }

  lemma {:induction false} FieldShrinks(text: string)
    ensures ReadPlain(text).Some? ==> |ReadPlain(text).value.rest| <= |text|
    ensures |text| > 0 && ReadEscaped(text[1..]).Some? ==> |ReadEscaped(text[1..]).value.rest| <= |text|
    ensures ReadEscaped(text).Some? ==> |ReadEscaped(text).value.rest| <= |text|
  {
    if |text| > 0 {
      FieldShrinks(text[1..]);
      if |text| > 1 {
        FieldShrinks(text[2..]);
      }
    }
  }

  /** One record: fields separated by commas, up to a line feed or the end. */
  function ReadRecord(text: string): (r: Option<Read<seq<string>>>)
    ensures r.Some? ==> |r.value.rest| <= |text|
    decreases |text|
  {
    var field := ReadField(text);
    if field.None? then None
    else
      var rest := field.value.rest;
      if |rest| > 0 && rest[0] == ',' then
        var more := ReadRecord(rest[1..]);
        if more.None? then None else Some(Read([field.value.value] + more.value.value, more.value.rest))
      else if |rest| > 0 && rest[0] != '\n' then None
      else Some(Read([field.value.value], rest))
  }

  /** All records; a line feed at the very end opens no further record. */
  function ReadCsv(text: string): Option<seq<seq<string>>>
    decreases |text|
  {
    var record := ReadRecord(text);
    if record.None? then None
    else if |record.value.rest| <= 1 then Some([record.value.value])
    else
      var more := ReadCsv(record.value.rest[1..]);
      if more.None? then None else Some([record.value.value] + more.value)
  }

  // ---------------------------------------------------------------- reading back what was written

  /** A text that can follow a field. */
  predicate Follows(rest: string) { |rest| == 0 || rest[0] == ',' || rest[0] == '\n' }

  lemma {:induction false} EscapedChar(c: char, s: string, tail: string, rest: string)
    requires ReadEscaped(tail) == Some(Read(s, rest))
    ensures ReadEscaped((if c == '\"' then "\"\"" else [c]) + tail) == Some(Read([c] + s, rest))
  {
    if c == '\"' {
      assert ("\"\"" + tail)[2..] == tail;
    } else {
      assert ([c] + tail)[1..] == tail;
    }
  }

  lemma {:induction false} EscapedReadBack(s: string, rest: string)
    requires Follows(rest)
    ensures ReadEscaped(Doubled(s) + "\"" + rest) == Some(Read(s, rest))
  {
    var text := Doubled(s) + "\"" + rest;
    if |s| == 0 {
      assert text == "\"" + rest;
    } else {
      var tail := Doubled(s[1..]) + "\"" + rest;
      EscapedReadBack(s[1..], rest);
      EscapedChar(s[0], s[1..], tail, rest);
      assert text == (if s[0] == '\"' then "\"\"" else [s[0]]) + tail;
      assert s == [s[0]] + s[1..];
    }
  }

  lemma {:induction false} QuotedReadBack(s: string, rest: string)
    requires Follows(rest)
    ensures ReadField(Quoted(s) + rest) == Some(Read(s, rest))
  {
    var text := Quoted(s) + rest;
    assert text[0] == '\"' && text[1..] == Doubled(s) + "\"" + rest;
    EscapedReadBack(s, rest);
  }

  /** No quote, comma or line feed: what a header field must be to go unquoted. */
  predicate IsPlain(s: string) { forall c :: c in s ==> c != '\"' && c != ',' && c != '\n' }

  lemma {:induction false} PlainReadBack(s: string, rest: string)
    requires IsPlain(s) && Follows(rest)
    ensures ReadPlain(s + rest) == Some(Read(s, rest))
    ensures ReadField(s + rest) == Some(Read(s, rest))
  {
    var text := s + rest;
    if |s| == 0 {
      assert text == rest;
    } else {
      assert s[0] in s && text[0] == s[0] && text[1..] == s[1..] + rest;
      assert forall c :: c in s[1..] ==> c in s;
      PlainReadBack(s[1..], rest);
      assert s == [s[0]] + s[1..];
    }
  }

  /** A text that can follow a record. */
  predicate EndsRecord(rest: string) { |rest| == 0 || rest[0] == '\n' }

  /** `parts` print the fields of `row`, each read back before anything that can follow a field. */
  ghost predicate Prints(parts: seq<string>, row: seq<string>) {
    |parts| == |row| &&
    forall i, rest :: 0 <= i < |row| && Follows(rest) ==> ReadField(parts[i] + rest) == Some(Read(row[i], rest))
  }

  lemma {:induction false} RecordReadBack(parts: seq<string>, row: seq<string>, rest: string)
    requires Prints(parts, row) && |row| > 0 && EndsRecord(rest)
    ensures ReadRecord(Join(',', parts) + rest) == Some(Read(row, rest))
  {
    var text := Join(',', parts) + rest;
    if |row| == 1 {
      assert text == parts[0] + rest;
      assert Follows(rest);
      assert ReadField(text) == Some(Read(row[0], rest));
      assert row == [row[0]];
    } else {
      var tail := Join(',', parts[1..]) + rest;
      assert text == parts[0] + ("," + tail);
      assert ("," + tail)[1..] == tail && Follows("," + tail);
      assert ReadField(text) == Some(Read(row[0], "," + tail));
      RecordReadBack(parts[1..], row[1..], rest);
      assert row == [row[0]] + row[1..];
    }
  }

  lemma {:induction false} LineReadBack(row: seq<string>, rest: string)
    requires |row| > 0 && EndsRecord(rest)
    ensures ReadRecord(Line(row) + rest) == Some(Read(row, rest))
  {
    forall i, after | 0 <= i < |row| && Follows(after)
      ensures ReadField(Map(Quoted, row)[i] + after) == Some(Read(row[i], after))
    {
      QuotedReadBack(row[i], after);
    }
    RecordReadBack(Map(Quoted, row), row, rest);
  }

  lemma {:induction false} HeaderReadBack(header: seq<string>, rest: string)
    requires |header| > 0 && (forall h :: h in header ==> IsPlain(h)) && EndsRecord(rest)
    ensures ReadRecord(Join(',', header) + rest) == Some(Read(header, rest))
  {
    forall i, after | 0 <= i < |header| && Follows(after)
      ensures ReadField(header[i] + after) == Some(Read(header[i], after))
    {
      PlainReadBack(header[i], after);
    }
    RecordReadBack(header, header, rest);
  }

  lemma {:induction false} LineNotEmpty(row: seq<string>)
    requires |row| > 0
    ensures |Line(row)| >= 2
  {
    var parts := Map(Quoted, row);
    assert parts[0] == Quoted(row[0]);
  }

  /** A record in front of a text that reads back. */
  lemma {:induction false} RecordInFront(first: string, record: seq<string>, tail: string, records: seq<seq<string>>)
    requires ReadRecord(first + ("\n" + tail)) == Some(Read(record, "\n" + tail))
    requires |tail| > 0 && ReadCsv(tail) == Some(records)
    ensures ReadCsv(first + ("\n" + tail)) == Some([record] + records)
  {
    assert ("\n" + tail)[1..] == tail;
  }

  lemma {:induction false} LineInFront(row: seq<string>, tail: string, rest: seq<seq<string>>)
    requires |row| > 0 && |tail| >= 2 && ReadCsv(tail) == Some(rest)
    ensures ReadCsv(Line(row) + ("\n" + tail)) == Some([row] + rest)
  {
    LineReadBack(row, "\n" + tail);
    LineNotEmpty(row);
    RecordInFront(Line(row), row, tail, rest);
  }

  lemma {:induction false} LinesReadBack(rows: seq<seq<string>>)
    requires |rows| > 0 && forall i :: 0 <= i < |rows| ==> |rows[i]| > 0
    ensures ReadCsv(Join('\n', Map(Line, rows))) == Some(rows)
    ensures |Join('\n', Map(Line, rows))| >= 2
  {
    var lines := Map(Line, rows);
    LineNotEmpty(rows[0]);
    if |rows| == 1 {
      LineReadBack(rows[0], "");
      assert Join('\n', lines) == Line(rows[0]) + "";
      assert rows == [rows[0]];
    } else {
      var tail := Join('\n', Map(Line, rows[1..]));
      assert lines[1..] == Map(Line, rows[1..]);
      LinesReadBack(rows[1..]);
      LineInFront(rows[0], tail, rows[1..]);
      assert Join('\n', lines) == Line(rows[0]) + ("\n" + tail);
      assert rows == [rows[0]] + rows[1..];
    }
  }

  /** Any plain header and any rows of arbitrary fields come back exactly. */
  lemma {:induction false} CsvRoundTrip(header: seq<string>, rows: seq<seq<string>>)
    requires |header| > 0 && forall h :: h in header ==> IsPlain(h)
    requires |rows| > 0 && forall i :: 0 <= i < |rows| ==> |rows[i]| > 0
    ensures ReadCsv(Csv(header, rows)) == Some([header] + rows)
  {
    var head, lines := Join(',', header), Map(Line, rows);
    var tail := Join('\n', lines);
    LinesReadBack(rows);
    HeaderReadBack(header, "\n" + tail);
    assert ([head] + lines)[1..] == lines;
    assert Csv(header, rows) == head + ("\n" + tail);
    RecordInFront(head, header, tail, rows);
  }

  /** The export of a non-empty page of audit entries reads back as the header and one row per entry. */
  lemma {:induction false} ExportRoundTrip(entries: seq<AuditEntry>)
    requires |entries| > 0
    ensures ReadCsv(ExportCsv(entries)) == Some([HEADER] + Map(Row, entries))
  {
    CsvRoundTrip(HEADER, Map(Row, entries));
  }

  /** So two exports are the same text exactly when their rows are the same. */
  lemma {:induction false} ExportInjective(a: seq<AuditEntry>, b: seq<AuditEntry>)
    requires |a| > 0 && |b| > 0
    ensures ExportCsv(a) == ExportCsv(b) <==> Map(Row, a) == Map(Row, b)
  {
    ExportRoundTrip(a);
    ExportRoundTrip(b);
    if ExportCsv(a) == ExportCsv(b) {
      assert Map(Row, a) == ([HEADER] + Map(Row, a))[1..];
      assert Map(Row, b) == ([HEADER] + Map(Row, b))[1..];
    }
  }
}
