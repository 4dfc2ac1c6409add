/**
 * A reader of JSON texts, by the grammar of RFC 8259.
 *
 * It knows nothing of the printers: blanks between tokens, both kinds of escapes and the three
 * parts of a number are read as sections 2 to 7 define them, and members in the order they come.
 */
module JsonReader {
  import opened Prelude
  import opened Decimal
  import opened Numbers
  import opened Json

  /** A value in front of a text, and what follows it. */
  datatype Read<T> = Read(value: T, rest: string)

  // ---------------------------------------------------------------- section 2: blanks

  predicate IsBlank(c: char) { c == ' ' || c == '\t' || c == '\n' || c == '\r' }

  function SkipBlanks(text: string): (r: string)
    ensures |r| <= |text|
  {
    if |text| > 0 && IsBlank(text[0]) then SkipBlanks(text[1..]) else text
  }

  // ---------------------------------------------------------------- section 6: numbers

  /** The number that digits after an optional minus denote. */
  function WholeValue(text: string): int {
    if MinusLength(text) == 1 then -NatValue(text[1..]) else NatValue(text)
  }

  function ReadNumber(text: string): (r: Option<Read<Json>>)
    ensures r.Some? ==> |r.value.rest| < |text|
  {
    var whole, n := WholeLength(text), NumberLength(text);
    if whole == 0 then None
    else Some(Read(if n == whole then Int(WholeValue(text[..n])) else Float(text[..n]), text[n..]))
  }

  // ---------------------------------------------------------------- section 7: strings

  function HexOf(c: char): (d: Option<int>)
    ensures d.Some? ==> 0 <= d.value < 16
  {
    if '0' <= c <= '9' then Some(c as int - '0' as int)
    else if 'a' <= c <= 'f' then Some(c as int - 'a' as int + 10)
    else if 'A' <= c <= 'F' then Some(c as int - 'A' as int + 10)
    else None
  }

  /** Four hexadecimal digits. */
  function ReadHex(text: string): (r: Option<Read<int>>)
    ensures r.Some? ==> |r.value.rest| < |text| && 0 <= r.value.value < 0x1_0000
  {
    if |text| < 4 then None
    else
      var a, b, c, d := HexOf(text[0]), HexOf(text[1]), HexOf(text[2]), HexOf(text[3]);
      if a.None? || b.None? || c.None? || d.None? then None
      else Some(Read(((a.value * 16 + b.value) * 16 + c.value) * 16 + d.value, text[4..]))
  }

  /** A code unit after `\u`; a surrogate counts only in front of its other half. */
  function ReadUnit(text: string): (r: Option<Read<char>>)
    ensures r.Some? ==> |r.value.rest| < |text|
  {
    var high := ReadHex(text);
    if high.None? then None
    else if 0xDC00 <= high.value.value < 0xE000 then None
    else if 0xD800 <= high.value.value < 0xDC00 then
      if !("\\u" <= high.value.rest) then None
      else
        var low := ReadHex(high.value.rest[2..]);
        if low.None? || !(0xDC00 <= low.value.value < 0xE000) then None
        else
          Some(Read((0x1_0000 + (high.value.value - 0xD800) * 0x400 + (low.value.value - 0xDC00)) as char,
            low.value.rest))
    else Some(Read(high.value.value as char, high.value.rest))
  }

  /** What follows a backslash. */
  function ReadEscape(text: string): (r: Option<Read<char>>)
    ensures r.Some? ==> |r.value.rest| < |text|
  {
    if |text| == 0 then None
    else if text[0] == '\"' || text[0] == '\\' || text[0] == '/' then Some(Read(text[0], text[1..]))
    else if text[0] == 'b' then Some(Read(8 as char, text[1..]))
    else if text[0] == 'f' then Some(Read(12 as char, text[1..]))
    else if text[0] == 'n' then Some(Read(10 as char, text[1..]))
    else if text[0] == 'r' then Some(Read(13 as char, text[1..]))
    else if text[0] == 't' then Some(Read(9 as char, text[1..]))
    else if text[0] == 'u' then ReadUnit(text[1..])
    else None
  }

  function InFront(c: char, r: Option<Read<string>>): Option<Read<string>> {
    if r.None? then None else Some(Read([c] + r.value.value, r.value.rest))
  }

  /** The characters behind an opening quote; control characters must be escaped. */
  function ReadString(text: string): (r: Option<Read<string>>)
    ensures r.Some? ==> |r.value.rest| < |text|
    decreases |text|
  {
    if |text| == 0 then None
    else if text[0] == '\"' then Some(Read("", text[1..]))
    else if text[0] == '\\' then
      var escaped := ReadEscape(text[1..]);
      if escaped.None? then None else InFront(escaped.value.value, ReadString(escaped.value.rest))
    else if (text[0] as int) < 0x20 then None
    else InFront(text[0], ReadString(text[1..]))
  }

  // ---------------------------------------------------------------- sections 3 to 5: values

  function ReadWord(word: string, value: Json, text: string): (r: Option<Read<Json>>)
    requires word != ""
    ensures r.Some? ==> |r.value.rest| < |text|
  {
    if word <= text then Some(Read(value, text[|word|..])) else None
  }

  function ReadValue(text: string): (r: Option<Read<Json>>)
    ensures r.Some? ==> |r.value.rest| < |text|
    decreases |text|, 1
  {
    var t := SkipBlanks(text);
    if |t| == 0 then None
    else if t[0] == 'n' then ReadWord("null", Null, t)
    else if t[0] == 't' then ReadWord("true", Bool(true), t)
    else if t[0] == 'f' then ReadWord("false", Bool(false), t)
    else if t[0] == '\"' then
      var s := ReadString(t[1..]);
      if s.None? then None else Some(Read(Str(s.value.value), s.value.rest))
    else if t[0] == '[' then
      var items := ReadList(t[1..]);
      if items.None? then None else Some(Read(Arr(items.value.value), items.value.rest))
    else if t[0] == '{' then
      var fields := ReadHash(t[1..]);
      if fields.None? then None else Some(Read(Obj(fields.value.value), fields.value.rest))
    else ReadNumber(t)
  }

  /** What follows `[`. */
  function ReadList(text: string): (r: Option<Read<seq<Json>>>)
    ensures r.Some? ==> |r.value.rest| < |text|
    decreases |text|, 3
  {
    var t := SkipBlanks(text);
    if |t| > 0 && t[0] == ']' then Some(Read([], t[1..])) else ReadItems(text)
  }

  /** A value, then a comma and more of them, or the end. */
  function ReadItems(text: string): (r: Option<Read<seq<Json>>>)
    ensures r.Some? ==> |r.value.rest| < |text|
    decreases |text|, 2
  {
    var first := ReadValue(text);
    if first.None? then None
    else
      var t := SkipBlanks(first.value.rest);
      if |t| > 0 && t[0] == ']' then Some(Read([first.value.value], t[1..]))
      else if |t| > 0 && t[0] == ',' then
        var more := ReadItems(t[1..]);
        if more.None? then None else Some(Read([first.value.value] + more.value.value, more.value.rest))
      else None
  }

  /** What follows `{`. */
  function ReadHash(text: string): (r: Option<Read<seq<Member>>>)
    ensures r.Some? ==> |r.value.rest| < |text|
    decreases |text|, 3
  {
    var t := SkipBlanks(text);
    if |t| > 0 && t[0] == '}' then Some(Read([], t[1..])) else ReadFields(text)
  }

  /** A key in quotes, a colon and a value. */
  function ReadMember(text: string): (r: Option<Read<Member>>)
    ensures r.Some? ==> |r.value.rest| < |text|
    decreases |text|, 1
  {
    var t := SkipBlanks(text);
    if |t| == 0 || t[0] != '\"' then None
    else
      var key := ReadString(t[1..]);
      if key.None? then None
      else
        var u := SkipBlanks(key.value.rest);
        if |u| == 0 || u[0] != ':' then None
        else
          var value := ReadValue(u[1..]);
          if value.None? then None
          else Some(Read(Member(key.value.value, value.value.value), value.value.rest))
  }

  function ReadFields(text: string): (r: Option<Read<seq<Member>>>)
    ensures r.Some? ==> |r.value.rest| < |text|
    decreases |text|, 2
  {
    var first := ReadMember(text);
    if first.None? then None
    else
      var t := SkipBlanks(first.value.rest);
      if |t| > 0 && t[0] == '}' then Some(Read([first.value.value], t[1..]))
      else if |t| > 0 && t[0] == ',' then
        var more := ReadFields(t[1..]);
        if more.None? then None else Some(Read([first.value.value] + more.value.value, more.value.rest))
      else None
  }

  /** A whole text: one value and blanks. */
  function ReadText(text: string): Option<Json> {
    var r := ReadValue(text);
    if r.Some? && SkipBlanks(r.value.rest) == "" then Some(r.value.value) else None
  }
}
