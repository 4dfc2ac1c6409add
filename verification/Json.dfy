/**
 * JSON values and their canonical text.
 *
 * `SortedText` is `canonical_json` of the conformance library and `stable` of the TypeScript runner
 * kit, with string and structural tokens as in sections 2 and 7 of RFC 8259.
 */
module Json {
  import opened Decimal
  import opened Numbers
  import opened Prelude
  import opened Sorting

  /** An object keeps its members in insertion order; a float is the decimal text it prints as. */
  datatype Json =
    | Null
    | Bool(b: bool)
    | Int(n: int)
    | Float(text: string)
    | Str(s: string)
    | Arr(items: seq<Json>)
    | Obj(fields: seq<Member>)

  datatype Member = Member(key: string, value: Json)

  function Keys(fields: seq<Member>): (r: seq<string>)
    ensures |r| == |fields|
    ensures forall i :: 0 <= i < |fields| ==> r[i] == fields[i].key
  {
    seq(|fields|, i requires 0 <= i < |fields| => fields[i].key)
  }

  /** A hash has each key once, and a float prints with a fraction or an exponent. */
  predicate WellFormed(v: Json) {
    match v
    case Float(text) => IsFloatText(text)
    case Arr(items) => forall i :: 0 <= i < |items| ==> WellFormed(items[i])
    case Obj(fields) => Distinct(Keys(fields)) && forall i :: 0 <= i < |fields| ==> WellFormed(fields[i].value)
    case _ => true
  }

  /** A number of the grammar with a fraction or an exponent. */
  predicate IsFloatText(text: string) { 0 < WholeLength(text) < NumberLength(text) == |text| }

  // ---------------------------------------------------------------- printing

  function HexDigit(d: int): char
    requires 0 <= d < 16
  {
    "0123456789abcdef"[d]
  }

  /** Section 7 of RFC 8259: quote, backslash and the control characters are escaped. */
  function EscapeChar(c: char): string {
    var code := c as int;
    if c == '\"' then "\\\""
    else if c == '\\' then "\\\\"
    else if code == 8 then "\\b"
    else if code == 9 then "\\t"
    else if code == 10 then "\\n"
    else if code == 12 then "\\f"
    else if code == 13 then "\\r"
    else if code < 32 then "\\u00" + [HexDigit(code / 16), HexDigit(code % 16)]
    else [c]
  }

  function Escape(s: string): string {
    if |s| == 0 then "" else EscapeChar(s[0]) + Escape(s[1..])
  }

  function Quote(s: string): string { "\"" + Escape(s) + "\"" }

  function IntText(n: int): string {
    if n < 0 then "-" + NatText(-n) else NatText(n)
  }

  /** Elements after the first one, each preceded by the separator of `join(",")`. */
  function Rest(parts: seq<string>): string {
    if |parts| == 0 then "" else "," + parts[0] + Rest(parts[1..])
  }

  function Join(parts: seq<string>): string {
    if |parts| == 0 then "" else parts[0] + Rest(parts[1..])
  }

  function Members(texts: seq<(string, string)>): (r: seq<string>)
    ensures |r| == |texts|
  {
    seq(|texts|, i requires 0 <= i < |texts| => Quote(texts[i].0) + ":" + texts[i].1)
  }

  function ByLabel(leq: (string, string) -> bool): ((string, string), (string, string)) -> bool {
    (a: (string, string), b: (string, string)) => leq(a.0, b.0)
  }

  function ByKey(leq: (string, string) -> bool): (Member, Member) -> bool {
    (a: Member, b: Member) => leq(a.key, b.key)
  }

  /** Recursive printer with object members in the order `leq` gives their keys. */
  function SortedText(leq: (string, string) -> bool, v: Json): string
    decreases v, 1
  {
    match v
    case Null => "null"
    case Bool(b) => if b then "true" else "false"
    case Int(n) => IntText(n)
    case Float(text) => text
    case Str(s) => Quote(s)
    case Arr(items) => "[" + Join(ItemTexts(leq, items)) + "]"
    case Obj(fields) => "{" + Join(Members(Sort(ByLabel(leq), FieldTexts(leq, fields)))) + "}"
  }

  function ItemTexts(leq: (string, string) -> bool, items: seq<Json>): (r: seq<string>)
    ensures |r| == |items|
    decreases items, 0
  {
    if |items| == 0 then [] else [SortedText(leq, items[0])] + ItemTexts(leq, items[1..])
  }

  function FieldTexts(leq: (string, string) -> bool, fields: seq<Member>): (r: seq<(string, string)>)
    ensures |r| == |fields|
    decreases fields, 0
  {
    if |fields| == 0 then []
    else [(fields[0].key, SortedText(leq, fields[0].value))] + FieldTexts(leq, fields[1..])
  }

  /** Ruby's `canonical_json`: keys in code-point order. */
  function CanonicalJson(v: Json): string { SortedText(StringLeq, v) }

  /** The runner kit's `stable`: keys in the collation order of `localeCompare`. */
  function Stable(collate: (string, string) -> bool, v: Json): string { SortedText(collate, v) }

  // ---------------------------------------------------------------- equality of JSON values

  /** Equality that reads objects as unordered maps. */
  ghost predicate Same(a: Json, b: Json) {
    match (a, b)
    case (Arr(x), Arr(y)) => |x| == |y| && forall i :: 0 <= i < |x| ==> Same(x[i], y[i])
    case (Obj(f), Obj(g)) =>
      && (forall k :: k in Keys(f) <==> k in Keys(g))
      && forall i, j :: 0 <= i < |f| && 0 <= j < |g| && f[i].key == g[j].key ==> Same(f[i].value, g[j].value)
    case _ => a == b
  }

  lemma {:induction false} SameItself(v: Json)
    requires WellFormed(v)
    ensures Same(v, v)
  {
    match v
    case Arr(items) =>
      forall i | 0 <= i < |items| ensures Same(items[i], items[i]) { SameItself(items[i]); }
    case Obj(f) =>
      forall i, j | 0 <= i < |f| && 0 <= j < |f| && f[i].key == f[j].key ensures Same(f[i].value, f[j].value) {
        assert Keys(f)[i] == Keys(f)[j];
        SameItself(f[i].value);
      }
    case _ =>
  }

  // ---------------------------------------------------------------- normal forms

  /** The same value with every object's members sorted by key. */
  function Normal(leq: (string, string) -> bool, v: Json): Json
    decreases v, 1
  {
    match v
    case Arr(items) => Arr(NormalItems(leq, items))
    case Obj(fields) => Obj(Sort(ByKey(leq), NormalFields(leq, fields)))
    case _ => v
  }

  function NormalItems(leq: (string, string) -> bool, items: seq<Json>): (r: seq<Json>)
    ensures |r| == |items|
    ensures forall i :: 0 <= i < |items| ==> r[i] == Normal(leq, items[i])
    decreases items, 0
  {
    if |items| == 0 then [] else [Normal(leq, items[0])] + NormalItems(leq, items[1..])
  }

  function NormalFields(leq: (string, string) -> bool, fields: seq<Member>): (r: seq<Member>)
    ensures |r| == |fields|
    ensures forall i :: 0 <= i < |fields| ==> r[i] == Member(fields[i].key, Normal(leq, fields[i].value))
    decreases fields, 0
  {
    if |fields| == 0 then []
    else [Member(fields[0].key, Normal(leq, fields[0].value))] + NormalFields(leq, fields[1..])
  }

  /** Printing without any sorting. */
  function PlainText(v: Json): string
    decreases v, 1
  {
    match v
    case Null => "null"
    case Bool(b) => if b then "true" else "false"
    case Int(n) => IntText(n)
    case Float(text) => text
    case Str(s) => Quote(s)
    case Arr(items) => "[" + Join(PlainItems(items)) + "]"
    case Obj(fields) => "{" + Join(Members(PlainFields(fields))) + "}"
  }

  function PlainItems(items: seq<Json>): (r: seq<string>)
    ensures |r| == |items|
    decreases items, 0
  {
    if |items| == 0 then [] else [PlainText(items[0])] + PlainItems(items[1..])
  }

  function PlainFields(fields: seq<Member>): (r: seq<(string, string)>)
    ensures |r| == |fields|
    ensures forall i :: 0 <= i < |fields| ==> r[i] == (fields[i].key, PlainText(fields[i].value))
    decreases fields, 0
  {
    if |fields| == 0 then []
    else [(fields[0].key, PlainText(fields[0].value))] + PlainFields(fields[1..])
  }
}
