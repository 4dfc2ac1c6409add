/** The texts the conformance tools print are read back as the values they print. */
module JsonReads {
  import opened Prelude
  import opened Decimal
  import opened Numbers
  import opened Sorting
  import opened Json
  import opened JsonReader
  import Canonical

  // ---------------------------------------------------------------- tokens

  lemma {:induction false} NoBlank(text: string)
    requires text == "" || !IsBlank(text[0])
    ensures SkipBlanks(text) == text
  {
  }

  lemma {:induction false} HexOfDigit(d: int)
    requires 0 <= d < 16
    ensures HexOf(HexDigit(d)) == Some(d)
  {
  }

  lemma {:induction false} EscapeReads(c: char, rest: string)
    ensures EscapeChar(c) != "" && EscapeChar(c)[0] != '\"' && EscapeChar(c)[0] as int >= 0x20
    ensures EscapeChar(c)[0] == '\\' ==> ReadEscape((EscapeChar(c) + rest)[1..]) == Some(Read(c, rest))
    ensures EscapeChar(c)[0] != '\\' ==> EscapeChar(c) == [c]
  {
    var code, text := c as int, EscapeChar(c) + rest;
    if |EscapeChar(c)| == 2 {
      assert text[1..] == [EscapeChar(c)[1]] + rest && text[1..][1..] == rest;
    } else if |EscapeChar(c)| == 6 {
      UnitReads(c, rest);
      assert text[1..] == "u00" + [HexDigit(code / 16), HexDigit(code % 16)] + rest;
    }
  }

  lemma {:induction false} UnitReads(c: char, rest: string)
    requires c as int < 32
    ensures ReadEscape("u00" + [HexDigit(c as int / 16), HexDigit(c as int % 16)] + rest) == Some(Read(c, rest))
  {
    var code := c as int;
    var text := "u00" + [HexDigit(code / 16), HexDigit(code % 16)] + rest;
    HexOfDigit(code / 16);
    HexOfDigit(code % 16);
    assert text[0] == 'u' && text[1..][0] == '0' && text[1..][1] == '0';
    assert text[1..][2] == HexDigit(code / 16) && text[1..][3] == HexDigit(code % 16);
    assert text[1..][4..] == rest;
  }

  lemma {:induction false} CharReads(c: char, s: string, tail: string, rest: string)
    requires ReadString(tail) == Some(Read(s, rest))
    ensures ReadString(EscapeChar(c) + tail) == Some(Read([c] + s, rest))
  {
    EscapeReads(c, tail);
    var text := EscapeChar(c) + tail;
    assert text[0] == EscapeChar(c)[0];
    if EscapeChar(c) == [c] {
      assert text[1..] == tail;
    }
  }

  lemma {:induction false} EscapedHead(s: string, rest: string)
    requires |s| > 0
    ensures Escape(s) + "\"" + rest == EscapeChar(s[0]) + (Escape(s[1..]) + "\"" + rest)
  {
  }

  lemma {:induction false} StringReads(s: string, rest: string)
    ensures ReadString(Escape(s) + "\"" + rest) == Some(Read(s, rest))
  {
    if |s| == 0 {
      assert Escape(s) + "\"" + rest == "\"" + rest;
      assert ("\"" + rest)[1..] == rest;
    } else {
      StringReads(s[1..], rest);
      CharReads(s[0], s[1..], Escape(s[1..]) + "\"" + rest, rest);
      EscapedHead(s, rest);
      assert s == [s[0]] + s[1..];
    }
  }

  lemma {:induction false} QuoteReads(s: string, rest: string)
    ensures (Quote(s) + rest)[0] == '\"' && ReadString((Quote(s) + rest)[1..]) == Some(Read(s, rest))
  {
    StringReads(s, rest);
    assert (Quote(s) + rest)[1..] == Escape(s) + "\"" + rest;
  }

  lemma {:induction false} IntReads(n: int, rest: string)
    requires Ends(rest)
    ensures ReadNumber(IntText(n) + rest) == Some(Read(Int(n), rest))
  {
    var m := if n < 0 then -n else n;
    NatIsWhole(if n < 0 then "-" else "", m);
    NatTextValue(m);
    NumberInFront(IntText(n), rest);
    var text := IntText(n) + rest;
    assert n >= 0 ==> "" + NatText(m) == NatText(m);
    assert text[..|IntText(n)|] == IntText(n) && text[|IntText(n)|..] == rest;
    assert IntText(n)[0] == '-' <==> n < 0 by {
      assert n >= 0 ==> NatText(m)[0] in NatText(m);
    }
    assert n < 0 ==> IntText(n)[1..] == NatText(m);
  }

  lemma {:induction false} FloatReads(digits: string, rest: string)
    requires IsFloatText(digits) && Ends(rest)
    ensures ReadNumber(digits + rest) == Some(Read(Float(digits), rest))
  {
    NumberInFront(digits, rest);
    assert (digits + rest)[..|digits|] == digits && (digits + rest)[|digits|..] == rest;
  }

  // ---------------------------------------------------------------- values

  /** What may follow a value: the end, a comma or a closing bracket. */
  predicate Closes(rest: string) { rest == "" || rest[0] == ',' || rest[0] == ']' || rest[0] == '}' }

  /** How a printed value starts. */
  lemma {:induction false} FirstChar(v: Json)
    requires WellFormed(v)
    ensures PlainText(v) != "" && !IsBlank(PlainText(v)[0])
    ensures v.Null? <==> PlainText(v)[0] == 'n'
    ensures v.Bool? <==> PlainText(v)[0] == 't' || PlainText(v)[0] == 'f'
    ensures v.Str? <==> PlainText(v)[0] == '\"'
    ensures v.Arr? <==> PlainText(v)[0] == '['
    ensures v.Obj? <==> PlainText(v)[0] == '{'
    ensures PlainText(v)[0] != ']' && PlainText(v)[0] != '}'
  {
    if v.Int? || v.Float? {
      Canonical.NumberTextShape(v);
    }
  }

  lemma {:induction false} WordReads(v: Json, rest: string)
    requires v.Null? || v.Bool?
    ensures ReadValue(PlainText(v) + rest) == Some(Read(v, rest))
  {
    var word := PlainText(v);
    var text := word + rest;
    assert text[0] == word[0] && word <= text && text[|word|..] == rest;
    NoBlank(text);
  }

  lemma {:induction false} NumberReads(v: Json, rest: string)
    requires (v.Int? || v.Float?) && WellFormed(v) && Closes(rest)
    ensures ReadValue(PlainText(v) + rest) == Some(Read(v, rest))
  {
    var text := PlainText(v) + rest;
    FirstChar(v);
    NoBlank(text);
    if v.Int? {
      IntReads(v.n, rest);
    } else {
      FloatReads(v.text, rest);
    }
  }

  lemma {:induction false} TextReads(s: string, rest: string)
    ensures ReadValue(Quote(s) + rest) == Some(Read(Str(s), rest))
  {
    QuoteReads(s, rest);
    NoBlank(Quote(s) + rest);
  }

  lemma {:induction false} BracketReads(items: seq<Json>, body: string, rest: string)
    requires ReadList(body) == Some(Read(items, rest))
    ensures ReadValue("[" + body) == Some(Read(Arr(items), rest))
  {
    NoBlank("[" + body);
    assert ("[" + body)[1..] == body;
  }

  lemma {:induction false} BraceReads(fields: seq<Member>, body: string, rest: string)
    requires ReadHash(body) == Some(Read(fields, rest))
    ensures ReadValue("{" + body) == Some(Read(Obj(fields), rest))
  {
    NoBlank("{" + body);
    assert ("{" + body)[1..] == body;
  }

  lemma {:induction false} Grouped(open: string, body: string, close: string, rest: string)
    ensures open + body + close + rest == open + (body + close + rest)
  {
  }

  /** A printed value in front of anything that may follow one is read back, and the rest is left. */
  lemma {:induction false} PlainReads(v: Json, rest: string)
    requires WellFormed(v) && Closes(rest)
    ensures ReadValue(PlainText(v) + rest) == Some(Read(v, rest))
    decreases v, 2
  {
    match v
    case Str(s) => TextReads(s, rest);
    case Arr(items) =>
      ListReads(items, rest);
      BracketReads(items, Join(PlainItems(items)) + "]" + rest, rest);
      Grouped("[", Join(PlainItems(items)), "]", rest);
    case Obj(fields) =>
      HashReads(fields, rest);
      BraceReads(fields, Join(Members(PlainFields(fields))) + "}" + rest, rest);
      Grouped("{", Join(Members(PlainFields(fields))), "}", rest);
    case Null => WordReads(v, rest);
    case Bool(_) => WordReads(v, rest);
    case _ => NumberReads(v, rest);
  }

  lemma {:induction false} LastItem(first: Json, text: string, rest: string)
    requires ReadValue(text) == Some(Read(first, "]" + rest))
    ensures ReadItems(text) == Some(Read([first], rest))
  {
    NoBlank("]" + rest);
    assert ("]" + rest)[1..] == rest;
  }

  lemma {:induction false} NextItem(first: Json, more: seq<Json>, text: string, tail: string, rest: string)
    requires ReadValue(text) == Some(Read(first, "," + tail)) && ReadItems(tail) == Some(Read(more, rest))
    ensures ReadItems(text) == Some(Read([first] + more, rest))
  {
    NoBlank("," + tail);
    assert ("," + tail)[1..] == tail;
  }

  lemma {:induction false} LastField(first: Member, text: string, rest: string)
    requires ReadMember(text) == Some(Read(first, "}" + rest))
    ensures ReadFields(text) == Some(Read([first], rest))
  {
    NoBlank("}" + rest);
    assert ("}" + rest)[1..] == rest;
  }

  lemma {:induction false} NextField(first: Member, more: seq<Member>, text: string, tail: string, rest: string)
    requires ReadMember(text) == Some(Read(first, "," + tail)) && ReadFields(tail) == Some(Read(more, rest))
    ensures ReadFields(text) == Some(Read([first] + more, rest))
  {
    NoBlank("," + tail);
    assert ("," + tail)[1..] == tail;
  }

  /** Behind the first part, the parts are a comma and the others joined. */
  lemma {:induction false} RestIsJoin(parts: seq<string>)
    requires |parts| > 0
    ensures Rest(parts) == "," + Join(parts)
  {
  }

  lemma {:induction false} ListReads(items: seq<Json>, rest: string)
    requires forall i :: 0 <= i < |items| ==> WellFormed(items[i])
    ensures ReadList(Join(PlainItems(items)) + "]" + rest) == Some(Read(items, rest))
    decreases items, 2
  {
    var text := Join(PlainItems(items)) + "]" + rest;
    if |items| == 0 {
      assert text == "]" + rest && text[1..] == rest;
    } else {
      FirstChar(items[0]);
      assert text[0] == PlainText(items[0])[0];
      NoBlank(text);
      ItemsRead(items, rest);
    }
  }

  lemma {:induction false} OneItem(items: seq<Json>, rest: string)
    requires |items| == 1 && WellFormed(items[0])
    ensures ReadItems(Join(PlainItems(items)) + "]" + rest) == Some(Read(items, rest))
    decreases items, 0
  {
    var text := Join(PlainItems(items)) + "]" + rest;
    assert text == PlainText(items[0]) + ("]" + rest);
    PlainReads(items[0], "]" + rest);
    LastItem(items[0], text, rest);
    assert items == [items[0]];
  }

  lemma {:induction false} MoreItems(items: seq<Json>, more: seq<Json>, tail: string, rest: string)
    requires |items| > 1 && WellFormed(items[0]) && more == items[1..]
    requires tail == Join(PlainItems(more)) + "]" + rest && ReadItems(tail) == Some(Read(more, rest))
    ensures ReadItems(Join(PlainItems(items)) + "]" + rest) == Some(Read(items, rest))
    decreases items, 0
  {
    var text := Join(PlainItems(items)) + "]" + rest;
    RestIsJoin(PlainItems(more));
    assert text == PlainText(items[0]) + ("," + tail);
    PlainReads(items[0], "," + tail);
    NextItem(items[0], more, text, tail, rest);
    assert items == [items[0]] + more;
  }

  lemma {:induction false} ItemsRead(items: seq<Json>, rest: string)
    requires |items| > 0 && forall i :: 0 <= i < |items| ==> WellFormed(items[i])
    ensures ReadItems(Join(PlainItems(items)) + "]" + rest) == Some(Read(items, rest))
    decreases items, 1
  {
    if |items| == 1 {
      OneItem(items, rest);
    } else {
      ItemsRead(items[1..], rest);
      MoreItems(items, items[1..], Join(PlainItems(items[1..])) + "]" + rest, rest);
    }
  }

  lemma {:induction false} MemberReads(m: Member, rest: string)
    requires WellFormed(m.value) && Closes(rest)
    ensures ReadMember(Quote(m.key) + ":" + PlainText(m.value) + rest) == Some(Read(m, rest))
    decreases m, 3
  {
    var value := PlainText(m.value) + rest;
    var text := Quote(m.key) + ":" + PlainText(m.value) + rest;
    assert text == Quote(m.key) + (":" + value);
    QuoteReads(m.key, ":" + value);
    NoBlank(text);
    NoBlank(":" + value);
    assert (":" + value)[1..] == value;
    PlainReads(m.value, rest);
  }

  lemma {:induction false} HashReads(fields: seq<Member>, rest: string)
    requires forall i :: 0 <= i < |fields| ==> WellFormed(fields[i].value)
    ensures ReadHash(Join(Members(PlainFields(fields))) + "}" + rest) == Some(Read(fields, rest))
    decreases fields, 2
  {
    if |fields| == 0 {
      NoFields(fields, rest);
    } else {
      FieldsStart(fields, rest);
      FieldsRead(fields, rest);
    }
  }

  lemma {:induction false} NoFields(fields: seq<Member>, rest: string)
    requires |fields| == 0
    ensures ReadHash(Join(Members(PlainFields(fields))) + "}" + rest) == Some(Read(fields, rest))
  {
    var text := Join(Members(PlainFields(fields))) + "}" + rest;
    assert Members(PlainFields(fields)) == [];
    assert text == "}" + rest && text[1..] == rest;
  }

  lemma {:induction false} FieldsStart(fields: seq<Member>, rest: string)
    requires |fields| > 0
    ensures var text := Join(Members(PlainFields(fields))) + "}" + rest;
      text != "" && text[0] == '\"' && SkipBlanks(text) == text
  {
    var text := Join(Members(PlainFields(fields))) + "}" + rest;
    var tail := Canonical.MembersHead(fields);
    assert text[0] == '\"';
    NoBlank(text);
  }

  lemma {:induction false} LastText(fields: seq<Member>, rest: string)
    requires |fields| == 1
    ensures Join(Members(PlainFields(fields))) + "}" + rest ==
      Quote(fields[0].key) + ":" + PlainText(fields[0].value) + ("}" + rest)
  {
    var parts := Canonical.MembersHead(fields);
    assert parts == [];
  }

  lemma {:induction false} NextText(fields: seq<Member>, rest: string)
    requires |fields| > 1
    ensures Join(Members(PlainFields(fields))) + "}" + rest ==
      Quote(fields[0].key) + ":" + PlainText(fields[0].value) +
        ("," + (Join(Members(PlainFields(fields[1..]))) + "}" + rest))
  {
    var parts := Canonical.MembersHead(fields);
    var first := Quote(fields[0].key) + ":" + PlainText(fields[0].value);
    RestIsJoin(parts);
    assert ([first] + parts)[1..] == parts;
  }

  lemma {:induction false} OnlyReads(fields: seq<Member>, rest: string)
    requires |fields| == 1 && WellFormed(fields[0].value)
    ensures ReadFields(Join(Members(PlainFields(fields))) + "}" + rest) == Some(Read(fields, rest))
    decreases fields, 0
  {
    LastText(fields, rest);
    MemberReads(fields[0], "}" + rest);
    LastField(fields[0], Join(Members(PlainFields(fields))) + "}" + rest, rest);
    assert fields == [fields[0]];
  }

  lemma {:induction false} FirstReads(fields: seq<Member>, more: seq<Member>, tail: string, rest: string)
    requires |fields| > 1 && WellFormed(fields[0].value) && more == fields[1..]
    requires tail == Join(Members(PlainFields(more))) + "}" + rest && ReadFields(tail) == Some(Read(more, rest))
    ensures ReadFields(Join(Members(PlainFields(fields))) + "}" + rest) == Some(Read(fields, rest))
    decreases fields, 0
  {
    NextText(fields, rest);
    MemberReads(fields[0], "," + tail);
    NextField(fields[0], more, Join(Members(PlainFields(fields))) + "}" + rest, tail, rest);
    assert fields == [fields[0]] + more;
  }

  lemma {:induction false} FieldsRead(fields: seq<Member>, rest: string)
    requires |fields| > 0 && forall i :: 0 <= i < |fields| ==> WellFormed(fields[i].value)
    ensures ReadFields(Join(Members(PlainFields(fields))) + "}" + rest) == Some(Read(fields, rest))
    decreases fields, 1
  {
    if |fields| == 1 {
      OnlyReads(fields, rest);
    } else {
      FieldsRead(fields[1..], rest);
      FirstReads(fields, fields[1..], Join(Members(PlainFields(fields[1..]))) + "}" + rest, rest);
    }
  }

  // ---------------------------------------------------------------- sorted texts

  lemma {:induction false} NormalIsSame(leq: (string, string) -> bool, v: Json)
    requires WellFormed(v)
    ensures Same(Normal(leq, v), v)
  {
    match v
    case Arr(items) =>
      forall i | 0 <= i < |items| ensures Same(Normal(leq, items[i]), items[i]) {
        NormalIsSame(leq, items[i]);
      }
    case Obj(fields) =>
      forall i | 0 <= i < |fields| ensures Same(Normal(leq, fields[i].value), fields[i].value) {
        NormalIsSame(leq, fields[i].value);
      }
      NormalMembersSame(leq, fields);
    case _ =>
  }

  lemma {:induction false} NormalMembersSame(leq: (string, string) -> bool, fields: seq<Member>)
    requires Distinct(Keys(fields))
    requires forall i :: 0 <= i < |fields| ==> Same(Normal(leq, fields[i].value), fields[i].value)
    ensures Same(Normal(leq, Obj(fields)), Obj(fields))
  {
    var labelled := NormalFields(leq, fields);
    var sorted := Sort(ByKey(leq), labelled);
    Canonical.NormalFieldKeys(leq, fields);
    Canonical.MatchingMembers(sorted, labelled);
    forall i, j | 0 <= i < |sorted| && 0 <= j < |fields| && sorted[i].key == fields[j].key
      ensures Same(sorted[i].value, fields[j].value)
    {
      assert sorted[i] == labelled[j];
    }
  }

  /**
   * What a tool prints in any order of keys, `canonical_json` and `stable` alike, a reader by the
   * grammar takes for the value with its members in that order: the same value up to the order.
   */
  lemma {:induction false} SortedTextReads(leq: (string, string) -> bool, v: Json)
    requires WellFormed(v)
    ensures ReadText(SortedText(leq, v)) == Some(Normal(leq, v)) && Same(Normal(leq, v), v)
  {
    var text := SortedText(leq, v);
    Canonical.SortedTextIsNormalText(leq, v);
    Canonical.NormalWellFormed(leq, v);
    PlainReads(Normal(leq, v), "");
    assert text + "" == text;
    NormalIsSame(leq, v);
  }

  // ---------------------------------------------------------------- the order of members

  /** In code-point order: the longer text, or the greater character where they first differ. */
  ghost predicate Precedes(a: string, b: string) { exists i :: PrecedesAt(a, b, i) }

  ghost predicate PrecedesAt(a: string, b: string, i: int) {
    && 0 <= i <= |a| && i < |b| && a[..i] == b[..i]
    && (i < |a| ==> (a[i] as int) < (b[i] as int))
  }

  ghost predicate KeysAscend(fields: seq<Member>) {
    forall i, j :: 0 <= i < j < |fields| ==> Precedes(fields[i].key, fields[j].key)
  }

  /** The keys of every object inside ascend. */
  ghost predicate Ascends(v: Json) {
    match v
    case Arr(items) => forall i :: 0 <= i < |items| ==> Ascends(items[i])
    case Obj(fields) =>
      KeysAscend(fields) && forall i :: 0 <= i < |fields| ==> Ascends(fields[i].value)
    case _ => true
  }

  lemma {:induction false} StringLeqPrecedes(a: string, b: string)
    ensures StringLeq(a, b) <==> a == b || Precedes(a, b)
  {
    if |a| == 0 || |b| == 0 {
      assert |b| > 0 ==> PrecedesAt("", b, 0);
      assert |a| == 0 ==> a == "";
    } else if a[0] != b[0] {
      if a[0] < b[0] {
        assert PrecedesAt(a, b, 0);
      }
      assert forall i :: i > 0 && PrecedesAt(a, b, i) ==> a[..i][0] == b[..i][0];
    } else {
      var x, y := a[1..], b[1..];
      StringLeqPrecedes(x, y);
      assert a == [a[0]] + x && b == [b[0]] + y;
      if i :| PrecedesAt(x, y, i) {
        assert a[..i + 1] == [a[0]] + x[..i] && b[..i + 1] == [b[0]] + y[..i];
        assert PrecedesAt(a, b, i + 1);
      }
      if i :| PrecedesAt(a, b, i) {
        assert x[..i - 1] == a[..i][1..] && y[..i - 1] == b[..i][1..];
        assert PrecedesAt(x, y, i - 1);
      }
    }
  }

  lemma {:induction false} NormalAscends(v: Json)
    requires WellFormed(v)
    ensures Ascends(Normal(StringLeq, v))
  {
    match v
    case Arr(items) =>
      forall i | 0 <= i < |items| ensures Ascends(Normal(StringLeq, items[i])) {
        NormalAscends(items[i]);
      }
    case Obj(fields) =>
      forall i | 0 <= i < |fields| ensures Ascends(Normal(StringLeq, fields[i].value)) {
        NormalAscends(fields[i].value);
      }
      SortedKeysAscend(fields);
      var sorted := Sort(ByKey(StringLeq), NormalFields(StringLeq, fields));
      forall i | 0 <= i < |sorted| ensures Ascends(sorted[i].value) {
        var h := IndexIn(sorted[i], sorted, NormalFields(StringLeq, fields));
        assert NormalFields(StringLeq, fields)[h].value == Normal(StringLeq, fields[h].value);
      }
    case _ =>
  }

  lemma {:induction false} SortedKeysAscend(fields: seq<Member>)
    requires Distinct(Keys(fields))
    ensures KeysAscend(Sort(ByKey(StringLeq), NormalFields(StringLeq, fields)))
  {
    var labelled := NormalFields(StringLeq, fields);
    var sorted := Sort(ByKey(StringLeq), labelled);
    StringLeqOrder();
    Canonical.NormalFieldKeys(StringLeq, fields);
    Canonical.KeyOrderOnMembers(StringLeq, labelled);
    SortSorts(ByKey(StringLeq), labelled);
    Canonical.SortedKeysDistinct(labelled, sorted);
    forall i, j | 0 <= i < j < |sorted| ensures Precedes(sorted[i].key, sorted[j].key) {
      assert ByKey(StringLeq)(sorted[i], sorted[j]);
      assert Keys(sorted)[i] != Keys(sorted)[j];
      StringLeqPrecedes(sorted[i].key, sorted[j].key);
    }
  }

  /** `canonical_json` is read back as the value it was given, with the keys of every hash ascending. */
  lemma {:induction false} CanonicalJsonReads(v: Json)
    requires WellFormed(v)
    ensures ReadText(CanonicalJson(v)).Some?
    ensures Same(ReadText(CanonicalJson(v)).value, v) && Ascends(ReadText(CanonicalJson(v)).value)
  {
    SortedTextReads(StringLeq, v);
    NormalAscends(v);
  }

  /** `stable` is read back as the value it was given, whatever the collation. */
  lemma {:induction false} StableReads(collate: (string, string) -> bool, v: Json)
    requires WellFormed(v)
    ensures ReadText(Stable(collate, v)).Some? && Same(ReadText(Stable(collate, v)).value, v)
  {
    SortedTextReads(collate, v);
  }
}
