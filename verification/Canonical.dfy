/** Two values print the same canonical text exactly when they are equal with objects read as unordered maps. */
module Canonical {
  // Printing factors through a normal form with sorted members; plain printing is prefix-free, and
  // the normal form decides `Same`.

  import opened Decimal
  import opened Numbers
  import opened Prelude
  import opened Sorting
  import opened Json

  // ---------------------------------------------------------------- printing in front of a continuation

  /** Text as a list of characters, so that what follows a token is a subterm. */
  datatype Chars = End | Cons(head: char, tail: Chars)

  function Chain(s: string, k: Chars): Chars {
    if |s| == 0 then k else Cons(s[0], Chain(s[1..], k))
  }

  lemma {:induction false} ChainConcat(s: string, t: string, k: Chars)
    ensures Chain(s + t, k) == Chain(s, Chain(t, k))
  {
    if |s| == 0 {
      assert s + t == t;
    } else {
      assert (s + t)[1..] == s[1..] + t;
      ChainConcat(s[1..], t, k);
    }
  }

  lemma {:induction false} ChainInjective(s: string, t: string)
    requires Chain(s, End) == Chain(t, End)
    ensures s == t
  {
    if |s| > 0 && |t| > 0 {
      ChainInjective(s[1..], t[1..]);
      assert s == [s[0]] + s[1..] && t == [t[0]] + t[1..];
    }
  }

  function EscapeCharTo(c: char, k: Chars): Chars {
    var code := c as int;
    if c == '\"' then Cons('\\', Cons('\"', k))
    else if c == '\\' then Cons('\\', Cons('\\', k))
    else if code == 8 then Cons('\\', Cons('b', k))
    else if code == 9 then Cons('\\', Cons('t', k))
    else if code == 10 then Cons('\\', Cons('n', k))
    else if code == 12 then Cons('\\', Cons('f', k))
    else if code == 13 then Cons('\\', Cons('r', k))
    else if code < 32 then
      Cons('\\', Cons('u', Cons('0', Cons('0', Cons(HexDigit(code / 16), Cons(HexDigit(code % 16), k))))))
    else Cons(c, k)
  }

  function EscapeTo(s: string, k: Chars): Chars {
    if |s| == 0 then k else EscapeCharTo(s[0], EscapeTo(s[1..], k))
  }

  function QuoteTo(s: string, k: Chars): Chars { Cons('\"', EscapeTo(s, Cons('\"', k))) }

  function PrintTo(v: Json, k: Chars): Chars
    decreases v, 1
  {
    match v
    case Null => Cons('n', Cons('u', Cons('l', Cons('l', k))))
    case Bool(b) =>
      if b then Cons('t', Cons('r', Cons('u', Cons('e', k))))
      else Cons('f', Cons('a', Cons('l', Cons('s', Cons('e', k)))))
    case Int(n) => Chain(IntText(n), k)
    case Float(text) => Chain(text, k)
    case Str(s) => QuoteTo(s, k)
    case Arr(items) => Cons('[', ItemsTo(items, Cons(']', k)))
    case Obj(fields) => Cons('{', MembersTo(fields, Cons('}', k)))
  }

  function ItemsTo(items: seq<Json>, k: Chars): Chars
    decreases items, 0
  {
    if |items| == 0 then k else PrintTo(items[0], RestItemsTo(items[1..], k))
  }

  function RestItemsTo(items: seq<Json>, k: Chars): Chars
    decreases items, 0
  {
    if |items| == 0 then k else Cons(',', PrintTo(items[0], RestItemsTo(items[1..], k)))
  }

  function MembersTo(fields: seq<Member>, k: Chars): Chars
    decreases fields, 0
  {
    if |fields| == 0 then k
    else QuoteTo(fields[0].key, Cons(':', PrintTo(fields[0].value, RestMembersTo(fields[1..], k))))
  }

  function RestMembersTo(fields: seq<Member>, k: Chars): Chars
    decreases fields, 0
  {
    if |fields| == 0 then k
    else Cons(',', QuoteTo(fields[0].key, Cons(':', PrintTo(fields[0].value, RestMembersTo(fields[1..], k)))))
  }

  // ---------------------------------------------------------------- the two printers agree

  /** Unrolls a short token one character at a time. */
  lemma {:induction false} ChainSteps(t: string, k: Chars)
    ensures forall i :: 0 <= i < |t| ==> Chain(t[i..], k) == Cons(t[i], Chain(t[i + 1..], k))
    ensures t[0..] == t && Chain(t[|t|..], k) == k
  {
    forall i | 0 <= i < |t| ensures Chain(t[i..], k) == Cons(t[i], Chain(t[i + 1..], k)) {
      assert t[i..][1..] == t[i + 1..];
    }
  }

  lemma {:induction false} EscapeCharAgrees(c: char, k: Chars)
    ensures Chain(EscapeChar(c), k) == EscapeCharTo(c, k)
  {
    var t := EscapeChar(c);
    ChainSteps(t, k);
    assert Chain(t, k) == Chain(t[0..], k) == Cons(t[0], Chain(t[1..], k));
    if |t| > 1 {
      assert Chain(t[1..], k) == Cons(t[1], Chain(t[2..], k));
    }
    if |t| == 6 {
      assert Chain(t[2..], k) == Cons(t[2], Cons(t[3], Chain(t[4..], k)));
      assert Chain(t[4..], k) == Cons(t[4], Cons(t[5], k));
    }
  }

  lemma {:induction false} EscapeAgrees(s: string, k: Chars)
    ensures Chain(Escape(s), k) == EscapeTo(s, k)
  {
    if |s| > 0 {
      ChainConcat(EscapeChar(s[0]), Escape(s[1..]), k);
      EscapeAgrees(s[1..], k);
      EscapeCharAgrees(s[0], EscapeTo(s[1..], k));
    }
  }

  lemma {:induction false} ChainOne(c: char, k: Chars)
    ensures Chain([c], k) == Cons(c, k)
  {
  }

  lemma {:induction false} QuoteAgrees(s: string, k: Chars)
    ensures Chain(Quote(s), k) == QuoteTo(s, k)
  {
    ChainConcat("\"" + Escape(s), "\"", k);
    ChainConcat("\"", Escape(s), Chain("\"", k));
    EscapeAgrees(s, Cons('\"', k));
    ChainOne('\"', k);
  }

  lemma {:induction false} Bracketed(open: char, body: string, close: char, k: Chars)
    ensures Chain([open] + body + [close], k) == Cons(open, Chain(body, Cons(close, k)))
  {
    ChainConcat([open] + body, [close], k);
    ChainConcat([open], body, Chain([close], k));
    ChainOne(close, k);
    ChainOne(open, Chain(body, Cons(close, k)));
  }

  lemma {:induction false} KeywordAgrees(v: Json, k: Chars)
    requires v.Null? || v.Bool?
    ensures Chain(PlainText(v), k) == PrintTo(v, k)
  {
    ChainSteps(PlainText(v), k);
  }

  lemma {:induction false} PrintAgrees(v: Json, k: Chars)
    ensures Chain(PlainText(v), k) == PrintTo(v, k)
    decreases v, 1
  {
    match v
    case Null => KeywordAgrees(v, k);
    case Bool(_) => KeywordAgrees(v, k);
    case Int(_) =>
    case Float(_) =>
    case Str(s) => QuoteAgrees(s, k);
    case Arr(items) =>
      Bracketed('[', Join(PlainItems(items)), ']', k);
      ItemsAgree(items, Cons(']', k));
    case Obj(fields) =>
      Bracketed('{', Join(Members(PlainFields(fields))), '}', k);
      MembersAgree(fields, Cons('}', k));
  }

  lemma {:induction false} ItemsAgree(items: seq<Json>, k: Chars)
    ensures Chain(Join(PlainItems(items)), k) == ItemsTo(items, k)
    ensures Chain(Rest(PlainItems(items)), k) == RestItemsTo(items, k)
    decreases items, 0
  {
    if |items| > 0 {
      var head, tail := PlainText(items[0]), PlainItems(items[1..]);
      assert PlainItems(items)[1..] == tail;
      ItemsAgree(items[1..], k);
      PrintAgrees(items[0], RestItemsTo(items[1..], k));
      ListAgrees(head, tail, k);
    }
  }

  /** Printing a nonempty separated list, as its first part and the rest. */
  lemma {:induction false} ListAgrees(head: string, tail: seq<string>, k: Chars)
    ensures Chain(Join([head] + tail), k) == Chain(head, Chain(Rest(tail), k))
    ensures Chain(Rest([head] + tail), k) == Cons(',', Chain(head, Chain(Rest(tail), k)))
  {
    assert ([head] + tail)[1..] == tail;
    ChainConcat(head, Rest(tail), k);
    ChainConcat("," + head, Rest(tail), k);
    ChainConcat(",", head, Chain(Rest(tail), k));
    ChainOne(',', Chain(head, Chain(Rest(tail), k)));
  }

  lemma {:induction false} MemberAgrees(key: string, value: string, k: Chars)
    ensures Chain(Quote(key) + ":" + value, k) == QuoteTo(key, Cons(':', Chain(value, k)))
  {
    ChainConcat(Quote(key) + ":", value, k);
    ChainConcat(Quote(key), ":", Chain(value, k));
    ChainOne(':', Chain(value, k));
    QuoteAgrees(key, Cons(':', Chain(value, k)));
  }

  lemma {:induction false} MembersAgree(fields: seq<Member>, k: Chars)
    ensures Chain(Join(Members(PlainFields(fields))), k) == MembersTo(fields, k)
    ensures Chain(Rest(Members(PlainFields(fields))), k) == RestMembersTo(fields, k)
    decreases fields, 0
  {
    if |fields| > 0 {
      var tail := MembersHead(fields);
      MembersAgree(fields[1..], k);
      PrintAgrees(fields[0].value, RestMembersTo(fields[1..], k));
      MemberInFront(fields[0].key, PlainText(fields[0].value), tail, k);
    }
  }

  lemma {:induction false} MembersHead(fields: seq<Member>) returns (tail: seq<string>)
    requires |fields| > 0
    ensures tail == Members(PlainFields(fields[1..]))
    ensures Members(PlainFields(fields)) == [Quote(fields[0].key) + ":" + PlainText(fields[0].value)] + tail
  {
    tail := Members(PlainFields(fields[1..]));
    MembersCons((fields[0].key, PlainText(fields[0].value)), PlainFields(fields[1..]));
  }

  lemma {:induction false} MembersCons(text: (string, string), texts: seq<(string, string)>)
    ensures Members([text] + texts) == [Quote(text.0) + ":" + text.1] + Members(texts)
  {
  }

  lemma {:induction false} MemberInFront(key: string, value: string, tail: seq<string>, k: Chars)
    ensures var parts, next := [Quote(key) + ":" + value] + tail,
      QuoteTo(key, Cons(':', Chain(value, Chain(Rest(tail), k))));
      Chain(Join(parts), k) == next && Chain(Rest(parts), k) == Cons(',', next)
  {
    ListAgrees(Quote(key) + ":" + value, tail, k);
    MemberAgrees(key, value, Chain(Rest(tail), k));
  }

  // ---------------------------------------------------------------- tokens are prefix-free

  lemma {:induction false} EscapeCharPrefixFree(c: char, d: char, k: Chars, l: Chars)
    requires EscapeCharTo(c, k) == EscapeCharTo(d, l)
    ensures c == d && k == l
  {
    if c as int < 32 && d as int < 32 {
      HexDigitInjective(c as int / 16, d as int / 16);
      HexDigitInjective(c as int % 16, d as int % 16);
    }
  }

  lemma {:induction false} HexDigitInjective(a: int, b: int)
    requires 0 <= a < 16 && 0 <= b < 16
    ensures HexDigit(a) == HexDigit(b) ==> a == b
  {
  }

  lemma {:induction false} EscapePrefixFree(s: string, t: string, k: Chars, l: Chars)
    requires EscapeTo(s, Cons('\"', k)) == EscapeTo(t, Cons('\"', l))
    ensures s == t && k == l
  {
    if |s| > 0 && |t| > 0 {
      EscapeCharPrefixFree(s[0], t[0], EscapeTo(s[1..], Cons('\"', k)), EscapeTo(t[1..], Cons('\"', l)));
      EscapePrefixFree(s[1..], t[1..], k, l);
      assert s == [s[0]] + s[1..] && t == [t[0]] + t[1..];
    }
  }

  lemma {:induction false} IntTextInjective(m: int, n: int)
    requires IntText(m) == IntText(n)
    ensures m == n
  {
    NatTextValue(if m < 0 then -m else m);
    NatTextValue(if n < 0 then -n else n);
    var t := IntText(m);
    assert t[0] in t;
    assert m < 0 ==> t[1..] == NatText(-m);
    assert n < 0 ==> t[1..] == NatText(-n);
    assert m >= 0 ==> t[0] in NatText(m);
    assert n >= 0 ==> t[0] in NatText(n);
  }

  predicate IsNumber(v: Json) { v.Int? || v.Float? }

  /** What may follow a value inside a document: nothing, or a character no number contains. */
  predicate Delimited(k: Chars) { k.End? || !IsNumberChar(k.head) }

  lemma {:induction false} NumberTextShape(v: Json)
    requires IsNumber(v) && WellFormed(v)
    ensures |PlainText(v)| > 0 && (IsDigit(PlainText(v)[0]) || PlainText(v)[0] == '-')
    ensures forall c :: c in PlainText(v) ==> IsNumberChar(c)
    ensures v.Int? ==> forall c :: c in PlainText(v) ==> c !in ".eE"
    ensures v.Float? ==> exists c :: c in PlainText(v) && c in ".eE"
  {
    if v.Int? {
      IntTextShape(v.n);
    } else {
      NumberChars(v.text);
      assert v.text[WholeLength(v.text)] in v.text;
    }
  }

  lemma {:induction false} IntTextShape(n: int)
    ensures |IntText(n)| > 0 && (IsDigit(IntText(n)[0]) || IntText(n)[0] == '-')
    ensures forall c :: c in IntText(n) ==> IsDigit(c) || c == '-'
  {
    var digits := NatText(if n < 0 then -n else n);
    NatTextValue(if n < 0 then -n else n);
    assert digits[0] in digits;
  }

  lemma {:induction false} NumberTokenEnds(a: string, b: string, k: Chars, l: Chars)
    requires forall c :: c in a ==> IsNumberChar(c)
    requires forall c :: c in b ==> IsNumberChar(c)
    requires Delimited(k) && Delimited(l)
    requires Chain(a, k) == Chain(b, l)
    ensures a == b && k == l
  {
    if |a| > 0 { assert a[0] in a; }
    if |b| > 0 { assert b[0] in b; }
    if |a| > 0 && |b| > 0 {
      NumberTokenEnds(a[1..], b[1..], k, l);
      assert a == [a[0]] + a[1..] && b == [b[0]] + b[1..];
    }
  }

  lemma {:induction false} NumberPrefixFree(a: Json, b: Json, k: Chars, l: Chars)
    requires IsNumber(a) && IsNumber(b) && WellFormed(a) && WellFormed(b)
    requires Delimited(k) && Delimited(l)
    requires PrintTo(a, k) == PrintTo(b, l)
    ensures a == b && k == l
  {
    NumberTextShape(a);
    NumberTextShape(b);
    NumberTokenEnds(PlainText(a), PlainText(b), k, l);
    if a.Int? && b.Int? {
      IntTextInjective(a.n, b.n);
    }
  }

  // ---------------------------------------------------------------- documents are prefix-free

  /** The leading character tells the kind of value apart, and closes or separates nothing. */
  lemma {:induction false} LeadingChar(v: Json, k: Chars)
    requires WellFormed(v)
    ensures PrintTo(v, k).Cons?
    ensures var c := PrintTo(v, k).head;
      && (c == 'n' <==> v.Null?)
      && (c == 't' || c == 'f' <==> v.Bool?)
      && (c == '\"' <==> v.Str?)
      && (c == '[' <==> v.Arr?)
      && (c == '{' <==> v.Obj?)
      && c != ']' && c != '}' && c != ','
  {
    if IsNumber(v) {
      NumberTextShape(v);
    }
  }

  ghost predicate ItemsWellFormed(items: seq<Json>) {
    forall i :: 0 <= i < |items| ==> WellFormed(items[i])
  }

  ghost predicate MembersWellFormed(fields: seq<Member>) {
    forall i :: 0 <= i < |fields| ==> WellFormed(fields[i].value)
  }

  /** A value followed by a delimiter is read in one way only. */
  lemma {:induction false} PrintPrefixFree(a: Json, b: Json, k: Chars, l: Chars)
    requires WellFormed(a) && WellFormed(b)
    requires Delimited(k) && Delimited(l)
    requires PrintTo(a, k) == PrintTo(b, l)
    ensures a == b && k == l
    decreases a, 1
  {
    LeadingChar(a, k);
    LeadingChar(b, l);
    match a
    case Null =>
    case Bool(_) =>
    case Int(_) => NumberPrefixFree(a, b, k, l);
    case Float(_) => NumberPrefixFree(a, b, k, l);
    case Str(s) => EscapePrefixFree(s, b.s, k, l);
    case Arr(items) => ItemsPrefixFree(items, b.items, k, l);
    case Obj(fields) => MembersPrefixFree(fields, b.fields, k, l);
  }

  lemma {:induction false} ItemsPrefixFree(a: seq<Json>, b: seq<Json>, k: Chars, l: Chars)
    requires ItemsWellFormed(a) && ItemsWellFormed(b)
    requires ItemsTo(a, Cons(']', k)) == ItemsTo(b, Cons(']', l))
    ensures a == b && k == l
    decreases a, 0
  {
    if |a| > 0 {
      LeadingChar(a[0], RestItemsTo(a[1..], Cons(']', k)));
      assert |b| > 0;
      PrintPrefixFree(a[0], b[0], RestItemsTo(a[1..], Cons(']', k)), RestItemsTo(b[1..], Cons(']', l)));
      RestItemsPrefixFree(a[1..], b[1..], k, l);
      assert a == [a[0]] + a[1..] && b == [b[0]] + b[1..];
    } else if |b| > 0 {
      LeadingChar(b[0], RestItemsTo(b[1..], Cons(']', l)));
    }
  }

  lemma {:induction false} RestItemsPrefixFree(a: seq<Json>, b: seq<Json>, k: Chars, l: Chars)
    requires ItemsWellFormed(a) && ItemsWellFormed(b)
    requires RestItemsTo(a, Cons(']', k)) == RestItemsTo(b, Cons(']', l))
    ensures a == b && k == l
    decreases a, 0
  {
    if |a| > 0 && |b| > 0 {
      PrintPrefixFree(a[0], b[0], RestItemsTo(a[1..], Cons(']', k)), RestItemsTo(b[1..], Cons(']', l)));
      RestItemsPrefixFree(a[1..], b[1..], k, l);
      assert a == [a[0]] + a[1..] && b == [b[0]] + b[1..];
    }
  }

  lemma {:induction false} MembersPrefixFree(a: seq<Member>, b: seq<Member>, k: Chars, l: Chars)
    requires MembersWellFormed(a) && MembersWellFormed(b)
    requires MembersTo(a, Cons('}', k)) == MembersTo(b, Cons('}', l))
    ensures a == b && k == l
    decreases a, 0
  {
    if |a| > 0 && |b| > 0 {
      MemberPrefixFree(a[0], b[0], RestMembersTo(a[1..], Cons('}', k)), RestMembersTo(b[1..], Cons('}', l)));
      RestMembersPrefixFree(a[1..], b[1..], k, l);
      assert a == [a[0]] + a[1..] && b == [b[0]] + b[1..];
    }
  }

  lemma {:induction false} RestMembersPrefixFree(a: seq<Member>, b: seq<Member>, k: Chars, l: Chars)
    requires MembersWellFormed(a) && MembersWellFormed(b)
    requires RestMembersTo(a, Cons('}', k)) == RestMembersTo(b, Cons('}', l))
    ensures a == b && k == l
    decreases a, 0
  {
    if |a| > 0 && |b| > 0 {
      MemberPrefixFree(a[0], b[0], RestMembersTo(a[1..], Cons('}', k)), RestMembersTo(b[1..], Cons('}', l)));
      RestMembersPrefixFree(a[1..], b[1..], k, l);
      assert a == [a[0]] + a[1..] && b == [b[0]] + b[1..];
    }
  }

  lemma {:induction false} MemberPrefixFree(a: Member, b: Member, k: Chars, l: Chars)
    requires WellFormed(a.value) && WellFormed(b.value)
    requires Delimited(k) && Delimited(l)
    requires QuoteTo(a.key, Cons(':', PrintTo(a.value, k))) == QuoteTo(b.key, Cons(':', PrintTo(b.value, l)))
    ensures a == b && k == l
    decreases a, 0
  {
    EscapePrefixFree(a.key, b.key, Cons(':', PrintTo(a.value, k)), Cons(':', PrintTo(b.value, l)));
    PrintPrefixFree(a.value, b.value, k, l);
  }

  lemma {:induction false} PlainTextInjective(a: Json, b: Json)
    requires WellFormed(a) && WellFormed(b)
    requires PlainText(a) == PlainText(b)
    ensures a == b
  {
    PrintAgrees(a, End);
    PrintAgrees(b, End);
    PrintPrefixFree(a, b, End, End);
  }

  // ---------------------------------------------------------------- printing sorts members

  lemma {:induction false} InsertLabels(leq: (string, string) -> bool, m: Member, fields: seq<Member>)
    ensures PlainFields(Insert(ByKey(leq), m, fields))
         == Insert(ByLabel(leq), (m.key, PlainText(m.value)), PlainFields(fields))
  {
    if |fields| > 0 && !leq(m.key, fields[0].key) {
      InsertLabels(leq, m, fields[1..]);
      assert PlainFields(fields)[1..] == PlainFields(fields[1..]);
    }
  }

  /** Sorting members and sorting their printed forms by key commute. */
  lemma {:induction false} SortLabels(leq: (string, string) -> bool, fields: seq<Member>)
    ensures PlainFields(Sort(ByKey(leq), fields)) == Sort(ByLabel(leq), PlainFields(fields))
  {
    if |fields| > 0 {
      SortLabels(leq, fields[1..]);
      InsertLabels(leq, fields[0], Sort(ByKey(leq), fields[1..]));
    }
  }

  /** Sorting while printing is printing the normal form. */
  lemma {:induction false} SortedTextIsNormalText(leq: (string, string) -> bool, v: Json)
    ensures SortedText(leq, v) == PlainText(Normal(leq, v))
    decreases v, 1
  {
    match v
    case Arr(items) => SortedItems(leq, items);
    case Obj(fields) =>
      SortedFields(leq, fields);
      SortLabels(leq, NormalFields(leq, fields));
    case _ =>
  }

  lemma {:induction false} SortedItems(leq: (string, string) -> bool, items: seq<Json>)
    ensures ItemTexts(leq, items) == PlainItems(NormalItems(leq, items))
    decreases items, 0
  {
    if |items| > 0 {
      SortedTextIsNormalText(leq, items[0]);
      SortedItems(leq, items[1..]);
    }
  }

  lemma {:induction false} SortedFields(leq: (string, string) -> bool, fields: seq<Member>)
    ensures FieldTexts(leq, fields) == PlainFields(NormalFields(leq, fields))
    decreases fields, 0
  {
    if |fields| > 0 {
      SortedTextIsNormalText(leq, fields[0].value);
      SortedFields(leq, fields[1..]);
    }
  }

  // ---------------------------------------------------------------- the normal form decides equality

  ghost predicate KeyOrder(leq: (string, string) -> bool) {
    TotalPreorder(leq) && forall a, b :: leq(a, b) && leq(b, a) ==> a == b
  }

  lemma {:induction false} KeyOrderOnMembers(leq: (string, string) -> bool, fields: seq<Member>)
    requires KeyOrder(leq) && Distinct(Keys(fields))
    ensures AntisymmetricOn(ByKey(leq), fields) && TotalPreorder(ByKey(leq))
    ensures Distinct(fields)
  {
    forall x: Member, y: Member ensures ByKey(leq)(x, y) || ByKey(leq)(y, x) {
      assert leq(x.key, y.key) || leq(y.key, x.key);
    }
    forall x: Member, y: Member, z: Member | ByKey(leq)(x, y) && ByKey(leq)(y, z) ensures ByKey(leq)(x, z) {
      assert leq(x.key, y.key) && leq(y.key, z.key);
    }
    forall x, y | x in fields && y in fields && leq(x.key, y.key) && leq(y.key, x.key) ensures x == y {
      var i :| 0 <= i < |fields| && fields[i] == x;
      var j :| 0 <= j < |fields| && fields[j] == y;
      assert Keys(fields)[i] == Keys(fields)[j];
    }
    forall i, j | 0 <= i < j < |fields| ensures fields[i] != fields[j] {
      assert Keys(fields)[i] != Keys(fields)[j];
    }
  }

  lemma {:induction false} NormalFieldKeys(leq: (string, string) -> bool, fields: seq<Member>)
    ensures Keys(NormalFields(leq, fields)) == Keys(fields)
  {
  }

  lemma {:induction false} NormalWellFormed(leq: (string, string) -> bool, v: Json)
    requires WellFormed(v)
    ensures WellFormed(Normal(leq, v))
  {
    match v
    case Arr(items) =>
      forall i | 0 <= i < |items| ensures WellFormed(Normal(leq, items[i])) {
        NormalWellFormed(leq, items[i]);
      }
    case Obj(fields) =>
      forall i | 0 <= i < |fields| ensures WellFormed(Normal(leq, fields[i].value)) {
        NormalWellFormed(leq, fields[i].value);
      }
      assert WellFormed(Obj(NormalFields(leq, fields))) by { NormalFieldKeys(leq, fields); }
      PermutedMembersWellFormed(NormalFields(leq, fields), Sort(ByKey(leq), NormalFields(leq, fields)));
    case _ =>
  }

  lemma {:induction false} SortedKeysDistinct(a: seq<Member>, b: seq<Member>)
    requires multiset(a) == multiset(b) && Distinct(Keys(a))
    ensures Distinct(Keys(b))
  {
    assert Distinct(a) by {
      forall i, j | 0 <= i < j < |a| ensures a[i] != a[j] { assert Keys(a)[i] != Keys(a)[j]; }
    }
    PermutationKeepsDistinct(a, b);
    forall i, j | 0 <= i < j < |b| ensures b[i].key != b[j].key {
      assert b[i] in multiset(a) && b[j] in multiset(a);
      var p :| 0 <= p < |a| && a[p] == b[i];
      var q :| 0 <= q < |a| && a[q] == b[j];
      assert Keys(a)[p] == b[i].key && Keys(a)[q] == b[j].key;
    }
  }

  lemma {:induction false} SameFieldsSameElements(leq: (string, string) -> bool, f: seq<Member>, g: seq<Member>)
    requires Same(Obj(f), Obj(g))
    requires forall i, j :: 0 <= i < |f| && 0 <= j < |g| && Same(f[i].value, g[j].value)
               ==> Normal(leq, f[i].value) == Normal(leq, g[j].value)
    ensures forall m :: m in NormalFields(leq, f) <==> m in NormalFields(leq, g)
  {
    forall m | m in NormalFields(leq, f) ensures m in NormalFields(leq, g) {
      var i :| 0 <= i < |f| && NormalFields(leq, f)[i] == m;
      assert Keys(f)[i] in Keys(g);
      var j :| 0 <= j < |g| && Keys(g)[j] == f[i].key;
      assert m == NormalFields(leq, g)[j];
    }
    forall m | m in NormalFields(leq, g) ensures m in NormalFields(leq, f) {
      var j :| 0 <= j < |g| && NormalFields(leq, g)[j] == m;
      assert Keys(g)[j] in Keys(f);
      var i :| 0 <= i < |f| && Keys(f)[i] == g[j].key;
      assert m == NormalFields(leq, f)[i];
    }
  }

  /** Values equal up to member order have one normal form. */
  lemma {:induction false} SameNormal(leq: (string, string) -> bool, a: Json, b: Json)
    requires KeyOrder(leq) && WellFormed(a) && WellFormed(b) && Same(a, b)
    ensures Normal(leq, a) == Normal(leq, b)
  {
    match a
    case Arr(items) =>
      forall i | 0 <= i < |items| ensures Normal(leq, items[i]) == Normal(leq, b.items[i]) {
        SameNormal(leq, items[i], b.items[i]);
      }
      assert NormalItems(leq, items) == NormalItems(leq, b.items);
    case Obj(f) =>
      var g := b.fields;
      forall i, j | 0 <= i < |f| && 0 <= j < |g| && Same(f[i].value, g[j].value)
        ensures Normal(leq, f[i].value) == Normal(leq, g[j].value)
      {
        SameNormal(leq, f[i].value, g[j].value);
      }
      SameFieldsSameElements(leq, f, g);
      SortedFieldsEqual(leq, NormalFields(leq, f), NormalFields(leq, g));
    case _ =>
  }

  lemma {:induction false} SortedFieldsEqual(leq: (string, string) -> bool, f: seq<Member>, g: seq<Member>)
    requires KeyOrder(leq) && Distinct(Keys(f)) && Distinct(Keys(g))
    requires forall m :: m in f <==> m in g
    ensures Sort(ByKey(leq), f) == Sort(ByKey(leq), g)
  {
    KeyOrderOnMembers(leq, f);
    KeyOrderOnMembers(leq, g);
    DistinctSameElements(f, g);
    SortEqualIffPermutation(ByKey(leq), f, g);
  }

  /** One normal form means equality up to member order. */
  lemma {:induction false} NormalSame(leq: (string, string) -> bool, a: Json, b: Json)
    requires WellFormed(a) && WellFormed(b) && Normal(leq, a) == Normal(leq, b)
    ensures Same(a, b)
  {
    match a
    case Arr(items) =>
      assert NormalItems(leq, items) == NormalItems(leq, b.items);
      forall i | 0 <= i < |items| ensures Same(items[i], b.items[i]) {
        assert NormalItems(leq, items)[i] == NormalItems(leq, b.items)[i];
        NormalSame(leq, items[i], b.items[i]);
      }
    case Obj(f) =>
      var g := b.fields;
      NormalFieldsMatch(leq, f, g);
      forall i, j | 0 <= i < |f| && 0 <= j < |g| && f[i].key == g[j].key ensures Same(f[i].value, g[j].value) {
        NormalSame(leq, f[i].value, g[j].value);
      }
    case _ =>
  }

  lemma {:induction false} NormalFieldsMatch(leq: (string, string) -> bool, f: seq<Member>, g: seq<Member>)
    requires Distinct(Keys(g))
    requires Sort(ByKey(leq), NormalFields(leq, f)) == Sort(ByKey(leq), NormalFields(leq, g))
    ensures forall k :: k in Keys(f) <==> k in Keys(g)
    ensures forall i, j :: 0 <= i < |f| && 0 <= j < |g| && f[i].key == g[j].key
               ==> Normal(leq, f[i].value) == Normal(leq, g[j].value)
  {
    var nf, ng := NormalFields(leq, f), NormalFields(leq, g);
    NormalFieldKeys(leq, f);
    NormalFieldKeys(leq, g);
    RelabelledMatch(f, g, nf, ng);
  }

  /** Relabelled members match by key whenever the relabelled lists are permutations. */
  lemma {:induction false} RelabelledMatch(f: seq<Member>, g: seq<Member>, nf: seq<Member>, ng: seq<Member>)
    requires Distinct(Keys(g))
    requires Keys(nf) == Keys(f) && Keys(ng) == Keys(g)
    requires multiset(nf) == multiset(ng)
    ensures forall k :: k in Keys(f) <==> k in Keys(g)
    ensures forall i, j :: 0 <= i < |f| && 0 <= j < |g| && f[i].key == g[j].key ==> nf[i] == ng[j]
  {
    MatchingMembers(nf, ng);
    forall i, j | 0 <= i < |f| && 0 <= j < |g| && f[i].key == g[j].key ensures nf[i] == ng[j] {
      assert Keys(f)[i] == Keys(nf)[i] && Keys(g)[j] == Keys(ng)[j];
    }
  }

  lemma {:induction false} MatchingMembers(f: seq<Member>, g: seq<Member>)
    requires Distinct(Keys(g))
    requires multiset(f) == multiset(g)
    ensures forall k :: k in Keys(f) <==> k in Keys(g)
    ensures forall i, j :: 0 <= i < |f| && 0 <= j < |g| && f[i].key == g[j].key ==> f[i] == g[j]
  {
    forall i | 0 <= i < |f| ensures f[i].key in Keys(g) {
      var h := IndexIn(f[i], f, g);
      assert Keys(g)[h] == f[i].key;
    }
    forall j | 0 <= j < |g| ensures g[j].key in Keys(f) {
      var h := IndexIn(g[j], g, f);
      assert Keys(f)[h] == g[j].key;
    }
    forall i, j | 0 <= i < |f| && 0 <= j < |g| && f[i].key == g[j].key ensures f[i] == g[j] {
      var h := IndexIn(f[i], f, g);
      assert Keys(g)[h] == f[i].key && Keys(g)[j] == g[j].key;
    }
  }

  // ---------------------------------------------------------------- main results

  /** Text with sorted members is the same exactly for values equal up to member order. */
  lemma {:induction false} SortedTextUnambiguous(leq: (string, string) -> bool, a: Json, b: Json)
    requires KeyOrder(leq) && WellFormed(a) && WellFormed(b)
    ensures SortedText(leq, a) == SortedText(leq, b) <==> Same(a, b)
  {
    SortedTextIsNormalText(leq, a);
    SortedTextIsNormalText(leq, b);
    if Same(a, b) {
      SameNormal(leq, a, b);
    }
    if SortedText(leq, a) == SortedText(leq, b) {
      NormalWellFormed(leq, a);
      NormalWellFormed(leq, b);
      PlainTextInjective(Normal(leq, a), Normal(leq, b));
      NormalSame(leq, a, b);
    }
  }

  lemma {:induction false} CanonicalJsonUnambiguous(a: Json, b: Json)
    requires WellFormed(a) && WellFormed(b)
    ensures CanonicalJson(a) == CanonicalJson(b) <==> Same(a, b)
  {
    StringLeqOrder();
    SortedTextUnambiguous(StringLeq, a, b);
  }

  /** Documents stay apart even inside a longer text: no canonical text continues another one. */
  lemma {:induction false} CanonicalJsonPrefixFree(a: Json, b: Json, x: string, y: string)
    requires WellFormed(a) && WellFormed(b)
    requires |x| > 0 ==> !IsNumberChar(x[0])
    requires |y| > 0 ==> !IsNumberChar(y[0])
    requires CanonicalJson(a) + x == CanonicalJson(b) + y
    ensures Same(a, b) && x == y
  {
    var na, nb := Normal(StringLeq, a), Normal(StringLeq, b);
    SortedTextIsNormalText(StringLeq, a);
    SortedTextIsNormalText(StringLeq, b);
    NormalWellFormed(StringLeq, a);
    NormalWellFormed(StringLeq, b);
    ChainConcat(PlainText(na), x, End);
    ChainConcat(PlainText(nb), y, End);
    PrintAgrees(na, Chain(x, End));
    PrintAgrees(nb, Chain(y, End));
    PrintPrefixFree(na, nb, Chain(x, End), Chain(y, End));
    NormalSame(StringLeq, a, b);
    ChainInjective(x, y);
  }

  lemma {:induction false} PermutedMembersWellFormed(f: seq<Member>, g: seq<Member>)
    requires WellFormed(Obj(f)) && multiset(f) == multiset(g)
    ensures WellFormed(Obj(g))
  {
    SortedKeysDistinct(f, g);
    forall j | 0 <= j < |g| ensures WellFormed(g[j].value) {
      var i := IndexIn(g[j], g, f);
      assert WellFormed(f[i].value);
    }
  }

  /** The order in which a hash lists its members never shows in the text. */
  lemma {:induction false} MemberOrderInvisible(f: seq<Member>, g: seq<Member>)
    requires WellFormed(Obj(f)) && multiset(f) == multiset(g)
    ensures WellFormed(Obj(g)) && CanonicalJson(Obj(f)) == CanonicalJson(Obj(g))
  {
    PermutedMembersWellFormed(f, g);
    assert Same(Obj(f), Obj(g)) by {
      MatchingMembers(f, g);
      forall i, j | 0 <= i < |f| && 0 <= j < |g| && f[i].key == g[j].key ensures Same(f[i].value, g[j].value) {
        SameItself(f[i].value);
      }
    }
    CanonicalJsonUnambiguous(Obj(f), Obj(g));
  }

  /** All keys of all objects in a value. */
  ghost predicate KeysWithin(v: Json, keys: set<string>) {
    match v
    case Arr(items) => forall i :: 0 <= i < |items| ==> KeysWithin(items[i], keys)
    case Obj(fields) => forall i :: 0 <= i < |fields| ==> fields[i].key in keys && KeysWithin(fields[i].value, keys)
    case _ => true
  }

  /** Ruby and TypeScript print alike wherever their orders agree on the keys in use. */
  lemma {:induction false} StableMeetsCanonical(collate: (string, string) -> bool, v: Json, keys: set<string>)
    requires KeysWithin(v, keys)
    requires forall a, b :: a in keys && b in keys ==> (collate(a, b) <==> StringLeq(a, b))
    ensures Normal(collate, v) == Normal(StringLeq, v)
    ensures Stable(collate, v) == CanonicalJson(v)
  {
    match v {
      case Arr(items) =>
        forall i | 0 <= i < |items| ensures Normal(collate, items[i]) == Normal(StringLeq, items[i]) {
          StableMeetsCanonical(collate, items[i], keys);
        }
        assert NormalItems(collate, items) == NormalItems(StringLeq, items);
      case Obj(fields) =>
        forall i | 0 <= i < |fields| ensures Normal(collate, fields[i].value) == Normal(StringLeq, fields[i].value) {
          StableMeetsCanonical(collate, fields[i].value, keys);
        }
        assert NormalFields(collate, fields) == NormalFields(StringLeq, fields);
        SortsAgree(collate, NormalFields(StringLeq, fields), keys);
      case _ =>
    }
    SortedTextIsNormalText(collate, v);
    SortedTextIsNormalText(StringLeq, v);
  }

  lemma {:induction false} SortsAgree(collate: (string, string) -> bool, fields: seq<Member>, keys: set<string>)
    requires forall i :: 0 <= i < |fields| ==> fields[i].key in keys
    requires forall a, b :: a in keys && b in keys ==> (collate(a, b) <==> StringLeq(a, b))
    ensures Sort(ByKey(collate), fields) == Sort(ByKey(StringLeq), fields)
  {
    if |fields| > 0 {
      SortsAgree(collate, fields[1..], keys);
      var sorted := Sort(ByKey(StringLeq), fields[1..]);
      SortMembers(ByKey(StringLeq), fields[1..]);
      assert forall m :: m in sorted ==> m.key in keys;
      InsertsAgree(collate, fields[0], sorted, keys);
    }
  }

  lemma {:induction false} InsertsAgree(collate: (string, string) -> bool, m: Member, fields: seq<Member>,
      keys: set<string>)
    requires m.key in keys && forall x :: x in fields ==> x.key in keys
    requires forall a, b :: a in keys && b in keys ==> (collate(a, b) <==> StringLeq(a, b))
    ensures Insert(ByKey(collate), m, fields) == Insert(ByKey(StringLeq), m, fields)
  {
    if |fields| > 0 {
      assert fields[0] in fields;
      InsertsAgree(collate, m, fields[1..], keys);
    }
  }
}
