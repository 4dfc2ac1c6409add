/** `SchemaValidator`: the JSON-schema subset the conformance library interprets. */
module SchemaValidator {
  // The walk of the code (early exits, rescued errors), and a separately stated satisfaction
  // relation that it is proved to decide.

  import opened Prelude
  import opened Json

  datatype Schema = Schema(
    reference: Option<string>,
    oneOf: Alternatives,
    constant: Option<Json>,
    allowed: Option<seq<Json>>,
    kind: Option<string>,
    required: seq<string>,
    properties: seq<Property>,
    closed: bool,
    minItems: Option<nat>,
    uniqueItems: bool,
    items: Option<Schema>,
    minLength: Option<nat>,
    pattern: Option<string>,
    minimum: Option<int>,
    maximum: Option<int>)

  datatype Alternatives = Absent | OneOf(schemas: seq<Schema>)

  datatype Property = Property(name: string, schema: Schema)

  /**
   * A schema document: what each `#/...` reference resolves to, with the regular expression
   * matcher and the reading of decimal texts left open. `order` ranks the references.
   */
  datatype Document = Document(
    definitions: map<string, Schema>,
    order: map<string, nat>,
    matches: (string, string) -> bool,
    decimal: string -> real)

  /** A failed check, as opposed to a missing reference, is rescued when alternatives are counted. */
  datatype Verdict = Valid | Invalid | Unresolved

  // ---------------------------------------------------------------- acyclic references

  /** One more than the highest rank reached through `$ref` and `oneOf` alone. */
  function Level(d: Document, s: Schema): nat
    decreases s, 1
  {
    if s.reference.Some? then
      if s.reference.value in d.order then d.order[s.reference.value] + 1 else 0
    else if s.oneOf.OneOf? then LevelOfAll(d, s.oneOf.schemas)
    else 0
  }

  function LevelOfAll(d: Document, schemas: seq<Schema>): nat
    decreases schemas, 0
  {
    if |schemas| == 0 then 0
    else
      var first, rest := Level(d, schemas[0]), LevelOfAll(d, schemas[1..]);
      if first < rest then rest else first
  }

  /** Following references and alternatives only, no definition comes back to itself. */
  predicate Acyclic(d: Document) {
    forall r :: r in d.definitions ==> r in d.order && Level(d, d.definitions[r]) <= d.order[r]
  }

  // ---------------------------------------------------------------- keyword checks on one value

  predicate IsLocal(reference: string) { "#/" <= reference }

  /** Ruby's `==`: integers and floats compare by value, hashes without regard to order. */
  ghost predicate RubyEqual(d: Document, a: Json, b: Json) {
    match (a, b)
    case (Int(m), Float(t)) => m as real == d.decimal(t)
    case (Float(t), Int(m)) => m as real == d.decimal(t)
    case (Float(t), Float(u)) => d.decimal(t) == d.decimal(u)
    case (Arr(x), Arr(y)) => |x| == |y| && forall i :: 0 <= i < |x| ==> RubyEqual(d, x[i], y[i])
    case (Obj(f), Obj(g)) =>
      && (forall k :: k in Keys(f) <==> k in Keys(g))
      && forall i, j :: 0 <= i < |f| && 0 <= j < |g| && f[i].key == g[j].key ==> RubyEqual(d, f[i].value, g[j].value)
    case _ => a == b
  }

  /** What each type of a schema means, a boolean being no number and a whole float no integer. */
  predicate HasKind(v: Json, kind: string) {
    match v
    case Obj(_) => kind == "object"
    case Arr(_) => kind == "array"
    case Str(_) => kind == "string"
    case Int(_) => kind == "integer" || kind == "number"
    case Float(_) => kind == "number"
    case Bool(_) => kind == "boolean"
    case Null => false
  }

  ghost function NumberOf(d: Document, v: Json): real
    requires v.Int? || v.Float?
  {
    if v.Int? then v.n as real else d.decimal(v.text)
  }

  function Lookup(properties: seq<Property>, name: string): (r: Option<Schema>)
    ensures r.Some? ==> exists i :: 0 <= i < |properties| && properties[i] == Property(name, r.value)
    ensures r.None? <==> forall i :: 0 <= i < |properties| ==> properties[i].name != name
  {
    if |properties| == 0 then None
    else if properties[0].name == name then Some(properties[0].schema)
    else Lookup(properties[1..], name)
  }

  /** A Ruby hash has each property name once. */
  predicate UniqueNames(properties: seq<Property>) {
    forall i, j :: 0 <= i < j < |properties| ==> properties[i].name != properties[j].name
  }

  predicate WellFormedSchema(s: Schema) {
    && UniqueNames(s.properties)
    && (s.oneOf.OneOf? ==> forall i :: 0 <= i < |s.oneOf.schemas| ==> WellFormedSchema(s.oneOf.schemas[i]))
    && (s.items.Some? ==> WellFormedSchema(s.items.value))
    && forall i :: 0 <= i < |s.properties| ==> WellFormedSchema(s.properties[i].schema)
  }

  ghost predicate WellFormedDocument(d: Document) {
    Acyclic(d) && forall r :: r in d.definitions ==> WellFormedSchema(d.definitions[r])
  }

  /** The checks that look at the value alone, up to the point where children are visited. */
  ghost predicate PassesKeywords(d: Document, v: Json, s: Schema) {
    && (s.constant.Some? ==> RubyEqual(d, v, s.constant.value))
    && (s.allowed.Some? ==> exists i :: 0 <= i < |s.allowed.value| && RubyEqual(d, s.allowed.value[i], v))
    && (s.kind.Some? ==> HasKind(v, s.kind.value))
    && (v.Obj? ==>
      && Covered(s.required, Keys(v.fields))
      && (s.closed ==> forall k :: k in Keys(v.fields) ==> Lookup(s.properties, k).Some?))
    && (v.Arr? ==>
      && (s.minItems.Some? ==> |v.items| >= s.minItems.value)
      && (s.uniqueItems ==> forall i, j :: 0 <= i < j < |v.items| ==> !Same(v.items[i], v.items[j])))
    && (v.Str? ==>
      && (s.minLength.Some? ==> |v.s| >= s.minLength.value)
      && (s.pattern.Some? ==> d.matches(s.pattern.value, v.s)))
    && ((v.Int? || v.Float?) && s.minimum.Some? ==> s.minimum.value as real <= NumberOf(d, v))
    && ((v.Int? || v.Float?) && s.maximum.Some? ==> NumberOf(d, v) <= s.maximum.value as real)
  }

  // ---------------------------------------------------------------- the checks as they are made

  datatype RubyClass = HashClass | ArrayClass | StringClass | IntegerClass | NumericClass | TrueClass | FalseClass

  /** `TYPES.fetch`; `None` is the error for an unknown type. */
  function TypesOf(kind: string): Option<seq<RubyClass>> {
    if kind == "object" then Some([HashClass])
    else if kind == "array" then Some([ArrayClass])
    else if kind == "string" then Some([StringClass])
    else if kind == "integer" then Some([IntegerClass])
    else if kind == "number" then Some([NumericClass])
    else if kind == "boolean" then Some([TrueClass, FalseClass])
    else None
  }

  predicate IsA(v: Json, class_: RubyClass) {
    match class_
    case HashClass => v.Obj?
    case ArrayClass => v.Arr?
    case StringClass => v.Str?
    case IntegerClass => v.Int?
    case NumericClass => v.Int? || v.Float?
    case TrueClass => v == Bool(true)
    case FalseClass => v == Bool(false)
  }

  /** `validate_type!`. */
  predicate TypeFits(v: Json, kind: string) {
    var expected := TypesOf(kind);
    expected.Some? && (exists c :: c in expected.value && IsA(v, c)) && !(kind == "integer" && IsA(v, TrueClass))
  }

  ghost predicate Includes(d: Document, allowed: seq<Json>, v: Json) {
    |allowed| > 0 && (RubyEqual(d, allowed[0], v) || Includes(d, allowed[1..], v))
  }

  /** Ruby's `a - b`. */
  function Minus(a: seq<string>, b: seq<string>): seq<string> { Filter((x: string) => x !in b, a) }

  /** Ruby's `uniq`: the first of equal elements stays. */
  ghost function Uniq(items: seq<Json>): seq<Json> {
    if |items| == 0 then []
    else
      var rest, last := Uniq(items[..|items| - 1]), items[|items| - 1];
      if exists i :: 0 <= i < |rest| && Same(rest[i], last) then rest else rest + [last]
  }

  /** `validate!` up to the visits of children: the first check that fails decides. */
  ghost predicate ChecksPass(d: Document, v: Json, s: Schema) {
    if s.constant.Some? && !RubyEqual(d, v, s.constant.value) then false
    else if s.allowed.Some? && !Includes(d, s.allowed.value, v) then false
    else if s.kind.Some? && !TypeFits(v, s.kind.value) then false
    else
      match v
      case Obj(fields) =>
        if Minus(s.required, Keys(fields)) != [] then false
        else !s.closed || Minus(Keys(fields), Map((p: Property) => p.name, s.properties)) == []
      case Arr(items) =>
        if s.minItems.Some? && |items| < s.minItems.value then false
        else !s.uniqueItems || |Uniq(items)| == |items|
      case Str(text) =>
        if s.minLength.Some? && |text| < s.minLength.value then false
        else s.pattern.None? || d.matches(s.pattern.value, text)
      case Int(n) =>
        if s.minimum.Some? && n < s.minimum.value then false
        else !(s.maximum.Some? && n > s.maximum.value)
      case Float(text) =>
        if s.minimum.Some? && d.decimal(text) < s.minimum.value as real then false
        else !(s.maximum.Some? && d.decimal(text) > s.maximum.value as real)
      case _ => true
  }

  /** The type check passes exactly for the values of that type. */
  lemma {:induction false} TypeFitsIff(v: Json, kind: string)
    ensures TypeFits(v, kind) <==> HasKind(v, kind)
  {
    if TypesOf(kind).Some? {
      var expected := TypesOf(kind).value;
      assert expected[0] in expected && expected[|expected| - 1] in expected;
    }
  }

  lemma {:induction false} IncludesIff(d: Document, allowed: seq<Json>, v: Json)
    ensures Includes(d, allowed, v) <==> exists i :: 0 <= i < |allowed| && RubyEqual(d, allowed[i], v)
  {
    if |allowed| > 0 {
      IncludesIff(d, allowed[1..], v);
      assert forall i :: 1 <= i < |allowed| ==> allowed[i] == allowed[1..][i - 1];
      assert forall i :: 0 <= i < |allowed[1..]| ==> allowed[1..][i] == allowed[i + 1];
    }
  }

  lemma {:induction false} MinusIff(a: seq<string>, b: seq<string>)
    ensures Minus(a, b) == [] <==> Covered(a, b)
  {
    FilterEmpty((x: string) => x !in b, a);
  }

  lemma {:induction false} UniqIff(items: seq<Json>)
    ensures |Uniq(items)| <= |items|
    ensures |Uniq(items)| == |items| <==> forall i, j :: 0 <= i < j < |items| ==> !Same(items[i], items[j])
    ensures |Uniq(items)| == |items| ==> Uniq(items) == items
  {
    if |items| > 0 {
      var rest, last := items[..|items| - 1], items[|items| - 1];
      assert items == rest + [last];
      UniqIff(rest);
    }
  }

  lemma {:induction false} ObjectChecksIff(s: Schema, fields: seq<Member>)
    ensures Minus(s.required, Keys(fields)) == [] <==> Covered(s.required, Keys(fields))
    ensures Minus(Keys(fields), Map((p: Property) => p.name, s.properties)) == [] <==>
      forall k :: k in Keys(fields) ==> Lookup(s.properties, k).Some?
  {
    var names := Map((p: Property) => p.name, s.properties);
    MinusIff(s.required, Keys(fields));
    MinusIff(Keys(fields), names);
    assert forall i :: 0 <= i < |s.properties| ==> names[i] == s.properties[i].name;
  }

  /** No check fails exactly when the value has the type and keeps the bounds of the schema. */
  lemma {:induction false} ChecksPassIff(d: Document, v: Json, s: Schema)
    ensures ChecksPass(d, v, s) <==> PassesKeywords(d, v, s)
  {
    if s.allowed.Some? {
      IncludesIff(d, s.allowed.value, v);
    }
    if s.kind.Some? {
      TypeFitsIff(v, s.kind.value);
    }
    match v
    case Obj(fields) => ObjectChecksIff(s, fields);
    case Arr(items) => UniqIff(items);
    case _ =>
  }

  // ---------------------------------------------------------------- validate!

  /** The walk of the source; the measure is the value first and the reference rank second. */
  ghost function Validate(d: Document, v: Json, s: Schema): Verdict
    requires Acyclic(d)
    decreases v, Level(d, s), s, 1
  {
    if s.reference.Some? then
      if !IsLocal(s.reference.value) then Invalid
      else if s.reference.value !in d.definitions then Unresolved
      else Validate(d, v, d.definitions[s.reference.value])
    else if s.oneOf.OneOf? then
      var matches := CountMatches(d, v, s.oneOf.schemas);
      if matches.None? then Unresolved else if matches.value == 1 then Valid else Invalid
    else if !ChecksPass(d, v, s) then Invalid
    else if v.Obj? then ValidateMembers(d, v.fields, s.properties)
    else if v.Arr? && s.items.Some? then ValidateItems(d, v.items, s.items.value)
    else Valid
  }

  /** Alternatives that match; a missing reference is not rescued and ends the count. */
  ghost function CountMatches(d: Document, v: Json, schemas: seq<Schema>): Option<nat>
    requires Acyclic(d)
    decreases v, LevelOfAll(d, schemas), schemas, 0
  {
    if |schemas| == 0 then Some(0)
    else
      var first := Validate(d, v, schemas[0]);
      if first.Unresolved? then None
      else
        var rest := CountMatches(d, v, schemas[1..]);
        if rest.None? then None else Some((if first.Valid? then 1 else 0) + rest.value)
  }

  /** Children in order; the first one that does not validate decides. */
  ghost function ValidateMembers(d: Document, fields: seq<Member>, properties: seq<Property>): Verdict
    requires Acyclic(d)
    decreases fields, 0, properties, 0
  {
    if |fields| == 0 then Valid
    else
      var property := Lookup(properties, fields[0].key);
      var first := if property.Some? then Validate(d, fields[0].value, property.value) else Valid;
      if first.Valid? then ValidateMembers(d, fields[1..], properties) else first
  }

  ghost function ValidateItems(d: Document, items: seq<Json>, s: Schema): Verdict
    requires Acyclic(d)
    decreases items, 0, s, 0
  {
    if |items| == 0 then Valid
    else
      var first := Validate(d, items[0], s);
      if first.Valid? then ValidateItems(d, items[1..], s) else first
  }

  // ---------------------------------------------------------------- the satisfaction relation

  /** What the schema says of a value: exactly one alternative, every property, every item. */
  ghost predicate Satisfies(d: Document, v: Json, s: Schema)
    requires Acyclic(d)
    decreases v, Level(d, s), s, 1
  {
    if s.reference.Some? then
      && |s.reference.value| >= 2 && s.reference.value[..2] == "#/" && s.reference.value in d.definitions
      && Satisfies(d, v, d.definitions[s.reference.value])
    else if s.oneOf.OneOf? then
      exists i :: OnlyAt(Marks(d, v, s.oneOf.schemas), i)
    else
      && PassesKeywords(d, v, s)
      && (v.Obj? ==>
        forall i, j :: 0 <= i < |v.fields| && 0 <= j < |s.properties| && s.properties[j].name == v.fields[i].key ==>
          Satisfies(d, v.fields[i].value, s.properties[j].schema))
      && (v.Arr? && s.items.Some? ==> forall i :: 0 <= i < |v.items| ==> Satisfies(d, v.items[i], s.items.value))
  }

  /** Which alternatives a value satisfies. */
  ghost function Marks(d: Document, v: Json, schemas: seq<Schema>): (marks: seq<bool>)
    requires Acyclic(d)
    ensures |marks| == |schemas|
    decreases v, LevelOfAll(d, schemas), schemas, 0
  {
    if |schemas| == 0 then [] else [Satisfies(d, v, schemas[0])] + Marks(d, v, schemas[1..])
  }

  predicate OnlyAt(marks: seq<bool>, i: int) {
    0 <= i < |marks| && marks[i] && forall j :: 0 <= j < |marks| && j != i ==> !marks[j]
  }

  lemma {:induction false} MarksAt(d: Document, v: Json, schemas: seq<Schema>, i: nat)
    requires Acyclic(d) && i < |schemas|
    ensures Marks(d, v, schemas)[i] == Satisfies(d, v, schemas[i])
  {
    if i > 0 {
      MarksAt(d, v, schemas[1..], i - 1);
    }
  }

  // ---------------------------------------------------------------- the walk decides the relation

  /** Every reference met below the schema is a local one that resolves. */
  predicate Resolves(d: Document, s: Schema) {
    && (s.reference.Some? ==> IsLocal(s.reference.value) ==> s.reference.value in d.definitions)
    && (s.oneOf.OneOf? ==> forall i :: 0 <= i < |s.oneOf.schemas| ==> Resolves(d, s.oneOf.schemas[i]))
    && (s.items.Some? ==> Resolves(d, s.items.value))
    && forall i :: 0 <= i < |s.properties| ==> Resolves(d, s.properties[i].schema)
  }

  predicate AllResolve(d: Document) {
    forall r :: r in d.definitions ==> Resolves(d, d.definitions[r])
  }

  /**
   * The walk answers `Valid` only for values that satisfy the schema, `Invalid` only for values
   * that do not, and gives up only on a missing reference.
   */
  lemma {:induction false} ValidateDecides(d: Document, v: Json, s: Schema)
    requires WellFormedDocument(d) && WellFormedSchema(s)
    ensures Validate(d, v, s).Valid? ==> Satisfies(d, v, s)
    ensures Validate(d, v, s).Invalid? ==> !Satisfies(d, v, s)
    ensures AllResolve(d) && Resolves(d, s) ==> !Validate(d, v, s).Unresolved?
    decreases v, Level(d, s), s, 1
  {
    if s.reference.Some? {
      if IsLocal(s.reference.value) && s.reference.value in d.definitions {
        ValidateDecides(d, v, d.definitions[s.reference.value]);
      }
    } else if s.oneOf.OneOf? {
      CountDecides(d, v, s.oneOf.schemas);
      CountIsOne(Marks(d, v, s.oneOf.schemas));
    } else {
      ChecksPassIff(d, v, s);
      if PassesKeywords(d, v, s) && v.Obj? {
        MembersDecide(d, v.fields, s.properties);
      } else if PassesKeywords(d, v, s) && v.Arr? && s.items.Some? {
        ItemsDecide(d, v.items, s.items.value);
      }
    }
  }

  lemma {:induction false} CountDecides(d: Document, v: Json, schemas: seq<Schema>)
    requires WellFormedDocument(d) && forall i :: 0 <= i < |schemas| ==> WellFormedSchema(schemas[i])
    ensures CountMatches(d, v, schemas).Some? ==> CountMatches(d, v, schemas).value == CountTrue(Marks(d, v, schemas))
    ensures AllResolve(d) && (forall i :: 0 <= i < |schemas| ==> Resolves(d, schemas[i])) ==>
      CountMatches(d, v, schemas).Some?
    decreases v, LevelOfAll(d, schemas), schemas, 0
  {
    if |schemas| > 0 {
      ValidateDecides(d, v, schemas[0]);
      CountDecides(d, v, schemas[1..]);
    }
  }

  function CountTrue(marks: seq<bool>): nat {
    if |marks| == 0 then 0 else (if marks[0] then 1 else 0) + CountTrue(marks[1..])
  }

  lemma {:induction false} CountTrueZero(marks: seq<bool>)
    ensures CountTrue(marks) == 0 <==> forall i :: 0 <= i < |marks| ==> !marks[i]
  {
    if |marks| > 0 {
      CountTrueZero(marks[1..]);
      assert forall i :: 1 <= i < |marks| ==> marks[i] == marks[1..][i - 1];
    }
  }

  lemma {:induction false} CountOfOnly(marks: seq<bool>, i: int)
    requires OnlyAt(marks, i)
    ensures CountTrue(marks) == 1
  {
    if i == 0 {
      CountTrueZero(marks[1..]);
    } else {
      CountOfOnly(marks[1..], i - 1);
    }
  }

  lemma {:induction false} OnlyOfCount(marks: seq<bool>) returns (i: int)
    requires CountTrue(marks) == 1
    ensures OnlyAt(marks, i)
  {
    if marks[0] {
      CountTrueZero(marks[1..]);
      i := 0;
      assert forall j :: 1 <= j < |marks| ==> marks[j] == marks[1..][j - 1];
    } else {
      i := OnlyOfCount(marks[1..]);
      i := i + 1;
      assert forall j :: 1 <= j < |marks| ==> marks[j] == marks[1..][j - 1];
    }
  }

  /** Counting one match is having exactly one. */
  lemma {:induction false} CountIsOne(marks: seq<bool>)
    ensures CountTrue(marks) == 1 <==> exists i :: OnlyAt(marks, i)
  {
    if CountTrue(marks) == 1 {
      var i := OnlyOfCount(marks);
    }
    if i :| OnlyAt(marks, i) {
      CountOfOnly(marks, i);
    }
  }

  /** Every member whose property is declared satisfies it. */
  ghost predicate MembersSatisfy(d: Document, fields: seq<Member>, properties: seq<Property>)
    requires Acyclic(d)
  {
    forall i, j :: 0 <= i < |fields| && 0 <= j < |properties| && properties[j].name == fields[i].key ==>
      Satisfies(d, fields[i].value, properties[j].schema)
  }

  lemma {:induction false} MembersDecide(d: Document, fields: seq<Member>, properties: seq<Property>)
    requires WellFormedDocument(d) && UniqueNames(properties)
    requires forall i :: 0 <= i < |properties| ==> WellFormedSchema(properties[i].schema)
    ensures ValidateMembers(d, fields, properties).Valid? ==> MembersSatisfy(d, fields, properties)
    ensures ValidateMembers(d, fields, properties).Invalid? ==> !MembersSatisfy(d, fields, properties)
    ensures AllResolve(d) && (forall i :: 0 <= i < |properties| ==> Resolves(d, properties[i].schema)) ==>
              !ValidateMembers(d, fields, properties).Unresolved?
    decreases fields, 0, properties, 0
  {
    if |fields| > 0 {
      var property := Lookup(properties, fields[0].key);
      if property.Some? {
        var k :| 0 <= k < |properties| && properties[k] == Property(fields[0].key, property.value);
        ValidateDecides(d, fields[0].value, property.value);
      }
      MembersDecide(d, fields[1..], properties);
      MembersSatisfyStep(d, fields, properties);
    }
  }

  /** The first member by the declared property of its name, then the others. */
  lemma {:induction false} MembersSatisfyStep(d: Document, fields: seq<Member>, properties: seq<Property>)
    requires Acyclic(d) && UniqueNames(properties) && |fields| > 0
    ensures var property := Lookup(properties, fields[0].key);
      MembersSatisfy(d, fields, properties) <==>
        (property.Some? ==> Satisfies(d, fields[0].value, property.value)) && MembersSatisfy(d, fields[1..], properties)
  {
    var rest := fields[1..];
    assert forall i :: 1 <= i < |fields| ==> fields[i] == rest[i - 1];
    assert forall i :: 0 <= i < |rest| ==> rest[i] == fields[i + 1];
  }

  lemma {:induction false} ItemsDecide(d: Document, items: seq<Json>, s: Schema)
    requires WellFormedDocument(d) && WellFormedSchema(s)
    ensures ValidateItems(d, items, s).Valid? ==> forall i :: 0 <= i < |items| ==> Satisfies(d, items[i], s)
    ensures ValidateItems(d, items, s).Invalid? ==> exists i :: 0 <= i < |items| && !Satisfies(d, items[i], s)
    ensures AllResolve(d) && Resolves(d, s) ==> !ValidateItems(d, items, s).Unresolved?
    decreases items, 0, s, 0
  {
    if |items| > 0 {
      ValidateDecides(d, items[0], s);
      ItemsDecide(d, items[1..], s);
      assert forall i :: 1 <= i < |items| ==> items[i] == items[1..][i - 1];
      assert forall i :: 0 <= i < |items[1..]| ==> items[1..][i] == items[i + 1];
    }
  }

  /** With every reference resolved, the walk accepts exactly the values that satisfy the schema. */
  lemma {:induction false} ValidateExact(d: Document, v: Json, s: Schema)
    requires WellFormedDocument(d) && WellFormedSchema(s)
    requires AllResolve(d) && Resolves(d, s)
    ensures Validate(d, v, s) == if Satisfies(d, v, s) then Valid else Invalid
  {
    ValidateDecides(d, v, s);
  }
}
