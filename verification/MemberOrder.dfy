/** Equality of JSON up to the order of members is an equivalence, and validation does not see the difference. */
module MemberOrder {
  import opened Prelude
  import opened Json
  import opened SchemaValidator

  // ---------------------------------------------------------------- equality up to member order

  /** Two lists of members name the same keys with values equal up to member order. */
  ghost predicate Matched(f: seq<Member>, g: seq<Member>) {
    && (forall k :: k in Keys(f) <==> k in Keys(g))
    && forall i, j :: 0 <= i < |f| && 0 <= j < |g| && f[i].key == g[j].key ==> Same(f[i].value, g[j].value)
  }

  lemma {:induction false} Partner(f: seq<Member>, g: seq<Member>, i: nat) returns (j: nat)
    requires Matched(f, g) && i < |f|
    ensures j < |g| && g[j].key == f[i].key && Same(f[i].value, g[j].value)
  {
    assert Keys(f)[i] in Keys(g);
    j :| 0 <= j < |g| && Keys(g)[j] == f[i].key;
  }

  lemma {:induction false} RubyEqualSymmetric(d: Document, a: Json, b: Json)
    requires RubyEqual(d, a, b)
    ensures RubyEqual(d, b, a)
  {
    match (a, b)
    case (Arr(x), Arr(y)) =>
      forall i | 0 <= i < |x| ensures RubyEqual(d, y[i], x[i]) { RubyEqualSymmetric(d, x[i], y[i]); }
    case (Obj(f), Obj(g)) =>
      forall i, j | 0 <= i < |g| && 0 <= j < |f| && g[i].key == f[j].key ensures RubyEqual(d, g[i].value, f[j].value) {
        RubyEqualSymmetric(d, f[j].value, g[i].value);
      }
    case _ =>
  }

  lemma {:induction false} SameSymmetric(a: Json, b: Json)
    requires Same(a, b)
    ensures Same(b, a)
  {
    match (a, b)
    case (Arr(x), Arr(y)) =>
      forall i | 0 <= i < |x| ensures Same(y[i], x[i]) { SameSymmetric(x[i], y[i]); }
    case (Obj(f), Obj(g)) =>
      forall i, j | 0 <= i < |g| && 0 <= j < |f| && g[i].key == f[j].key ensures Same(g[i].value, f[j].value) {
        SameSymmetric(f[j].value, g[i].value);
      }
    case _ =>
  }

  lemma {:induction false} SameTransitive(a: Json, b: Json, c: Json)
    requires Same(a, b) && Same(b, c)
    ensures Same(a, c)
  {
    match (a, b, c)
    case (Arr(x), Arr(y), Arr(z)) =>
      forall i | 0 <= i < |x| ensures Same(x[i], z[i]) { SameTransitive(x[i], y[i], z[i]); }
    case (Obj(f), Obj(g), Obj(h)) =>
      forall i, k | 0 <= i < |f| && 0 <= k < |h| && f[i].key == h[k].key ensures Same(f[i].value, h[k].value) {
        var j := Partner(f, g, i);
        SameTransitive(f[i].value, g[j].value, h[k].value);
      }
    case _ =>
  }

  /** Ruby's equality with a third value does not see member order. */
  lemma {:induction false} RubyEqualSame(d: Document, a: Json, b: Json, c: Json)
    requires Same(a, b) && RubyEqual(d, a, c)
    ensures RubyEqual(d, b, c)
  {
    match (a, b, c)
    case (Arr(x), Arr(y), Arr(z)) =>
      forall i | 0 <= i < |y| ensures RubyEqual(d, y[i], z[i]) { RubyEqualSame(d, x[i], y[i], z[i]); }
    case (Obj(f), Obj(g), Obj(h)) =>
      SameSymmetric(a, b);
      assert Matched(g, f);
      forall j, k | 0 <= j < |g| && 0 <= k < |h| && g[j].key == h[k].key ensures RubyEqual(d, g[j].value, h[k].value) {
        var i := Partner(g, f, j);
        assert Same(f[i].value, g[j].value);
        RubyEqualSame(d, f[i].value, g[j].value, h[k].value);
      }
    case _ =>
  }

  // ---------------------------------------------------------------- validation does not see member order

  lemma {:induction false} ConstantKept(d: Document, a: Json, b: Json, s: Schema)
    requires Same(a, b) && PassesKeywords(d, a, s)
    ensures s.constant.Some? ==> RubyEqual(d, b, s.constant.value)
    ensures s.allowed.Some? ==> exists i :: 0 <= i < |s.allowed.value| && RubyEqual(d, s.allowed.value[i], b)
  {
    if s.constant.Some? {
      RubyEqualSame(d, a, b, s.constant.value);
    }
    if s.allowed.Some? {
      var i :| 0 <= i < |s.allowed.value| && RubyEqual(d, s.allowed.value[i], a);
      RubyEqualSymmetric(d, s.allowed.value[i], a);
      RubyEqualSame(d, a, b, s.allowed.value[i]);
      RubyEqualSymmetric(d, b, s.allowed.value[i]);
    }
  }

  lemma {:induction false} UniqueKept(x: seq<Json>, y: seq<Json>)
    requires Same(Arr(x), Arr(y))
    requires forall i, j :: 0 <= i < j < |x| ==> !Same(x[i], x[j])
    ensures forall i, j :: 0 <= i < j < |y| ==> !Same(y[i], y[j])
  {
    forall i, j | 0 <= i < j < |y| ensures !Same(y[i], y[j]) {
      assert Same(x[i], y[i]) && Same(x[j], y[j]);
      if Same(y[i], y[j]) {
        SameSymmetric(x[j], y[j]);
        SameTransitive(x[i], y[i], y[j]);
        SameTransitive(x[i], y[j], x[j]);
      }
    }
  }

  lemma {:induction false} KeywordsKept(d: Document, a: Json, b: Json, s: Schema)
    requires Same(a, b) && PassesKeywords(d, a, s)
    ensures PassesKeywords(d, b, s)
  {
    ConstantKept(d, a, b, s);
    if a.Arr? && s.uniqueItems {
      UniqueKept(a.items, b.items);
    }
  }

  /** Whether a value satisfies a schema does not depend on the order of members anywhere inside it. */
  lemma {:induction false} SatisfiesSame(d: Document, a: Json, b: Json, s: Schema)
    requires Acyclic(d) && Same(a, b)
    ensures Satisfies(d, a, s) <==> Satisfies(d, b, s)
    decreases a, Level(d, s), s, 1
  {
    SameSymmetric(a, b);
    if s.reference.Some? {
      if IsLocal(s.reference.value) && s.reference.value in d.definitions {
        SatisfiesSame(d, a, b, d.definitions[s.reference.value]);
      }
    } else if s.oneOf.OneOf? {
      MarksSame(d, a, b, s.oneOf.schemas);
    } else {
      if PassesKeywords(d, a, s) {
        KeywordsKept(d, a, b, s);
      }
      if PassesKeywords(d, b, s) {
        KeywordsKept(d, b, a, s);
      }
      if a.Obj? {
        MembersSame(d, a.fields, b.fields, s.properties);
      } else if a.Arr? && s.items.Some? {
        ItemsSame(d, a.items, b.items, s.items.value);
      }
    }
  }

  lemma {:induction false} MarksSame(d: Document, a: Json, b: Json, schemas: seq<Schema>)
    requires Acyclic(d) && Same(a, b)
    ensures Marks(d, a, schemas) == Marks(d, b, schemas)
    decreases a, LevelOfAll(d, schemas), schemas, 0
  {
    if |schemas| > 0 {
      SatisfiesSame(d, a, b, schemas[0]);
      MarksSame(d, a, b, schemas[1..]);
    }
  }

  lemma {:induction false} ItemsSame(d: Document, x: seq<Json>, y: seq<Json>, s: Schema)
    requires Acyclic(d) && Same(Arr(x), Arr(y))
    ensures (forall i :: 0 <= i < |x| ==> Satisfies(d, x[i], s)) <==> forall i :: 0 <= i < |y| ==> Satisfies(d, y[i], s)
    decreases x, 0, s, 0
  {
    forall i | 0 <= i < |x| ensures Satisfies(d, x[i], s) <==> Satisfies(d, y[i], s) {
      SatisfiesSame(d, x[i], y[i], s);
    }
  }

  lemma {:induction false} MembersSame(d: Document, f: seq<Member>, g: seq<Member>, properties: seq<Property>)
    requires Acyclic(d) && Matched(f, g) && Matched(g, f)
    ensures MembersSatisfy(d, f, properties) <==> MembersSatisfy(d, g, properties)
    decreases f, 0, properties, 0
  {
    forall i, j, p | 0 <= i < |f| && 0 <= j < |g| && 0 <= p < |properties| && f[i].key == g[j].key
      ensures Satisfies(d, f[i].value, properties[p].schema) <==> Satisfies(d, g[j].value, properties[p].schema)
    {
      SatisfiesSame(d, f[i].value, g[j].value, properties[p].schema);
    }
    MembersKept(d, f, g, properties);
    MembersKept(d, g, f, properties);
  }

  lemma {:induction false} MembersKept(d: Document, f: seq<Member>, g: seq<Member>, properties: seq<Property>)
    requires Acyclic(d) && Matched(f, g) && Matched(g, f)
    requires forall i, j, p :: 0 <= i < |f| && 0 <= j < |g| && 0 <= p < |properties| && f[i].key == g[j].key ==>
      (Satisfies(d, f[i].value, properties[p].schema) <==> Satisfies(d, g[j].value, properties[p].schema))
    ensures MembersSatisfy(d, f, properties) ==> MembersSatisfy(d, g, properties)
  {
    if MembersSatisfy(d, f, properties) {
      forall j, p | 0 <= j < |g| && 0 <= p < |properties| && properties[p].name == g[j].key
        ensures Satisfies(d, g[j].value, properties[p].schema)
      {
        var i := Partner(g, f, j);
        assert Satisfies(d, f[i].value, properties[p].schema);
      }
    }
  }
}
