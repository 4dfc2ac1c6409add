/** What an adapter answers, `semanticFailures` over the answers of one case, and when that function throws. */
module Semantics {
  // The function runs outside the runner's `try` block: where it throws, the whole run rejects.

  import opened Prelude
  import opened Decimal
  import opened Json
  import opened Contract

  /**
   * A JavaScript value. `Unprintable` holds a BigInt somewhere, shown as `null`, on which
   * `JSON.stringify` throws; `Endless` contains itself, or nests so deep, that every recursive walk
   * exhausts the stack. Both carry the exception's message.
   */
  datatype JsValue =
    | Undefined
    | Plain(json: Json)
    | Unprintable(json: Json, message: string)
    | Endless(json: Json, message: string)

  /** What reading the members of a value shows. */
  function Shown(v: JsValue): Json { if v.Undefined? then Null else v.json }

  predicate HasText(v: JsValue) { v.Undefined? || v.Plain? }

  /** `stable`, which throws where the value has no text. */
  function TextOf(collate: (string, string) -> bool, v: JsValue): Result<string, string> {
    match v
    case Undefined => Ok("undefined")
    case Plain(json) => Ok(Stable(collate, json))
    case Unprintable(_, message) => Err(message)
    case Endless(_, message) => Err(message)
  }

  /** `None` is a field the adapter left out. */
  datatype Pagination = Pagination(
    firstIds: Option<seq<string>>, secondIds: Option<seq<string>>, firstCursor: Option<string>,
    replayCursor: Option<string>)

  datatype AdapterEvidence = AdapterEvidence(
    request: JsValue, response: JsValue, authorizationSent: Option<bool>, cancelled: Option<bool>,
    pagination: Option<Pagination>)

  datatype AdapterResult = AdapterResult(
    outcome: string, status: Option<int>, value: JsValue, error: JsValue, quotaCost: JsValue,
    evidence: Option<AdapterEvidence>)

  /** The protocol and what the adapter resolved with; `None` is no object at all. */
  type Execution = (string, Option<AdapterResult>)

  /** The engine's message for reading a property of `undefined`. */
  type TypeErrors = string -> string

  // ---------------------------------------------------------------- one property of a value

  function Find(fields: seq<Member>, key: string): Option<Json> {
    if |fields| == 0 then None
    else if fields[0].key == key then Some(fields[0].value)
    else Find(fields[1..], key)
  }

  /** `pathValue` for a path of one segment; `None` is `undefined`. */
  function PathValue(v: JsValue, key: string): Option<Json> {
    if Shown(v).Obj? then Find(Shown(v).fields, key) else None
  }

  predicate Contains(s: string, part: string) { part <= s || (s != "" && Contains(s[1..], part)) }

  /** The length of a string in UTF-16 code units. */
  function Utf16Length(s: string): nat {
    if |s| == 0 then 0 else Utf16Length(s[..|s| - 1]) + (if s[|s| - 1] as int > 0xFFFF then 2 else 1)
  }

  // ---------------------------------------------------------------- the seven checks

  const MAMPONG := "Mamp\U{0254}\U{014B}"

  /** `some`: stops at the first element that holds, or throws where looking at one does. */
  function AnyOf(looks: seq<Result<bool, string>>): Result<bool, string> {
    if |looks| == 0 then Ok(false)
    else if looks[0].Err? || looks[0].value then looks[0]
    else AnyOf(looks[1..])
  }

  function FailsIf(found: Result<bool, string>, failure: string): Result<seq<string>, string> {
    if found.Err? then Err(found.error) else if found.value then Ok([failure]) else Ok([])
  }

  /** `map(stable)`, which throws at the first value without a text. */
  function Texts(collate: (string, string) -> bool, values: seq<JsValue>): Result<seq<string>, string> {
    if |values| == 0 then Ok([])
    else
      var first, rest := TextOf(collate, values[0]), Texts(collate, values[1..]);
      if first.Err? then Err(first.error) else if rest.Err? then rest else Ok([first.value] + rest.value)
  }

  /** The size of a `Set` of the texts. */
  function Size(texts: seq<string>): nat { |set text | text in texts| }

  function CheckEquivalent(collate: (string, string) -> bool, values: seq<JsValue>): Result<seq<string>, string> {
    var texts := Texts(collate, values);
    if texts.Err? then texts
    else if Size(texts.value) != 1 then Ok(["protocol results are not equivalent"])
    else Ok([])
  }

  predicate LacksDatasetVersion(v: JsValue) {
    var version := PathValue(v, "datasetVersion");
    version.None? || !version.value.Str?
  }

  predicate SomeLackVersion(values: seq<JsValue>) { exists v :: v in values && LacksDatasetVersion(v) }

  /** Pagination evidence that breaks none of the conditions; reading an absent field throws. */
  function PaginationValid(typeError: TypeErrors, p: Pagination): Result<bool, string> {
    if p.firstIds.None? then Err(typeError("some"))
    else if p.firstIds.value != [] && p.secondIds.None? then Err(typeError("includes"))
    else if p.firstCursor.None? then Err(typeError("length"))
    else
      var duplicate := exists id :: id in p.firstIds.value && id in p.secondIds.value;
      var opaqueCursor := Utf16Length(p.firstCursor.value) >= 8 && !AllDigits(p.firstCursor.value);
      Ok(!duplicate && opaqueCursor && p.firstCursor == p.replayCursor)
  }

  function CursorValid(typeError: TypeErrors, r: AdapterResult): Result<bool, string> {
    if r.evidence.None? then Err(typeError("pagination"))
    else if r.evidence.value.pagination.None? then Ok(false)
    else PaginationValid(typeError, r.evidence.value.pagination.value)
  }

  function CheckCursors(typeError: TypeErrors, results: seq<AdapterResult>): Result<seq<string>, string> {
    if |results| == 0 then Ok([])
    else
      var last := |results| - 1;
      var earlier, valid := CheckCursors(typeError, results[..last]), CursorValid(typeError, results[last]);
      if earlier.Err? then earlier
      else if valid.Err? then Err(valid.error)
      else Ok(earlier.value + if valid.value then [] else ["cursor pagination evidence is invalid"])
  }

  function LosesOrthography(collate: (string, string) -> bool, v: JsValue): Result<bool, string> {
    var text := TextOf(collate, v);
    if text.Err? then Err(text.error) else Ok(!Contains(text.value, MAMPONG))
  }

  function SentAuthorization(typeError: TypeErrors, r: AdapterResult): Result<bool, string> {
    if r.evidence.None? then Err(typeError("authorizationSent"))
    else Ok(r.evidence.value.authorizationSent != Some(false))
  }

  function NotCancelled(typeError: TypeErrors, r: AdapterResult): Result<bool, string> {
    if r.evidence.None? then Err(typeError("cancelled")) else Ok(r.evidence.value.cancelled != Some(true))
  }

  predicate FoundInGhana(v: JsValue) {
    var nearby := PathValue(v, "nearby");
    PathValue(v, "region").Some? || PathValue(v, "district").Some? || nearby != Some(Arr([]))
  }

  predicate SomeInGhana(values: seq<JsValue>) { exists v :: v in values && FoundInGhana(v) }

  // ---------------------------------------------------------------- all of them

  /** Only cases that expect success list semantics. */
  function SemanticsOf(c: Case): seq<string> { if c.expected.Success? then c.expected.semantics else [] }

  function Values(results: seq<AdapterResult>): seq<JsValue> { Map((r: AdapterResult) => r.value, results) }

  /** The results, if every execution has one. */
  function ResultsOf(executions: seq<Execution>): (r: Option<seq<AdapterResult>>)
    ensures r.None? <==> exists i :: 0 <= i < |executions| && executions[i].1.None?
    ensures r.Some? ==> |r.value| == |executions|
    ensures r.Some? ==> forall i :: 0 <= i < |executions| ==> executions[i].1 == Some(r.value[i])
  {
    if |executions| == 0 then Some([])
    else
      var rest := ResultsOf(executions[1..]);
      assert forall i :: 1 <= i < |executions| ==> executions[1..][i - 1] == executions[i];
      if executions[0].1.None? || rest.None? then None else Some([executions[0].1.value] + rest.value)
  }

  function When(named: bool, check: Result<seq<string>, string>): Result<seq<string>, string> {
    if named then check else Ok([])
  }

  /** One check after another: failures add up until one throws. */
  function Then(first: Result<seq<string>, string>, second: Result<seq<string>, string>)
    : (r: Result<seq<string>, string>)
    ensures first == Ok([]) ==> r == second
    ensures first.Ok? && second == Ok([]) ==> r == first
  {
    if first.Err? then first
    else if second.Err? then second
    else
      assert [] + second.value == second.value && first.value + [] == first.value;
      Ok(first.value + second.value)
  }

  function EquivalentCheck(collate: (string, string) -> bool, semantics: seq<string>, values: seq<JsValue>)
    : Result<seq<string>, string>
  {
    When("protocolResultsEquivalent" in semantics, CheckEquivalent(collate, values))
  }

  function VersionCheck(semantics: seq<string>, values: seq<JsValue>): Result<seq<string>, string> {
    When("datasetVersionPresent" in semantics, FailsIf(Ok(SomeLackVersion(values)), "datasetVersion is absent"))
  }

  function CursorCheck(typeError: TypeErrors, semantics: seq<string>, results: seq<AdapterResult>)
    : Result<seq<string>, string>
  {
    When("stableCursorPagination" in semantics, CheckCursors(typeError, results))
  }

  function OrthographyCheck(collate: (string, string) -> bool, semantics: seq<string>, values: seq<JsValue>)
    : Result<seq<string>, string>
  {
    When("preservesGhanaianOrthography" in semantics,
      FailsIf(AnyOf(Orthographies(collate, values)), "Ghanaian orthography was not preserved"))
  }

  function AnonymousCheck(typeError: TypeErrors, semantics: seq<string>, results: seq<AdapterResult>)
    : Result<seq<string>, string>
  {
    When("anonymousByDefault" in semantics,
      FailsIf(AnyOf(Authorizations(typeError, results)), "anonymous request sent authorization"))
  }

  function CancellationCheck(typeError: TypeErrors, semantics: seq<string>, results: seq<AdapterResult>)
    : Result<seq<string>, string>
  {
    When("cancellationPropagates" in semantics,
      FailsIf(AnyOf(Cancellations(typeError, results)), "cancellation did not propagate"))
  }

  function OutsideCheck(semantics: seq<string>, values: seq<JsValue>): Result<seq<string>, string> {
    When("emptyOutsideGhana" in semantics, FailsIf(Ok(SomeInGhana(values)), "outside-Ghana result was not empty"))
  }

  function Orthographies(collate: (string, string) -> bool, values: seq<JsValue>): seq<Result<bool, string>> {
    Map((v: JsValue) => LosesOrthography(collate, v), values)
  }

  function Authorizations(typeError: TypeErrors, results: seq<AdapterResult>): seq<Result<bool, string>> {
    Map((r: AdapterResult) => SentAuthorization(typeError, r), results)
  }

  function Cancellations(typeError: TypeErrors, results: seq<AdapterResult>): seq<Result<bool, string>> {
    Map((r: AdapterResult) => NotCancelled(typeError, r), results)
  }

  function FirstChecks(collate: (string, string) -> bool, typeError: TypeErrors, semantics: seq<string>,
      results: seq<AdapterResult>): Result<seq<string>, string>
  {
    var values := Values(results);
    Then(Then(EquivalentCheck(collate, semantics, values), VersionCheck(semantics, values)),
      CursorCheck(typeError, semantics, results))
  }

  /** The checks after those, which go on from what was pushed before. */
  function LaterChecks(collate: (string, string) -> bool, typeError: TypeErrors, semantics: seq<string>,
      results: seq<AdapterResult>, earlier: Result<seq<string>, string>): Result<seq<string>, string>
  {
    var values := Values(results);
    Then(Then(Then(Then(earlier, OrthographyCheck(collate, semantics, values)),
      AnonymousCheck(typeError, semantics, results)), CancellationCheck(typeError, semantics, results)),
      OutsideCheck(semantics, values))
  }

  /** What `semanticFailures` returns, or the message of what it throws. */
  function SemanticOutcome(collate: (string, string) -> bool, typeError: TypeErrors, c: Case,
      executions: seq<Execution>): Result<seq<string>, string>
  {
    var results := ResultsOf(executions);
    if results.None? then Err(typeError("value"))
    else
      LaterChecks(collate, typeError, SemanticsOf(c), results.value,
        FirstChecks(collate, typeError, SemanticsOf(c), results.value))
  }

  /** The loop over the executions of a pagination case. */
  method CursorFailures(typeError: TypeErrors, results: seq<AdapterResult>) returns (r: Result<seq<string>, string>)
    ensures r == CheckCursors(typeError, results)
  {
    var failures: seq<string> := [];
    for i := 0 to |results|
      invariant CheckCursors(typeError, results[..i]).Ok? && CheckCursors(typeError, results[..i]).value == failures
    {
      assert results[..i + 1][..i] == results[..i];
      if CursorValid(typeError, results[i]).Err? {
        CursorsStop(typeError, results, i + 1);
      }
      if results[i].evidence.None? {
        return Err(typeError("pagination"));
      }
      var pagination := results[i].evidence.value.pagination;
      var valid := if pagination.None? then Ok(false) else PaginationValid(typeError, pagination.value);
      if valid.Err? {
        return Err(valid.error);
      }
      if !valid.value {
        failures := failures + ["cursor pagination evidence is invalid"];
      }
    }
    assert results[..|results|] == results;
    r := Ok(failures);
  }

  lemma {:induction false} CursorsStop(typeError: TypeErrors, results: seq<AdapterResult>, n: nat)
    requires n <= |results| && CheckCursors(typeError, results[..n]).Err?
    ensures CheckCursors(typeError, results) == CheckCursors(typeError, results[..n])
  {
    if n == |results| {
      assert results[..n] == results;
    } else {
      var shorter := results[..|results| - 1];
      assert shorter[..n] == results[..n];
      CursorsStop(typeError, shorter, n);
    }
  }

  /** One `if` that pushes a failure when some answer shows it. */
  method PushIfAny(failures: seq<string>, named: bool, looks: seq<Result<bool, string>>, failure: string)
    returns (r: Result<seq<string>, string>)
    ensures r == Then(Ok(failures), When(named, FailsIf(AnyOf(looks), failure)))
  {
    if !named {
      return Ok(failures);
    }
    var found := AnyOf(looks);
    if found.Err? {
      return Err(found.error);
    }
    r := Ok(if found.value then failures + [failure] else failures);
  }

  /** `semanticFailures` as statements: the failures pushed so far are lost when a check throws. */
  method SemanticFailures(collate: (string, string) -> bool, typeError: TypeErrors, c: Case,
      executions: seq<Execution>) returns (r: Result<seq<string>, string>)
    ensures r == SemanticOutcome(collate, typeError, c, executions)
  {
    var results := ResultsOf(executions);
    if results.None? {
      return Err(typeError("value"));
    }
    r := FirstFailures(collate, typeError, SemanticsOf(c), results.value);
    if r.Ok? {
      r := LaterFailures(collate, typeError, SemanticsOf(c), results.value, r.value);
    }
  }

  method FirstFailures(collate: (string, string) -> bool, typeError: TypeErrors, semantics: seq<string>,
      results: seq<AdapterResult>) returns (r: Result<seq<string>, string>)
    ensures r == FirstChecks(collate, typeError, semantics, results)
  {
    var values := Values(results);
    var failures: seq<string> := [];
    if "protocolResultsEquivalent" in semantics {
      var texts := Texts(collate, values);
      if texts.Err? {
        return texts;
      }
      if Size(texts.value) != 1 {
        failures := failures + ["protocol results are not equivalent"];
      }
    }
    ghost var done := EquivalentCheck(collate, semantics, values);
    assert done.Ok? && done.value == failures;
    if "datasetVersionPresent" in semantics && SomeLackVersion(values) {
      failures := failures + ["datasetVersion is absent"];
    }
    done := Then(done, VersionCheck(semantics, values));
    assert done.Ok? && done.value == failures;
    if "stableCursorPagination" in semantics {
      var cursors := CursorFailures(typeError, results);
      if cursors.Err? {
        return cursors;
      }
      failures := failures + cursors.value;
    }
    r := Ok(failures);
  }

  method LaterFailures(collate: (string, string) -> bool, typeError: TypeErrors, semantics: seq<string>,
      results: seq<AdapterResult>, earlier: seq<string>) returns (r: Result<seq<string>, string>)
    ensures r == LaterChecks(collate, typeError, semantics, results, Ok(earlier))
  {
    r := PushIfAny(earlier, "preservesGhanaianOrthography" in semantics, Orthographies(collate, Values(results)),
      "Ghanaian orthography was not preserved");
    if r.Ok? {
      r := PushIfAny(r.value, "anonymousByDefault" in semantics, Authorizations(typeError, results),
        "anonymous request sent authorization");
    }
    if r.Ok? {
      r := PushIfAny(r.value, "cancellationPropagates" in semantics, Cancellations(typeError, results),
        "cancellation did not propagate");
    }
    if r.Ok? && "emptyOutsideGhana" in semantics && SomeInGhana(Values(results)) {
      r := Ok(r.value + ["outside-Ghana result was not empty"]);
    }
  }

  // ---------------------------------------------------------------- when it throws

  /** `some` throws at an element it gets to: none before it held, and none threw. */
  lemma {:induction false} AnyThrowsIff(looks: seq<Result<bool, string>>)
    ensures AnyOf(looks).Err? <==>
      exists i :: 0 <= i < |looks| && looks[i].Err? && forall j :: 0 <= j < i ==> looks[j] == Ok(false)
  {
    if |looks| > 0 {
      var rest := looks[1..];
      AnyThrowsIff(rest);
      if AnyOf(looks).Err? && looks[0].Ok? {
        var i :| 0 <= i < |rest| && rest[i].Err? && forall j :: 0 <= j < i ==> rest[j] == Ok(false);
        assert looks[i + 1].Err? && forall j :: 1 <= j < i + 1 ==> looks[j] == rest[j - 1];
      }
      if i :| 1 <= i < |looks| && looks[i].Err? && forall j :: 0 <= j < i ==> looks[j] == Ok(false) {
        assert rest[i - 1].Err? && forall j :: 0 <= j < i - 1 ==> rest[j] == looks[j + 1];
        assert looks[0] == Ok(false);
      }
    }
  }

  lemma {:induction false} TextsThrowIff(collate: (string, string) -> bool, values: seq<JsValue>)
    ensures Texts(collate, values).Err? <==> exists v :: v in values && !HasText(v)
  {
    if |values| > 0 {
      TextsThrowIff(collate, values[1..]);
      assert forall v :: v in values <==> v == values[0] || v in values[1..];
      assert TextOf(collate, values[0]).Err? <==> !HasText(values[0]);
      assert values[0] in values;
    }
  }

  /** The pagination evidence that the loop looks at can be read: it is absent, or has the fields that get read. */
  predicate PaginationReadable(r: AdapterResult) {
    && r.evidence.Some?
    && (r.evidence.value.pagination.None? ||
        var p := r.evidence.value.pagination.value;
        p.firstIds.Some? && (p.firstIds.value == [] || p.secondIds.Some?) && p.firstCursor.Some?)
  }

  lemma {:induction false} CursorThrowsIff(typeError: TypeErrors, r: AdapterResult)
    ensures CursorValid(typeError, r).Err? <==> !PaginationReadable(r)
  {
  }

  lemma {:induction false} CursorsThrowIff(typeError: TypeErrors, results: seq<AdapterResult>)
    ensures CheckCursors(typeError, results).Err? <==> exists r :: r in results && !PaginationReadable(r)
  {
    if |results| > 0 {
      var rest, last := results[..|results| - 1], results[|results| - 1];
      CursorsThrowIff(typeError, rest);
      assert forall r :: r in results <==> r in rest || r == last;
      CursorThrowsIff(typeError, last);
    }
  }

  predicate ShowsOrthography(collate: (string, string) -> bool, v: JsValue) {
    HasText(v) && Contains(TextOf(collate, v).value, MAMPONG)
  }

  predicate ShowsAnonymous(r: AdapterResult) {
    r.evidence.Some? && r.evidence.value.authorizationSent == Some(false)
  }

  predicate ShowsCancelled(r: AdapterResult) { r.evidence.Some? && r.evidence.value.cancelled == Some(true) }

  /** Some answer has no evidence, and every answer before it shows what the check wants to see. */
  ghost predicate EvidenceMissed(results: seq<AdapterResult>, shows: AdapterResult -> bool) {
    exists i :: 0 <= i < |results| && results[i].evidence.None? && forall j :: 0 <= j < i ==> shows(results[j])
  }

  /** Some value has no text, and every value before it shows the orthography. */
  ghost predicate TextMissed(collate: (string, string) -> bool, values: seq<JsValue>) {
    exists i :: 0 <= i < |values| && !HasText(values[i]) &&
      forall j :: 0 <= j < i ==> ShowsOrthography(collate, values[j])
  }

  /** The answers on which a check of these semantics throws. */
  ghost predicate Unreadable(collate: (string, string) -> bool, semantics: seq<string>, results: seq<AdapterResult>) {
    || ("protocolResultsEquivalent" in semantics && exists v :: v in Values(results) && !HasText(v))
    || ("stableCursorPagination" in semantics && exists r :: r in results && !PaginationReadable(r))
    || ("preservesGhanaianOrthography" in semantics && TextMissed(collate, Values(results)))
    || ("anonymousByDefault" in semantics && EvidenceMissed(results, ShowsAnonymous))
    || ("cancellationPropagates" in semantics && EvidenceMissed(results, ShowsCancelled))
  }

  ghost predicate Throws(collate: (string, string) -> bool, c: Case, executions: seq<Execution>) {
    || (exists i :: 0 <= i < |executions| && executions[i].1.None?)
    || (ResultsOf(executions).Some? && Unreadable(collate, SemanticsOf(c), ResultsOf(executions).value))
  }

  lemma {:induction false} OrthographyThrowsIff(collate: (string, string) -> bool, values: seq<JsValue>)
    ensures AnyOf(Orthographies(collate, values)).Err? <==> TextMissed(collate, values)
  {
    var looks := Orthographies(collate, values);
    AnyThrowsIff(looks);
    assert forall i :: 0 <= i < |values| ==> (looks[i].Err? <==> !HasText(values[i]));
    assert forall i :: 0 <= i < |values| ==> (looks[i] == Ok(false) <==> ShowsOrthography(collate, values[i]));
  }

  lemma {:induction false} EvidenceThrowsIff(typeError: TypeErrors, results: seq<AdapterResult>)
    ensures AnyOf(Authorizations(typeError, results)).Err? <==> EvidenceMissed(results, ShowsAnonymous)
    ensures AnyOf(Cancellations(typeError, results)).Err? <==> EvidenceMissed(results, ShowsCancelled)
  {
    var sent, missed := Authorizations(typeError, results), Cancellations(typeError, results);
    AnyThrowsIff(sent);
    assert forall i :: 0 <= i < |results| ==> (sent[i].Err? <==> results[i].evidence.None?);
    assert forall i :: 0 <= i < |results| ==> (sent[i] == Ok(false) <==> ShowsAnonymous(results[i]));
    AnyThrowsIff(missed);
    assert forall i :: 0 <= i < |results| ==> (missed[i].Err? <==> results[i].evidence.None?);
    assert forall i :: 0 <= i < |results| ==> (missed[i] == Ok(false) <==> ShowsCancelled(results[i]));
  }

  /**
   * The semantic checks of a case throw exactly when an execution resolved with no object, when a
   * value without a text is printed, when pagination evidence lacks what is read of it, or when an
   * answer without evidence is reached. Whether earlier checks failed makes no difference.
   */
  lemma {:induction false} ThrowsIff(collate: (string, string) -> bool, typeError: TypeErrors, c: Case,
      executions: seq<Execution>)
    ensures SemanticOutcome(collate, typeError, c, executions).Err? <==> Throws(collate, c, executions)
  {
    var all := ResultsOf(executions);
    if all.Some? {
      TextsThrowIff(collate, Values(all.value));
      CursorsThrowIff(typeError, all.value);
      OrthographyThrowsIff(collate, Values(all.value));
      EvidenceThrowsIff(typeError, all.value);
      ChecksThrowIff(collate, typeError, SemanticsOf(c), all.value);
    }
  }

  lemma {:induction false} ChecksThrowIff(collate: (string, string) -> bool, typeError: TypeErrors,
      semantics: seq<string>, results: seq<AdapterResult>)
    ensures LaterChecks(collate, typeError, semantics, results,
      FirstChecks(collate, typeError, semantics, results)).Err? <==>
      || ("protocolResultsEquivalent" in semantics && Texts(collate, Values(results)).Err?)
      || ("stableCursorPagination" in semantics && CheckCursors(typeError, results).Err?)
      || ("preservesGhanaianOrthography" in semantics && AnyOf(Orthographies(collate, Values(results))).Err?)
      || ("anonymousByDefault" in semantics && AnyOf(Authorizations(typeError, results)).Err?)
      || ("cancellationPropagates" in semantics && AnyOf(Cancellations(typeError, results)).Err?)
  {
  }

  /** The texts in a `Set` of size one: there are some, all the same. */
  lemma {:induction false} EquivalentIff(collate: (string, string) -> bool, values: seq<JsValue>)
    requires forall v :: v in values ==> HasText(v)
    ensures CheckEquivalent(collate, values) == Ok([]) <==>
      && values != []
      && forall a, b :: a in values && b in values ==> TextOf(collate, a) == TextOf(collate, b)
  {
    TextsAre(collate, values);
    var texts := Texts(collate, values).value;
    var distinct := set text | text in texts;
    if values != [] {
      assert texts[0] in distinct;
      if forall a, b :: a in values && b in values ==> TextOf(collate, a) == TextOf(collate, b) {
        forall text | text in distinct ensures text == texts[0] {
          var i :| 0 <= i < |texts| && texts[i] == text;
          assert values[i] in values && values[0] in values;
        }
        assert distinct == {texts[0]};
      }
      if |distinct| == 1 {
        OnlyElement(distinct, texts[0]);
        forall a, b | a in values && b in values ensures TextOf(collate, a) == TextOf(collate, b) {
          var i :| 0 <= i < |values| && values[i] == a;
          var j :| 0 <= j < |values| && values[j] == b;
          assert texts[i] in distinct && texts[j] in distinct;
        }
      }
    }
  }

  lemma {:induction false} OnlyElement(s: set<string>, x: string)
    requires x in s && |s| == 1
    ensures forall y :: y in s ==> y == x
  {
    assert |s - {x}| == 0;
    assert s == (s - {x}) + {x};
  }

  lemma {:induction false} TextsAre(collate: (string, string) -> bool, values: seq<JsValue>)
    requires forall v :: v in values ==> HasText(v)
    ensures Texts(collate, values).Ok? && |Texts(collate, values).value| == |values|
    ensures forall i :: 0 <= i < |values| ==> TextOf(collate, values[i]) == Ok(Texts(collate, values).value[i])
  {
    if |values| > 0 {
      assert values[0] in values && forall v :: v in values[1..] ==> v in values;
      TextsAre(collate, values[1..]);
      assert forall i :: 1 <= i < |values| ==> values[1..][i - 1] == values[i];
    }
  }

  // ---------------------------------------------------------------- what the checks find

  /** The first member under the key holds this value. */
  ghost predicate HasMember(v: JsValue, key: string, value: Json) {
    Shown(v).Obj? && exists i :: FirstUnder(Shown(v).fields, key, i) && Shown(v).fields[i].value == value
  }

  ghost predicate FirstUnder(fields: seq<Member>, key: string, i: int) {
    0 <= i < |fields| && fields[i].key == key && forall j :: 0 <= j < i ==> fields[j].key != key
  }

  ghost predicate OccursAt(text: string, part: string, i: int) {
    0 <= i <= |text| - |part| && text[i..i + |part|] == part
  }

  ghost predicate Occurs(text: string, part: string) { exists i :: OccursAt(text, part, i) }

  /** The characters that take two UTF-16 code units. */
  function Astral(s: string): set<int> { set i | 0 <= i < |s| && s[i] as int > 0xFFFF }

  /**
   * Two pages with no id in common, and a cursor of eight code units at least, not all digits, that
   * the second request sent back.
   */
  ghost predicate ShowsPagination(r: AdapterResult) {
    && r.evidence.Some? && r.evidence.value.pagination.Some?
    && var p := r.evidence.value.pagination.value;
      && p.firstIds.Some? && p.firstCursor.Some?
      && (p.firstIds.value == [] || (p.secondIds.Some? && forall id :: id in p.firstIds.value ==>
        id !in p.secondIds.value))
      && |p.firstCursor.value| + |Astral(p.firstCursor.value)| >= 8
      && (exists c :: c in p.firstCursor.value && !('0' <= c <= '9'))
      && p.replayCursor == p.firstCursor
  }

  /** What the semantics of a case ask of each answer alone. */
  ghost predicate AnswerHolds(collate: (string, string) -> bool, semantics: seq<string>, r: AdapterResult) {
    && ("datasetVersionPresent" in semantics ==> exists version :: HasMember(r.value, "datasetVersion", Str(version)))
    && ("stableCursorPagination" in semantics ==> ShowsPagination(r))
    && ("preservesGhanaianOrthography" in semantics ==>
      HasText(r.value) && Occurs(TextOf(collate, r.value).value, "Mamp\U{0254}\U{014B}"))
    && ("anonymousByDefault" in semantics ==> r.evidence.Some? && r.evidence.value.authorizationSent == Some(false))
    && ("cancellationPropagates" in semantics ==> r.evidence.Some? && r.evidence.value.cancelled == Some(true))
    && ("emptyOutsideGhana" in semantics ==> NothingFound(r.value))
  }

  /** Neither region nor district, and an empty list of what is near. */
  ghost predicate NothingFound(v: JsValue) {
    && (forall x :: !HasMember(v, "region", x) && !HasMember(v, "district", x))
    && HasMember(v, "nearby", Arr([]))
  }

  /** The values, of which there are some, all print the same text. */
  ghost predicate PrintAlike(collate: (string, string) -> bool, results: seq<AdapterResult>) {
    && results != []
    && (forall r :: r in results ==> HasText(r.value))
    && forall a, b :: a in results && b in results ==> TextOf(collate, a.value) == TextOf(collate, b.value)
  }

  ghost predicate AnswersHold(collate: (string, string) -> bool, semantics: seq<string>, results: seq<AdapterResult>) {
    && ("protocolResultsEquivalent" in semantics ==> PrintAlike(collate, results))
    && forall r :: r in results ==> AnswerHolds(collate, semantics, r)
  }

  lemma {:induction false} FindIs(fields: seq<Member>, key: string)
    ensures Find(fields, key).Some? <==> exists i :: FirstUnder(fields, key, i)
    ensures forall i :: FirstUnder(fields, key, i) ==> Find(fields, key) == Some(fields[i].value)
  {
    if |fields| > 0 {
      if fields[0].key == key {
        assert FirstUnder(fields, key, 0);
      } else {
        var rest := fields[1..];
        FindIs(rest, key);
        assert forall i :: 1 <= i < |fields| ==> fields[i] == rest[i - 1];
        if i :| FirstUnder(rest, key, i) {
          assert FirstUnder(fields, key, i + 1);
        }
        forall i | FirstUnder(fields, key, i) ensures Find(fields, key) == Some(fields[i].value) {
          assert FirstUnder(rest, key, i - 1);
        }
      }
    }
  }

  lemma {:induction false} PathValueIs(v: JsValue, key: string)
    ensures forall x :: PathValue(v, key) == Some(x) <==> HasMember(v, key, x)
  {
    if Shown(v).Obj? {
      var fields := Shown(v).fields;
      FindIs(fields, key);
      if Find(fields, key).Some? {
        var i :| FirstUnder(fields, key, i);
        assert forall j :: FirstUnder(fields, key, j) ==> j == i;
      }
    }
  }

  lemma {:induction false} ContainsIs(s: string, part: string)
    ensures Contains(s, part) <==> Occurs(s, part)
  {
    if part <= s {
      assert OccursAt(s, part, 0);
    } else if s != "" {
      ContainsIs(s[1..], part);
      if i :| OccursAt(s[1..], part, i) {
        OccursLater(s, part, i);
      }
      if i :| OccursAt(s, part, i) {
        assert i > 0;
        OccursLater(s, part, i - 1);
      }
    }
  }

  lemma {:induction false} OccursLater(s: string, part: string, i: nat)
    requires s != ""
    ensures OccursAt(s[1..], part, i) <==> OccursAt(s, part, i + 1)
  {
    if i + 1 <= |s| - |part| {
      assert s[1..][i..i + |part|] == s[i + 1..i + 1 + |part|];
    }
  }

  lemma {:induction false} Utf16LengthIs(s: string)
    ensures Utf16Length(s) == |s| + |Astral(s)|
  {
    if |s| == 0 {
      assert Astral(s) == {};
    } else {
      var last := |s| - 1;
      Utf16LengthIs(s[..last]);
      assert Astral(s) == Astral(s[..last]) + (if s[last] as int > 0xFFFF then {last} else {});
    }
  }

  // ---------------------------------------------------------------- nothing found

  lemma {:induction false} AnyFalseIff(looks: seq<Result<bool, string>>)
    ensures AnyOf(looks) == Ok(false) <==> forall i :: 0 <= i < |looks| ==> looks[i] == Ok(false)
  {
    if |looks| > 0 {
      AnyFalseIff(looks[1..]);
      assert forall i :: 1 <= i < |looks| ==> looks[i] == looks[1..][i - 1];
    }
  }

  lemma {:induction false} OrthographyHolds(collate: (string, string) -> bool, results: seq<AdapterResult>)
    ensures AnyOf(Orthographies(collate, Values(results))) == Ok(false) <==>
      forall r :: r in results ==>
        HasText(r.value) && Occurs(TextOf(collate, r.value).value, "Mamp\U{0254}\U{014B}")
  {
    var looks := Orthographies(collate, Values(results));
    AnyFalseIff(looks);
    forall i | 0 <= i < |results|
      ensures looks[i] == Ok(false) <==>
        HasText(results[i].value) && Occurs(TextOf(collate, results[i].value).value, "Mamp\U{0254}\U{014B}")
    {
      if HasText(results[i].value) {
        ContainsIs(TextOf(collate, results[i].value).value, MAMPONG);
      }
    }
  }

  lemma {:induction false} EvidenceHolds(typeError: TypeErrors, results: seq<AdapterResult>)
    ensures AnyOf(Authorizations(typeError, results)) == Ok(false) <==>
      forall r :: r in results ==> r.evidence.Some? && r.evidence.value.authorizationSent == Some(false)
    ensures AnyOf(Cancellations(typeError, results)) == Ok(false) <==>
      forall r :: r in results ==> r.evidence.Some? && r.evidence.value.cancelled == Some(true)
  {
    var sent, missed := Authorizations(typeError, results), Cancellations(typeError, results);
    AnyFalseIff(sent);
    AnyFalseIff(missed);
    assert forall i :: 0 <= i < |results| ==> sent[i] == SentAuthorization(typeError, results[i]);
    assert forall i :: 0 <= i < |results| ==> missed[i] == NotCancelled(typeError, results[i]);
  }

  lemma {:induction false} PaginationIff(typeError: TypeErrors, r: AdapterResult)
    ensures CursorValid(typeError, r) == Ok(true) <==> ShowsPagination(r)
  {
    if r.evidence.Some? && r.evidence.value.pagination.Some? {
      var p := r.evidence.value.pagination.value;
      if p.firstCursor.Some? {
        Utf16LengthIs(p.firstCursor.value);
      }
    }
  }

  lemma {:induction false} CursorsHold(typeError: TypeErrors, results: seq<AdapterResult>)
    ensures CheckCursors(typeError, results) == Ok([]) <==> forall r :: r in results ==> ShowsPagination(r)
  {
    if |results| > 0 {
      var rest, last := results[..|results| - 1], results[|results| - 1];
      CursorsHold(typeError, rest);
      PaginationIff(typeError, last);
      assert results == rest + [last];
      assert CheckCursors(typeError, results).Ok? ==>
        |CheckCursors(typeError, results).value| >= |CheckCursors(typeError, rest).value|;
    }
  }

  lemma {:induction false} VersionsHold(results: seq<AdapterResult>)
    ensures !SomeLackVersion(Values(results)) <==>
      forall r :: r in results ==> exists version :: HasMember(r.value, "datasetVersion", Str(version))
  {
    var values := Values(results);
    forall i | 0 <= i < |results|
      ensures values[i] in values
      ensures !LacksDatasetVersion(values[i]) <==>
        exists version :: HasMember(results[i].value, "datasetVersion", Str(version))
    {
      PathValueIs(values[i], "datasetVersion");
    }
  }

  lemma {:induction false} OutsideHolds(results: seq<AdapterResult>)
    ensures !SomeInGhana(Values(results)) <==> forall r :: r in results ==> NothingFound(r.value)
  {
    var values := Values(results);
    forall i | 0 <= i < |results|
      ensures values[i] in values
      ensures !FoundInGhana(values[i]) <==> NothingFound(results[i].value)
    {
      PathValueIs(values[i], "region");
      PathValueIs(values[i], "district");
      PathValueIs(values[i], "nearby");
    }
  }

  lemma {:induction false} EquivalenceHolds(collate: (string, string) -> bool, results: seq<AdapterResult>)
    ensures CheckEquivalent(collate, Values(results)) == Ok([]) <==> PrintAlike(collate, results)
  {
    var values := Values(results);
    TextsThrowIff(collate, values);
    forall i | 0 <= i < |results| ensures values[i] == results[i].value && values[i] in values {
    }
    if forall v :: v in values ==> HasText(v) {
      EquivalentIff(collate, values);
    }
  }

  lemma {:induction false} AllChecksPass(collate: (string, string) -> bool, typeError: TypeErrors,
      semantics: seq<string>, results: seq<AdapterResult>)
    ensures LaterChecks(collate, typeError, semantics, results,
      FirstChecks(collate, typeError, semantics, results)) == Ok([]) <==>
      && ("protocolResultsEquivalent" in semantics ==> CheckEquivalent(collate, Values(results)) == Ok([]))
      && ("datasetVersionPresent" in semantics ==> !SomeLackVersion(Values(results)))
      && ("stableCursorPagination" in semantics ==> CheckCursors(typeError, results) == Ok([]))
      && ("preservesGhanaianOrthography" in semantics ==>
        AnyOf(Orthographies(collate, Values(results))) == Ok(false))
      && ("anonymousByDefault" in semantics ==> AnyOf(Authorizations(typeError, results)) == Ok(false))
      && ("cancellationPropagates" in semantics ==> AnyOf(Cancellations(typeError, results)) == Ok(false))
      && ("emptyOutsideGhana" in semantics ==> !SomeInGhana(Values(results)))
  {
  }

  /** The semantic checks find nothing exactly when every execution has an answer and the answers hold. */
  lemma {:induction false} PassesIff(collate: (string, string) -> bool, typeError: TypeErrors, c: Case,
      executions: seq<Execution>)
    ensures SemanticOutcome(collate, typeError, c, executions) == Ok([]) <==>
      ResultsOf(executions).Some? && AnswersHold(collate, SemanticsOf(c), ResultsOf(executions).value)
  {
    var all := ResultsOf(executions);
    if all.Some? {
      var results := all.value;
      AllChecksPass(collate, typeError, SemanticsOf(c), results);
      EquivalenceHolds(collate, results);
      VersionsHold(results);
      CursorsHold(typeError, results);
      OrthographyHolds(collate, results);
      EvidenceHolds(typeError, results);
      OutsideHolds(results);
    }
  }
}
