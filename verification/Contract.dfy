/**
 * The conformance contract and the checks `validate!` makes on it before any report is read.
 * Case files have passed the case schema, so a case is a record.
 */
module Contract {
  import opened Prelude

  datatype Quota = Quota(
    quotaClass: string, units: Option<int>, minimumUnits: Option<int>, maximumUnits: Option<int>)

  datatype Expectation =
    | Success(quota: Quota, semantics: seq<string>)
    | Failure(quota: Quota, httpStatus: int, code: string, grpcStatus: string, requiredFields: seq<string>)

  datatype Case = Case(
    id: string, operation: string, required: bool, protocols: seq<string>, expected: Expectation)

  /** An operation and the keys its inventory entry carries. */
  datatype Operation = Operation(operation: string, keys: set<string>)

  datatype CatalogError = CatalogError(code: string, http: int, grpc: string, details: seq<string>)

  datatype ContractError =
    | QuotaUndeclared(id: string)
    | QuotaInverted(id: string)
    | ErrorFieldsOmitted(id: string)
    | DuplicateIds
    | OperationUncovered
    | OperationUnknown
    | ProtocolUnsupported(id: string)
    | ProtocolUncovered(operation: string)
    | ErrorUncovered
    | ErrorUnknown
    | HttpStatusDiffers(id: string)
    | GrpcStatusDiffers(id: string)
    | DetailOmitted(id: string)

  const PROTOCOLS := ["rest", "grpc", "graphql"]

  /** The three protocols there are. */
  predicate IsProtocol(p: string) { p == "rest" || p == "grpc" || p == "graphql" }

  lemma {:induction false} ProtocolsAre()
    ensures forall p :: p in PROTOCOLS <==> IsProtocol(p)
  {
    assert PROTOCOLS[0] == "rest" && PROTOCOLS[1] == "grpc" && PROTOCOLS[2] == "graphql";
  }

  const REQUIRED_ERROR_FIELDS := ["code", "message", "requestId", "docs"]

  /** `each` over checks that raise: the first failure, if any. */
  function FirstFailure<A(!new), E>(check: A -> Option<E>, s: seq<A>): (r: Option<E>)
    ensures r.None? <==> forall x :: x in s ==> check(x).None?
  {
    if |s| == 0 then None
    else if check(s[0]).Some? then check(s[0])
    else FirstFailure(check, s[1..])
  }

  // ---------------------------------------------------------------- per-case semantics

  function CheckQuota(c: Case): Option<ContractError> {
    var cost := c.expected.quota;
    var ranged := cost.minimumUnits.Some? && cost.maximumUnits.Some?;
    if !(cost.units.Some? || ranged || cost.quotaClass == "dynamic") then Some(QuotaUndeclared(c.id))
    else if ranged && cost.minimumUnits.value > cost.maximumUnits.value then Some(QuotaInverted(c.id))
    else if c.expected.Failure? && !Covered(REQUIRED_ERROR_FIELDS, c.expected.requiredFields) then
      Some(ErrorFieldsOmitted(c.id))
    else None
  }

  function Ids(cases: seq<Case>): seq<string> { Map((c: Case) => c.id, cases) }

  // ---------------------------------------------------------------- operation and protocol coverage

  function OperationNames(inventory: seq<Operation>): seq<string> {
    Map((o: Operation) => o.operation, inventory)
  }

  /** The index built by `each_with_object`: a later entry replaces an earlier one. */
  function Index(inventory: seq<Operation>): map<string, Operation> {
    if |inventory| == 0 then map[]
    else
      var last := inventory[|inventory| - 1];
      Index(inventory[..|inventory| - 1])[last.operation := last]
  }

  lemma {:induction false} IndexKeys(inventory: seq<Operation>)
    ensures forall name :: name in Index(inventory) <==> name in OperationNames(inventory)
    ensures forall name :: name in Index(inventory) ==> Index(inventory)[name] in inventory
  {
    if |inventory| > 0 {
      var rest, last := inventory[..|inventory| - 1], inventory[|inventory| - 1];
      IndexKeys(rest);
      assert inventory == rest + [last];
      assert OperationNames(inventory) == OperationNames(rest) + [last.operation];
    }
  }

  /** Of the entries with one key the last one counts. */
  lemma {:induction false} IndexLast(inventory: seq<Operation>, i: nat)
    requires i < |inventory| && forall j :: i < j < |inventory| ==> inventory[j].operation != inventory[i].operation
    ensures inventory[i].operation in Index(inventory) && Index(inventory)[inventory[i].operation] == inventory[i]
  {
    if i < |inventory| - 1 {
      IndexLast(inventory[..|inventory| - 1], i);
    }
  }

  function Supported(o: Operation): seq<string> { Filter((p: string) => p in o.keys, PROTOCOLS) }

  function Required(cases: seq<Case>): seq<Case> { Filter((c: Case) => c.required, cases) }

  function OperationOf(c: Case): string { c.operation }

  function CheckOperationCoverage(inventory: seq<Operation>, cases: seq<Case>): Option<ContractError> {
    var names := OperationNames(inventory);
    if !Covered(names, Map(OperationOf, Required(cases))) then Some(OperationUncovered)
    else if !Covered(Map(OperationOf, cases), names) then Some(OperationUnknown)
    else None
  }

  function CheckCaseProtocols(index: map<string, Operation>, c: Case): Option<ContractError> {
    if c.operation in index && Covered(c.protocols, Supported(index[c.operation])) then None
    else Some(ProtocolUnsupported(c.id))
  }

  /** Protocols of the required cases of one operation. */
  function CoveredProtocols(cases: seq<Case>, operation: string): seq<string> {
    Flatten(Map((c: Case) => c.protocols, Filter((c: Case) => c.required && c.operation == operation, cases)))
  }

  function CheckProtocolCoverage(index: map<string, Operation>, cases: seq<Case>, name: string): Option<ContractError> {
    if name in index && !Covered(Supported(index[name]), CoveredProtocols(cases, name)) then
      Some(ProtocolUncovered(name))
    else None
  }

  // ---------------------------------------------------------------- error coverage

  function Catalog(errors: seq<CatalogError>): map<string, CatalogError> {
    if |errors| == 0 then map[]
    else
      var last := errors[|errors| - 1];
      Catalog(errors[..|errors| - 1])[last.code := last]
  }

  /** Of the entries with one key the last one counts. */
  lemma {:induction false} CatalogLast(errors: seq<CatalogError>, i: nat)
    requires i < |errors| && forall j :: i < j < |errors| ==> errors[j].code != errors[i].code
    ensures errors[i].code in Catalog(errors) && Catalog(errors)[errors[i].code] == errors[i]
  {
    if i < |errors| - 1 {
      CatalogLast(errors[..|errors| - 1], i);
    }
  }

  predicate ExpectsError(c: Case) { c.expected.Failure? }

  function CodeOf(c: Case): string { if c.expected.Failure? then c.expected.code else "" }

  function Codes(cases: seq<Case>): seq<string> { Map(CodeOf, Filter(ExpectsError, cases)) }

  function CheckErrorCase(catalog: map<string, CatalogError>, c: Case): Option<ContractError> {
    if !c.expected.Failure? then None
    else if c.expected.code !in catalog then Some(ErrorUnknown)
    else
      var source := catalog[c.expected.code];
      if c.expected.httpStatus != source.http then Some(HttpStatusDiffers(c.id))
      else if c.expected.grpcStatus != source.grpc then Some(GrpcStatusDiffers(c.id))
      else if exists d :: d in source.details && "details." + d !in c.expected.requiredFields then
        Some(DetailOmitted(c.id))
      else None
  }

  function CheckErrorCoverage(errors: seq<CatalogError>, cases: seq<Case>): Option<ContractError> {
    var catalog := Catalog(errors);
    if exists code :: code in catalog.Keys && code !in Codes(Required(cases)) then Some(ErrorUncovered)
    else if exists code :: code in Codes(cases) && code !in catalog then Some(ErrorUnknown)
    else FirstFailure((c: Case) => CheckErrorCase(catalog, c), cases)
  }

  // ---------------------------------------------------------------- validate!

  function Reject(failure: Option<ContractError>, next: Result<seq<Case>, ContractError>)
    : Result<seq<Case>, ContractError>
  {
    if failure.Some? then Err(failure.value) else next
  }

  /** The checks in the order the library makes them; on success the cases come back. */
  function Validate(inventory: seq<Operation>, errors: seq<CatalogError>, cases: seq<Case>)
    : Result<seq<Case>, ContractError>
  {
    var index := Index(inventory);
    Reject(FirstFailure(CheckQuota, cases),
    Reject(if Distinct(Ids(cases)) then None else Some(DuplicateIds),
    Reject(CheckOperationCoverage(inventory, cases),
    Reject(FirstFailure((c: Case) => CheckCaseProtocols(index, c), cases),
    Reject(FirstFailure((name: string) => CheckProtocolCoverage(index, cases, name), OperationNames(inventory)),
    Reject(CheckErrorCoverage(errors, cases),
    Ok(cases)))))))
  }

  // ---------------------------------------------------------------- what acceptance means

  /** A required case of the operation that runs over the protocol. */
  ghost predicate CoversPair(c: Case, cases: seq<Case>, operation: string, protocol: string) {
    c in cases && c.required && c.operation == operation && protocol in c.protocols
  }

  /** A required case that expects the error code. */
  ghost predicate RaisesCode(c: Case, cases: seq<Case>, code: string) {
    c in cases && c.required && c.expected.Failure? && c.expected.code == code
  }

  /** Only protocols the operation's entry carries, and that operation is in the inventory. */
  ghost predicate ClaimsSupported(inventory: seq<Operation>, c: Case) {
    && c.operation in Index(inventory)
    && forall p :: p in c.protocols ==> IsProtocol(p) && p in Index(inventory)[c.operation].keys
  }

  ghost predicate RunsOperation(c: Case, cases: seq<Case>, operation: string) {
    c in cases && c.required && c.operation == operation
  }

  /** Some required case runs the operation. */
  ghost predicate OperationCovered(cases: seq<Case>, operation: string) {
    exists c :: RunsOperation(c, cases, operation)
  }

  /** Over each protocol of its entry some required case runs the operation. */
  ghost predicate ProtocolsCovered(inventory: seq<Operation>, cases: seq<Case>, operation: string)
    requires operation in Index(inventory)
  {
    forall p :: IsProtocol(p) && p in Index(inventory)[operation].keys ==>
      exists c :: CoversPair(c, cases, operation, p)
  }

  ghost predicate CodeCovered(cases: seq<Case>, code: string) { exists c :: RaisesCode(c, cases, code) }

  /** An error case has a catalogued code with the catalog's statuses and all its details. */
  ghost predicate AgreesWithCatalog(errors: seq<CatalogError>, c: Case) {
    c.expected.Failure? ==>
      && c.expected.code in Catalog(errors)
      && c.expected.httpStatus == Catalog(errors)[c.expected.code].http
      && c.expected.grpcStatus == Catalog(errors)[c.expected.code].grpc
      && forall d :: d in Catalog(errors)[c.expected.code].details ==> "details." + d in c.expected.requiredFields
  }

  ghost predicate OperationsCovered(inventory: seq<Operation>, cases: seq<Case>) {
    && (forall name :: name in Index(inventory) ==> OperationCovered(cases, name))
    && (forall name :: name in Index(inventory) ==> ProtocolsCovered(inventory, cases, name))
  }

  ghost predicate ErrorsCovered(errors: seq<CatalogError>, cases: seq<Case>) {
    && (forall code :: code in Catalog(errors) ==> CodeCovered(cases, code))
    && (forall c :: c in cases ==> AgreesWithCatalog(errors, c))
  }

  ghost predicate AllClaimsSupported(inventory: seq<Operation>, cases: seq<Case>) {
    forall c :: c in cases ==> ClaimsSupported(inventory, c)
  }

  /** Exact units, a range that is not inverted, or a dynamic class; bounds given beside units are in order too. */
  ghost predicate QuotaDeclared(q: Quota) {
    && (q.units.Some? || (q.minimumUnits.Some? && q.maximumUnits.Some?) || q.quotaClass == "dynamic")
    && forall least, most :: q.minimumUnits == Some(least) && q.maximumUnits == Some(most) ==> least <= most
  }

  /** An error case requires the four fields every error carries. */
  ghost predicate ErrorFieldsRequired(e: Expectation) {
    e.Failure? ==>
      && "code" in e.requiredFields && "message" in e.requiredFields
      && "requestId" in e.requiredFields && "docs" in e.requiredFields
  }

  lemma {:induction false} QuotaCheckIff(c: Case)
    ensures CheckQuota(c).None? <==> QuotaDeclared(c.expected.quota) && ErrorFieldsRequired(c.expected)
  {
    var q := c.expected.quota;
    if q.minimumUnits.Some? && q.maximumUnits.Some? {
      assert QuotaDeclared(q) ==> q.minimumUnits.value <= q.maximumUnits.value;
    }
    if c.expected.Failure? {
      assert "code" in REQUIRED_ERROR_FIELDS && "message" in REQUIRED_ERROR_FIELDS;
      assert "requestId" in REQUIRED_ERROR_FIELDS && "docs" in REQUIRED_ERROR_FIELDS;
      assert ErrorFieldsRequired(c.expected) <==> Covered(REQUIRED_ERROR_FIELDS, c.expected.requiredFields);
    }
  }

  ghost predicate AllDeclared(cases: seq<Case>) {
    forall c :: c in cases ==> QuotaDeclared(c.expected.quota) && ErrorFieldsRequired(c.expected)
  }

  lemma {:induction false} QuotasIff(cases: seq<Case>)
    ensures FirstFailure(CheckQuota, cases).None? <==> AllDeclared(cases)
  {
    forall c | c in cases
      ensures CheckQuota(c).None? <==> QuotaDeclared(c.expected.quota) && ErrorFieldsRequired(c.expected)
    {
      QuotaCheckIff(c);
    }
  }

  /** A contract as the checks want it, whatever the order of cases, entries and checks. */
  ghost predicate Complete(inventory: seq<Operation>, errors: seq<CatalogError>, cases: seq<Case>) {
    && AllDeclared(cases)
    && Distinct(Ids(cases))
    && AllClaimsSupported(inventory, cases)
    && OperationsCovered(inventory, cases)
    && ErrorsCovered(errors, cases)
  }

  lemma {:induction false} MapMember<A, B>(f: A -> B, s: seq<A>, y: B)
    ensures y in Map(f, s) <==> exists x :: x in s && f(x) == y
  {
    if y in Map(f, s) {
      var i :| 0 <= i < |s| && Map(f, s)[i] == y;
      assert s[i] in s;
    }
    if x :| x in s && f(x) == y {
      var i :| 0 <= i < |s| && s[i] == x;
      assert Map(f, s)[i] == y;
    }
  }

  lemma {:induction false} ClaimsIff(inventory: seq<Operation>, cases: seq<Case>)
    ensures FirstFailure((c: Case) => CheckCaseProtocols(Index(inventory), c), cases).None? <==>
      AllClaimsSupported(inventory, cases)
  {
    ProtocolsAre();
    forall c | c in cases ensures CheckCaseProtocols(Index(inventory), c).None? <==> ClaimsSupported(inventory, c) {
    }
  }

  lemma {:induction false} OperationCoveredIff(cases: seq<Case>, name: string)
    ensures name in Map(OperationOf, Required(cases)) <==> OperationCovered(cases, name)
  {
    MapMember(OperationOf, Required(cases), name);
    if c :| c in Required(cases) && OperationOf(c) == name {
      assert RunsOperation(c, cases, name);
    }
    if c :| RunsOperation(c, cases, name) {
      assert c in Required(cases) && OperationOf(c) == name;
    }
  }

  lemma {:induction false} KnownOperations(inventory: seq<Operation>, cases: seq<Case>)
    requires AllClaimsSupported(inventory, cases)
    ensures Covered(Map(OperationOf, cases), OperationNames(inventory))
  {
    IndexKeys(inventory);
    forall name | name in Map(OperationOf, cases) ensures name in OperationNames(inventory) {
      MapMember(OperationOf, cases, name);
    }
  }

  lemma {:induction false} OperationCoverageIff(inventory: seq<Operation>, cases: seq<Case>)
    requires AllClaimsSupported(inventory, cases)
    ensures CheckOperationCoverage(inventory, cases).None? <==>
      forall name :: name in Index(inventory) ==> OperationCovered(cases, name)
  {
    IndexKeys(inventory);
    KnownOperations(inventory, cases);
    forall name | name in OperationNames(inventory)
      ensures name in Map(OperationOf, Required(cases)) <==> OperationCovered(cases, name)
    {
      OperationCoveredIff(cases, name);
    }
  }

  lemma {:induction false} CoveredProtocolsIff(cases: seq<Case>, name: string, p: string)
    ensures p in CoveredProtocols(cases, name) <==> exists c :: CoversPair(c, cases, name, p)
  {
    var chosen := Filter((c: Case) => c.required && c.operation == name, cases);
    var lists := Map((c: Case) => c.protocols, chosen);
    if p in CoveredProtocols(cases, name) {
      var i :| 0 <= i < |lists| && p in lists[i];
      assert chosen[i] in chosen;
      assert CoversPair(chosen[i], cases, name, p);
    }
    if c :| CoversPair(c, cases, name, p) {
      assert c in chosen;
      var i :| 0 <= i < |chosen| && chosen[i] == c;
      assert p in lists[i];
    }
  }

  lemma {:induction false} ProtocolCoverageIff(inventory: seq<Operation>, cases: seq<Case>)
    ensures FirstFailure((name: string) => CheckProtocolCoverage(Index(inventory), cases, name),
        OperationNames(inventory)).None? <==>
      forall name :: name in Index(inventory) ==> ProtocolsCovered(inventory, cases, name)
  {
    IndexKeys(inventory);
    ProtocolsAre();
    forall name | name in Index(inventory)
      ensures CheckProtocolCoverage(Index(inventory), cases, name).None? <==> ProtocolsCovered(inventory, cases, name)
    {
      forall p | p in Supported(Index(inventory)[name])
        ensures p in CoveredProtocols(cases, name) <==> exists c :: CoversPair(c, cases, name, p)
      {
        CoveredProtocolsIff(cases, name, p);
      }
    }
  }

  lemma {:induction false} CodeCoveredIff(cases: seq<Case>, code: string)
    ensures code in Codes(Required(cases)) <==> CodeCovered(cases, code)
  {
    var failing := Filter(ExpectsError, Required(cases));
    MapMember(CodeOf, failing, code);
    if c :| c in failing && CodeOf(c) == code {
      assert RaisesCode(c, cases, code);
    }
    if c :| RaisesCode(c, cases, code) {
      assert c in failing && CodeOf(c) == code;
    }
  }

  lemma {:induction false} KnownCodes(errors: seq<CatalogError>, cases: seq<Case>, code: string)
    requires forall c :: c in cases ==> CheckErrorCase(Catalog(errors), c).None?
    requires code in Codes(cases)
    ensures code in Catalog(errors)
  {
    MapMember(CodeOf, Filter(ExpectsError, cases), code);
    var c :| c in Filter(ExpectsError, cases) && CodeOf(c) == code;
    assert CheckErrorCase(Catalog(errors), c).None?;
  }

  lemma {:induction false} ErrorCaseIff(errors: seq<CatalogError>, c: Case)
    ensures CheckErrorCase(Catalog(errors), c).None? <==> AgreesWithCatalog(errors, c)
  {
  }

  lemma {:induction false} ErrorCoverageIff(errors: seq<CatalogError>, cases: seq<Case>)
    ensures CheckErrorCoverage(errors, cases).None? <==> ErrorsCovered(errors, cases)
  {
    forall code ensures code in Codes(Required(cases)) <==> CodeCovered(cases, code) {
      CodeCoveredIff(cases, code);
    }
    forall c | c in cases ensures CheckErrorCase(Catalog(errors), c).None? <==> AgreesWithCatalog(errors, c) {
      ErrorCaseIff(errors, c);
    }
    if forall c :: c in cases ==> CheckErrorCase(Catalog(errors), c).None? {
      forall code | code in Codes(cases) ensures code in Catalog(errors) {
        KnownCodes(errors, cases, code);
      }
    }
  }

  /** The checks, made in order, accept exactly the complete contracts. */
  lemma {:induction false} AcceptedIffComplete(inventory: seq<Operation>, errors: seq<CatalogError>, cases: seq<Case>)
    ensures Validate(inventory, errors, cases).Ok? <==> Complete(inventory, errors, cases)
    ensures Validate(inventory, errors, cases).Ok? ==> Validate(inventory, errors, cases).value == cases
  {
    QuotasIff(cases);
    ClaimsIff(inventory, cases);
    if AllClaimsSupported(inventory, cases) {
      OperationCoverageIff(inventory, cases);
    }
    ProtocolCoverageIff(inventory, cases);
    ErrorCoverageIff(errors, cases);
  }

  /** An accepted contract has a required case for each operation and each protocol its entry lists. */
  lemma {:induction false} AcceptedContractCovers(inventory: seq<Operation>, errors: seq<CatalogError>,
      cases: seq<Case>, operation: string, protocol: string)
    requires Validate(inventory, errors, cases).Ok?
    requires operation in Index(inventory)
    requires IsProtocol(protocol) && protocol in Index(inventory)[operation].keys
    ensures exists c :: CoversPair(c, cases, operation, protocol)
  {
    AcceptedIffComplete(inventory, errors, cases);
    assert ProtocolsCovered(inventory, cases, operation);
  }

  /** An accepted contract has a required error case for each catalogued code, agreeing with the catalog. */
  lemma {:induction false} AcceptedContractCoversErrors(inventory: seq<Operation>, errors: seq<CatalogError>,
      cases: seq<Case>, code: string)
    requires Validate(inventory, errors, cases).Ok?
    requires code in Catalog(errors)
    ensures exists c :: RaisesCode(c, cases, code) && AgreesWithCatalog(errors, c)
  {
    AcceptedIffComplete(inventory, errors, cases);
    assert CodeCovered(cases, code);
    var c :| RaisesCode(c, cases, code);
    assert AgreesWithCatalog(errors, c);
  }
}
