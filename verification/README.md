# GhanaGeo conformance evidence and SDK run-time loops, verified in Dafny

This project models the parts of the GhanaGeo repository where several programs have to agree
without sharing code, and proves that they do, or exactly when they do.

**The conformance evidence pipeline.** A TypeScript runner turns contract cases and an SDK adapter
into a report; Ruby code validates the contract and the report, normalizes reports, and checks a
matrix of reports. `Canonical` proves the digested text unambiguous and `JsonReads` that a reader by
the JSON grammar (`Numbers`, `JsonReader`) gets the value back, `SchemaValidator` proves the schema
interpreter right, `MemberOrder`, `ReportSchema`, `ReportReading` and `ReportDocuments` tie the report
schema to the checks, `Contract` proves which contracts are accepted, `Semantics` when the runner's
semantic checks throw and when they find nothing, `RunnerReturns` when a run returns a report,
`CaseVerdict` when a case passes on the adapter's answers, `RunnerAcceptance` when the validator takes
the report, `Matrix` and `MatrixFiles` what an accepted directory of reports guarantees end to end,
`EndToEnd` and `WrittenFiles` when a set of runs makes one, `Normalization` what normalizing keeps and
`Redaction` what it takes away. `PlainAcceptance` and `PlainMatrix` state what the two validators accept
without any function of theirs.

**The SDK run-time loops.** Go, TypeScript and PHP implement the same retry, pagination, bounded
reading and download designs with small differences. `Delays`, `Retry`, `Pagination`, `FetchAll`,
`BoundedRead`, `Download` and `PhpDownload` model each loop as its source writes it, against a
server, network and file system that may do anything, and prove safety, termination and the exact
relations between the languages.

**Two small concurrency protocols.** `PortalQueue` (a promise-chain queue) and `UseApi` (one abort
controller per effect run) are step systems; their theorems hold over every interleaving.

**Two printer/parser pairs.** `Routes` sends the paths the clients build through the fixture
server's router; `AuditCsv` reads the exported audit table back by section 2 of RFC 4180.

Methods and classes follow the source's loops and fields and are proved equal to specification
functions; the lemmas are about those functions. `Prelude`, `Sorting`, `Decimal` and `Json` hold
shared vocabulary. To check: `dafny verify dfyconfig.toml`.

## How the source is read

- JSON objects are lists of members in insertion order with distinct keys; a float is the decimal
  text it prints as. Ruby's byte order of UTF-8 keys is code-point order.
- What an adapter answers may be any JavaScript value: `undefined`, JSON, a value with a BigInt
  inside (it has no text), or one that contains itself (it cannot be walked either); results,
  evidence and the fields of pagination may be missing.
- SHA-256, the secret pattern, Unicode collation, regular expressions other than the digest
  pattern, the adapter and `validateResult` of the runner are parameters. Assumptions on
  them are `requires` clauses: an idempotent redaction, a collation that agrees with code points on
  the four evidence keys, a digest function whose results are digests.
- The digest pattern `^[a-f0-9]{64}$` is modelled as Ruby reads it: `^` and `$` are line anchors,
  so one line of 64 digits suffices.
- The world of a retry loop is an arbitrary sequence of attempts (cancellation, outcome, how each
  sleep ends). A server is an arbitrary function of the fetch number and the cursor. A body is an
  arbitrary list of chunks. The file system records every state it goes through.
- 64-bit arithmetic in Go wraps around and is modelled so.

## Where the clients and their documentation differ

The model follows the code. These differences are theorems below.

- Go waits a whole minute when `Retry-After` exceeds a minute, even under a smaller `maxDelay`;
  seconds beyond 9223372036 wrap to a negative delay.
- PHP's `send` takes the header `Retry-After: 0` for an absent one and draws a backoff, where Go and
  TypeScript do not wait; a PHP header of more than six digits means the whole cap.
- In TypeScript a sleep that fails inside the `try` block is handled as a transport failure and
  reported as one more event of the same attempt.
- PHP yields a page before it checks its cursor, and only `null` ends its walk; the empty string
  ends Go's and TypeScript's.
- Go's `limit+1` wraps for `MaxBytes` 2^63-1: the download then verifies an empty content.
- PHP leaves an empty temporary file behind when `fopen` fails after `tempnam` succeeded.
- An identifier that is not UTF-8 is encoded by Go and PHP, and makes the server's decoder throw.
- An identifier `..` is a dot segment even after percent-encoding, and reaches another route.
- An answer without evidence is a failure of its case in the runner's `try` block, but rejects the
  whole run in the semantic checks after it.
- PHP's `tempnam` falls back to the system's directory when the target's cannot be written; a
  `rename` from there copies, and the destination passes through truncated states.
- Two equal manifest runners let the matrix count one report twice and miss a stranger.
- `useApi` shows the old key's data as loaded between a render and its effect.

## Model

| member | source | states |
|---|---|---|
| `Canonical.CanonicalJsonUnambiguous` | tools/conformance/lib.rb:140-146 | two JSON values print the same canonical text if and only if they are equal with objects read as unordered maps |
| `Canonical.SortedTextUnambiguous` | tools/conformance/lib.rb:140-146 | the same for every antisymmetric total key order, so also for a collation that never ties |
| `Canonical.CanonicalJsonPrefixFree` | tools/conformance/lib.rb:140-146 | canonical texts inside a longer text are read back in one way: if `text(a) + x == text(b) + y` and neither continuation goes on with a number character, the values are equal and so are the continuations |
| `Canonical.PrintPrefixFree` | tools/conformance/lib.rb:143-144 | recursive printing without sorting is injective in front of any delimiter: value and continuation are both determined |
| `Canonical.MemberOrderInvisible` | tools/conformance/lib.rb:142 | permuting the members of a hash keeps it well formed and leaves its canonical text unchanged |
| `Canonical.SortedTextIsNormalText` | tools/conformance/lib.rb:142 | sorting keys while printing, level by level, is printing the value whose members are all sorted first |
| `Canonical.StableMeetsCanonical` | tools/conformance/runner-kit.ts:40-44 | TypeScript `stable` and Ruby `canonical_json` print the same text wherever collation and code-point order agree on the keys that occur |
| `JsonReads.CanonicalJsonReads` | tools/conformance/lib.rb:140-146 | a reader by the grammar of RFC 8259, written without the printer, takes the canonical text of every well-formed value back to the same value up to member order, with the keys of every object ascending in code-point order |
| `JsonReads.StableReads` | tools/conformance/runner-kit.ts:40-44 | the same reader takes the text `stable` prints back to the same value, for every collation |
| `JsonReads.SortedTextReads` | tools/conformance/lib.rb:140-146 | for every order of keys whatever, what is read back is the value with its members in that order |
| `SchemaValidator.ValidateDecides` | tools/conformance/lib.rb:54-101 | the early-exit walk answers valid only for values in the satisfaction relation and invalid only for values outside it; it gives up only when a reference is missing, because a missing key is not rescued by `oneOf`. It terminates by (value, rank of `$ref` and `oneOf` edges), also for schemas recursive through properties and items |
| `SchemaValidator.ValidateExact` | tools/conformance/lib.rb:54-101 | with acyclic `$ref`/`oneOf` edges and all references resolved, the walk accepts exactly the satisfying values |
| `SchemaValidator.ChecksPassIff` | tools/conformance/lib.rb:69-96 | the checks on one value, made in order with `TYPES`, `include?`, list differences and `uniq`, pass exactly for values of the type that keep the constant, the choices, the required and allowed keys, the lengths, pairwise different items, the pattern and the bounds |
| `SchemaValidator.CountIsOne` | tools/conformance/lib.rb:58-65 | counting one matching alternative is the same as exactly one alternative matching |
| `SchemaValidator.MembersDecide` | tools/conformance/lib.rb:73-80 | visiting members in order and stopping at the first that fails decides whether every declared property is satisfied |
| `SchemaValidator.CountDecides` | tools/conformance/lib.rb:58-64 | the number counted with rescued failures is the number of alternatives satisfied |
| `ReportSchema.ReportSchemaIsShape` | contracts/conformance/report-schema.json:1-49 | for the JSON of a report record, interpreting the report schema accepts exactly the records with the shape the report checks build on |
| `MemberOrder.SatisfiesSame` | tools/conformance/lib.rb:54-101 | whether a value satisfies a schema does not depend on the order of members anywhere inside it |
| `ReportDocuments.ReportDocumentIff` | contracts/conformance/report-schema.json:1-49 | any JSON value whatever validates against the report schema if and only if it is, up to member order, the JSON of a record with the shape the report checks assume, with a version Ruby takes for 2; the record is the one the checks read by key, and no other |
| `ReportReading.ReadBack` | tools/conformance/lib.rb:249-274 | what the checks read by key of a document is the record it was written as, whatever the order of members: no document is the JSON of two reports |
| `Contract.AcceptedContractCovers` | tools/conformance/lib.rb:204-223 | an accepted contract has a required case for each operation and each of the three protocols its inventory entry carries |
| `Contract.AcceptedContractCoversErrors` | tools/conformance/lib.rb:225-243 | an accepted contract has a required error case for each catalogued code, with the HTTP and gRPC status of the catalog |
| `Contract.AcceptedIffComplete` | tools/conformance/lib.rb:156-243 | the checks on the contract, made in order, accept exactly the complete contracts: each quota has units, both bounds or class `dynamic`, no range is inverted, each error case requires the four standard fields, ids are unique, each case names a known operation and only protocols that operation carries, each operation is run by a required case and covered over each of its protocols, each catalogued code is raised by a required case, and each error case agrees with the catalog |
| `Contract.QuotaCheckIff` | tools/conformance/lib.rb:182-197 | the quota check passes exactly when the quota has units, both bounds or class `dynamic`, bounds given together are in order, and an error case has code, message, requestId and docs among its required fields |
| `Contract.IndexLast` | tools/conformance/lib.rb:204-209 | of several inventory entries for one operation the last one is the indexed one |
| `Contract.CoveredProtocolsIff` | tools/conformance/lib.rb:220 | the protocols collected for an operation are exactly those some required case of it runs over |
| `Contract.ErrorCoverageIff` | tools/conformance/lib.rb:225-243 | the error check passes exactly when every catalogued code is raised by a required case and every error case agrees with the catalog |
| `Reports.AcceptanceIff` | tools/conformance/lib.rb:245-276 | the ordered chain of checks accepts exactly the reports that meet order-free conditions: shape, ids, required results, protocol sets, evidence pairs as multisets, digest, summary and secret scan; and it returns the report unchanged |
| `PlainAcceptance.AcceptedIffPlain` | tools/conformance/lib.rb:245-276 | the same acceptance in terms of records, indices and set sizes only: no list of ids, sorted pairs, statuses counted or protocols intersected by a function of the model occurs in it |
| `Reports.DigestIff` | contracts/conformance/report-schema.json:11 | the digest pattern, with the line anchors of Ruby, matches a text exactly when 64 lower-case digits of base 16 stand on a line of their own in it |
| `Reports.AcceptedReportBindsEvidence` | tools/conformance/lib.rb:266-273 | in an accepted report evidence for a case over a protocol exists if and only if the case is reported, names the protocol, and the SDK supports it |
| `Reports.AcceptedReportPassesRequired` | tools/conformance/lib.rb:257-263 | in an accepted report every required case sharing a protocol with the SDK is reported as passed |
| `Reports.ByIdLookup` | tools/conformance/lib.rb:264 | the index by case id holds exactly the contract's ids, each leading to a case with that id |
| `Runner.RunCase` | tools/conformance/runner-kit.ts:112-130 | the protocol loop of one case produces the failures, evidence and observed versions of the step-by-step specification, then the semantic failures, or the exception of the semantic checks, which nothing catches |
| `Runner.ExecuteStep` | tools/conformance/runner-kit.ts:114-128 | one turn of the protocol loop, its `try` block up to where it was left (the adapter, a missing result or evidence, a value that cannot be walked or printed, `validateResult`) and its `catch` block, adds to executions, failures, evidence and versions what the specification says of that pair |
| `Runner.RunConformance` | tools/conformance/runner-kit.ts:102-146 | the loop over cases returns the report, or the error, of the specification `Run`; cases without a supported protocol leave no trace, and the first case whose semantic checks throw ends the run |
| `CaseVerdict.FailuresIff` | tools/conformance/runner-kit.ts:108-131 | in a run that returns, an executed case has no failure if and only if over every shared protocol the adapter resolved with readable evidence, the judgement of the answer is empty, its value mentions no dataset version but the canonical one, and the answers are what each of the seven semantic tags asks for |
| `RunnerAcceptance.CaseReported` | tools/conformance/runner-kit.ts:108-131 | a run that returns reports exactly the executed cases, over the shared protocols: as passed and without a message if and only if the case passes on the adapter's answers, otherwise as failed and with one |
| `RunnerAcceptance.ObjectionReported` | tools/conformance/runner-kit.ts:124-131 | every failure `validateResult` finds in a recorded answer, and the message of an adapter that throws, stands in the message of its case behind the name of the protocol |
| `RunnerAcceptance.RunEvidenceIs` | tools/conformance/runner-kit.ts:120-125 | the evidence of a run is that of its recorded pairs and no other: the digests of the texts of the request and the response the adapter showed |
| `Semantics.SemanticFailures` | tools/conformance/runner-kit.ts:81-100 | the seven checks as statements return the failures of the specification or the exception of the first check that throws |
| `Semantics.ThrowsIff` | tools/conformance/runner-kit.ts:81-100 | when they throw, exactly: an execution resolved with no object; a value without a text is printed by the equivalence check, or reached by the orthography check; pagination evidence lacks what is read of it; or an answer without evidence is reached, every one before it showing what its check wants. Whether earlier checks failed makes no difference |
| `Semantics.PassesIff` | tools/conformance/runner-kit.ts:81-100 | the seven checks find nothing exactly when each execution has an answer, all print alike, and each holds what its tags ask for: a member `datasetVersion` that is a string, pages without a common id and a cursor of at least eight code units, not digits only, that was replayed, the orthography, no authorization sent, a cancellation shown, or no region, no district and an empty list nearby |
| `Semantics.EquivalentIff` | tools/conformance/runner-kit.ts:85 | the size-one test on the set of printed values passes exactly when there are values and all print the same |
| `RunnerReturns.RunReturnsIff` | tools/conformance/runner-kit.ts:102-140 | a run returns a report if and only if the semantic checks of no executed case throw, some answer mentions the canonical dataset version, and all requests together name exactly one API version, which the report then carries |
| `RunnerReturns.RejectionIff` | tools/conformance/runner-kit.ts:108-131 | the loop over the cases is left early exactly when the semantic checks of some executed case throw |
| `RunnerReturns.MissingEvidenceRejects` | tools/conformance/runner-kit.ts:89-97 | if a case with a check that reads evidence gets a first answer without any, the whole run rejects, although the guarded block turned the same defect into a failure of that case |
| `RunnerReturns.TypedNeverThrows` | tools/conformance/runner-kit.ts:21-23 | on answers that keep the adapter's types (an object with evidence, a value that prints, full pagination) the semantic checks never throw, also when other answers are exceptions |
| `RunnerReturns.CollectedIff` | tools/conformance/runner-kit.ts:46-53 | the recursive collection finds exactly the non-empty strings some member `datasetVersion` holds anywhere inside the value |
| `RunnerReturns.SeenInRun` | tools/conformance/runner-kit.ts:116-123 | a dataset or API version is in the run's sets exactly when some executed case/protocol pair showed it; a pair whose adapter threw, or whose value cannot be walked, shows no dataset |
| `RunnerAcceptance.ProducerMeetsConsumer` | tools/conformance/runner-kit.ts:102-146 | whenever a run returns, `validate_report!` accepts its report, for the contract's cases in any order, if and only if the report has the schema's shape and leaks nothing, every applicable case/protocol pair recorded evidence, and every required applicable case passes on the adapter's answers |
| `RunnerAcceptance.RunHasShape` | tools/conformance/runner-kit.ts:136-145 | the shape condition always holds for well-shaped inputs and a digest function that yields digests |
| `RunnerAcceptance.EvidenceDigestAgrees` | tools/conformance/runner-kit.ts:142 | the evidence text the runner digests is the one the validator digests, given that collation orders the four evidence keys as code points do |
| `RunnerAcceptance.RunEvidencePairs` | tools/conformance/runner-kit.ts:114-131 | evidence pairs equal the expected pairs, in order, when every applicable pair was recorded; otherwise there are strictly fewer |
| `RunnerAcceptance.RunPassesRequiredIff` | tools/conformance/runner-kit.ts:130-131 | the reported required cases are all passed exactly when no required applicable case had a failure |
| `RunnerAcceptance.RunIdsMatch` | tools/conformance/runner-kit.ts:108-131 | the reported ids are unique, known, applicable and complete for the required cases |
| `RunnerAcceptance.RunProtocolsMatch` | tools/conformance/runner-kit.ts:109-131 | each result carries exactly the protocols shared by its case and the adapter |
| `Matrix.EndToEndCoverage` | tools/conformance/validate_matrix.rb:14-47 | if contract validation and the matrix script both accept, every operation is demonstrated over every protocol its inventory entry lists: some validated report holds evidence for a required case of the operation over that protocol and records that case as passed over it |
| `Matrix.EndToEndErrorCoverage` | tools/conformance/validate_matrix.rb:14-47 | the same for every catalogued error code: it has a required case, and each such case is demonstrated over each protocol it names |
| `Matrix.RequiredCaseDemonstrated` | tools/conformance/validate_matrix.rb:34-47 | every required case is demonstrated over every protocol it names |
| `Matrix.MatrixCounting` | tools/conformance/validate_matrix.rb:22-33 | an accepted matrix has each runner's required number of reports, and each report is claimed by exactly one runner if and only if no two manifest entries of one identity (name, language, protocols) both ask for reports |
| `Matrix.AcceptedMatrixIff` | tools/conformance/validate_matrix.rb:10-20 | on report records the script accepts exactly when there are documents, the contract and every report validate, and the checks across reports accept |
| `MatrixFiles.JsonAcceptedIff` | tools/conformance/lib.rb:245-276 | a JSON document passes `validate_report!` if and only if it is, up to member order, the JSON of a record that meets the order-free conditions, digested and scanned as the document's own text; that record comes back |
| `MatrixFiles.FilesAcceptedIff` | tools/conformance/validate_matrix.rb:10-52 | on a directory of arbitrary files the script accepts if and only if there is one, the contract is accepted, each file is one it passes over (no version 2, no `sdk` hash, or a string) or holds an acceptable report, and the reports held make a complete matrix |
| `MatrixFiles.FilesCoverage` | tools/conformance/validate_matrix.rb:10-52 | if the script accepts a directory, every operation is shown over every protocol its inventory entry lists by a report that some file holds |
| `MatrixFiles.FilesErrorCoverage` | tools/conformance/validate_matrix.rb:10-52 | the same for every catalogued error code, over each protocol its required cases name |
| `Matrix.CheckedIffComplete` | tools/conformance/validate_matrix.rb:20-52 | the checks across reports, made in order, accept exactly when the counts are right, all results passed, versions and digest are uniform, every required pair has evidence and parity is shown |
| `PlainMatrix.CheckedIffPlain` | tools/conformance/validate_matrix.rb:20-52 | the same in terms of records, indices and set sizes only, with the parity case named by its operation and semantic tag |
| `Matrix.ParityIff` | tools/conformance/validate_matrix.rb:49-52 | the parity check passes exactly when there is a parity case, the first one's protocols are distinct, and evidence for it exists over exactly those protocols |
| `EndToEnd.MatrixOfRuns` | tools/conformance/validate_matrix.rb:13-52 | from runs to the matrix: adapters run over an accepted contract and the script reads their reports under any manifest; it accepts if and only if there is an adapter, each entry stands for as many adapters as it asks reports for and they add up to all of them, every run is fit (shape, no leak, every applicable pair recorded, every applicable case passes on the answers), the runs saw one API version, and the adapters together support every protocol of the required cases and of the parity case |
| `EndToEnd.FitIff` | tools/conformance/runner-kit.ts:130-145 | a run's report validates with passed results only, if and only if the run is fit: shape, no leak, every applicable pair recorded and every applicable case passing on the answers |
| `EndToEnd.ObservedOfRuns` | tools/conformance/validate_matrix.rb:44 | over recorded runs a pair of a contract case is observed if and only if the case names the protocol and some adapter supports it |
| `EndToEnd.ManifestCounts` | tools/conformance/validate_matrix.rb:22-33 | for any manifest, the script's counts and total are right if and only if each entry stands for as many adapters as it asks reports for and these are all the adapters |
| `Matrix.DoubleCounting` | tools/conformance/validate_matrix.rb:22-33 | claims summed over runners equal claimants summed over reports |
| `Matrix.EqualRunnersHideStranger` | tools/conformance/validate_matrix.rb:22-33 | the failing family: listing the entry of any accepted one-report matrix twice makes the script also accept a second report that no entry stands for, a copy under another name; the first report is counted for both entries |
| `MatrixExample.EqualRunnersExample` | tools/conformance/validate_matrix.rb:22-33 | a spelled-out contract, manifest and pair of reports on which the whole script does so |
| `WrittenFiles.FilesOfRuns` | tools/conformance/validate_matrix.rb:10-52 | from runs to the verdict on the files they wrote: the script accepts the directory under exactly the conditions on adapters, runs and manifest that `EndToEnd.MatrixOfRuns` states |
| `Normalization.NormalizeReport` | tools/conformance/lib.rb:291-299 | the reassignments of the copied report, with its count by status, give the normalized report of the specification |
| `Normalization.CountByStatus` | tools/conformance/lib.rb:296-297 | grouping by status and counting gives, for every status whatever, the number of results that have it |
| `Normalization.NormalizationIdempotent` | tools/conformance/lib.rb:291-299 | with an idempotent redaction and ids and pairs distinct after it, normalizing twice is normalizing once |
| `Normalization.NormalizationForgetsOrder` | tools/conformance/lib.rb:293-297 | any order of results and evidence, and any old digest and summary, give the same normalized report |
| `Normalization.NormalizationConserves` | tools/conformance/lib.rb:292-297 | results and evidence survive as multisets up to redaction, and digest and summary are those of the results and evidence in the output |
| `Redaction.RedactedIsWalk` | tools/conformance/lib.rb:282-289 | redacting a report record is what the recursive walk over any JSON value does to the report's JSON: no string of it is left out |
| `Redaction.NormalizedStrings` | tools/conformance/lib.rb:291-299 | every string in a normalized report, its recomputed digest aside, is the redaction of some string: none is a secret when redacting leaves none |
| `Redaction.NormalizedAscends` | tools/conformance/lib.rb:293-294 | the results of a normalized report ascend by case id and its evidence by case id and protocol, in code-point order |
| `Normalization.AcceptancePermutes` | tools/conformance/lib.rb:245-276 | acceptance of a report does not depend on the order of its results and evidence |
| `Normalization.NormalizationRepairs` | tools/conformance/normalize_report.rb:9-16 | the normalized report validates if and only if the redacted report does after only its digest and summary are recomputed |
| `Delays.Clamp` | sdks/go/client.go:96-115 | `WithRetry` errs exactly for a negative argument, otherwise stores values in bounds that never exceed what was asked and leaves values already in bounds alone |
| `Delays.BackoffDoesNotOverflow` | sdks/go/client.go:224 | after clamping, base times two to the attempt never overflows 64 bits |
| `Delays.GoDelayBounds` | sdks/go/client.go:203-229 | no Go delay exceeds a minute; it exceeds `maxDelay` if and only if `Retry-After` reads (after 64-bit wrap-around) as more than a minute and the cap is below one |
| `Delays.GoDelayNegative` | sdks/go/client.go:204-213 | a Go delay is negative if and only if the seconds read wrap around; 9223372037 seconds do |
| `Delays.TsConfigured` | packages/client/src/index.ts:163-171 | the constructor throws exactly when a given setting is negative, fractional or not finite, and otherwise keeps settings within the bounds |
| `Delays.BoundedInteger` | packages/client/src/index.ts:58-62 | a setting is refused exactly when it is negative, fractional or not finite, is at most the maximum, is kept when within it, and defaults when absent |
| `Delays.TsDelayBounds` | packages/client/src/index.ts:205-206 | every TypeScript delay lies between zero and `maxDelayMs` |
| `Delays.PhpConfigured` | sdks/php/src/RetryPolicy.php:10-19 | the PHP constructor throws exactly when the attempts are outside 1 to 6, the base delay is negative or the cap is below it; otherwise it keeps what it was given |
| `Delays.PhpDelayBounds` | sdks/php/src/RetryPolicy.php:21-40 | a PHP delay exists exactly for attempts the policy retries, lies between zero and the cap, and without a header lies between half the backoff and the backoff |
| `Delays.SameHeaderSameDelay` | sdks/php/src/Client.php:317 | for one header of n seconds and one cap, the wait the header asks for, cut at the cap, is what Go waits if and only if n is at most 60 or its delay after wrap-around meets the cap, what TypeScript waits if and only if the number is finite or the backoff meets the cap, and what PHP waits if and only if n is not 0 or the draw is 0: `send` turns the header `0` into `null` |
| `Delays.SameDateSameDelay` | sdks/go/client.go:215-223 | a header that is a date: Go and TypeScript wait until then, not at all when it has passed and never longer than the cap; PHP takes it for no header |
| `Delays.GoWaitsAsAsked` | sdks/go/client.go:203-228 | Go's condition for every n; between 61 seconds and 2^63 nanoseconds it is that the cap is a whole minute |
| `Delays.TsWaitsAsAsked` | packages/client/src/index.ts:73-79 | TypeScript's condition for every n, infinite numbers included |
| `Delays.PhpWaitsAsAsked` | sdks/php/src/RetryPolicy.php:26-39 | PHP's condition for every n and cap: the header `0` is ignored, and with a base of 2 ms or more always waited on; a header of seven digits waits the whole cap, which is what it asks only if the cap is at most that |
| `Delays.BackoffDoubles` | sdks/php/src/RetryPolicy.php:34 | without a header the PHP backoff starts at the base delay and doubles per attempt until it meets the cap |
| `Delays.SameBackoff` | sdks/go/client.go:224-228 | with equal settings Go and TypeScript wait exactly that backoff, and PHP draws between half of it and all of it |
| `Retry.GoClient.constructor` | sdks/go/client.go:52-53 | a new client has two retries, 100 ms and 2 s, which are valid settings |
| `Retry.GoClient.WithRetry` | sdks/go/client.go:96-115 | the option writes the clamped values into the client, or reports the error and changes nothing |
| `Retry.GoClient.Request` | sdks/go/client.go:136-198 | the Go retry loop ends as the specification says and appends exactly its events and sleeps |
| `Retry.FetchWithRetry` | packages/client/src/index.ts:196-216 | the TypeScript loop returns the run of the specification, including sleeps that fail inside its `try` |
| `Retry.FetchOnce` | packages/client/src/index.ts:199-213 | one turn of that loop: the `try` block and, when an error leaves it, the `catch` block |
| `Retry.Send` | sdks/php/src/Client.php:287-328 | the PHP loop, counting attempts from one, returns the run of the specification |
| `Retry.RetryEquivalence` | sdks/go/client.go:141-196 | over one world without cancellation or failing sleep, Go, TypeScript (GET) and PHP with equally many retries each end at attempt k if and only if k is the first outcome that is a response with a status other than 429, 502, 503 and 504, or the last attempt allowed; Go and TypeScript report each attempt from 0 to it once, PHP only the deciding response |
| `Retry.SecondAttemptIff` | sdks/go/client.go:200-202 | with a retry left each client makes a second attempt if and only if the first outcome is a transport error or has status 429, 502, 503 or 504 |
| `Retry.GoSleepsAre` | sdks/go/client.go:164-173 | between the attempts Go sleeps once each, as long as that attempt's header or the backoff says |
| `Retry.TsSleepsAre` | packages/client/src/index.ts:199-213 | the same for TypeScript |
| `Retry.PhpSleepsAre` | sdks/php/src/Client.php:309-318 | PHP sleeps between two attempts the delay its policy gives for that attempt's header line, or none, and a delay of zero not at all |
| `Retry.StopExists` | packages/client/src/index.ts:204 | a deciding attempt always exists: the first outcome not retried, or the last one allowed |
| `Retry.TsReportsOnceIff` | packages/client/src/index.ts:201-213 | when in-`try` sleeps may fail without an abort, TypeScript still stops at the same attempt, but reports each attempt exactly once if and only if none of them failed before it |
| `Retry.EventsToAt` | sdks/go/client.go:157-170 | the reported events are numbered contiguously and carry the status their attempt saw |
| `Retry.GoWaits` | sdks/go/client.go:164-173 | a Go request sleeps at most once per retry, each time for at most a minute, and the time slept (a negative delay sleeps not at all) is at most a minute per retry, whatever the world does |
| `Retry.TsWaits` | packages/client/src/index.ts:199-213 | whatever the world does, a TypeScript request sleeps at most twice per retry, each time for at most `maxDelayMs`, and so in total for at most twice that per retry |
| `Retry.TsSleepCount` | packages/client/src/index.ts:205-212 | a request that was not interrupted slept once for each attempt before the deciding one and once more for each of these whose in-`try` sleep failed: so once per retry if and only if none of them did |
| `Retry.PhpWaits` | sdks/php/src/Client.php:309-318 | a PHP call sleeps at most once per retry, each time for at most the policy's cap, and so in total for at most that per retry |
| `Pagination.PageIterator.constructor` | sdks/go/iterator.go:14-16 | a new iterator is in the start state |
| `Pagination.PageIterator.Next` | sdks/go/iterator.go:17-41 | one call takes the iterator's state one step further and returns true exactly when a page was added, which is then the current one |
| `Pagination.TsPages` | packages/client/src/index.ts:303-314 | the TypeScript generator, pulled any number of times, reaches the state of the specification |
| `Pagination.PhpPages` | sdks/php/src/Client.php:191-209 | the PHP generator, which yields before it looks at the cursor, reaches the state of the specification |
| `Pagination.NoCursorAskedTwice` | sdks/go/iterator.go:31-37 | against any server, however long it runs, no client asks for the same cursor twice |
| `Pagination.FetchesBounded` | packages/client/src/index.ts:305-313 | if all cursors come from a set of N, every client makes at most N + 1 fetches |
| `Pagination.PaginationTerminates` | sdks/php/src/Client.php:195-208 | a consumer that keeps pulling reaches the end within N + 2 pulls in each language |
| `Pagination.GoAndTsAgree` | sdks/go/iterator.go:17-41 | Go and TypeScript ask for the same cursors, hand out the same pages and end in the same way, after every number of pulls |
| `Pagination.PhpTrailsTs` | sdks/php/src/Client.php:200-208 | PHP and TypeScript are in corresponding states after every number of pulls at which the walk has met no empty cursor |
| `Pagination.PhpPagesAgainstGo` | sdks/php/src/Client.php:200-204 | while the walk has met no empty cursor PHP yields the Go pages, and one more exactly when Go ends in the repeated-cursor error, which PHP then raises at its next pull |
| `Pagination.SameCursorsIff` | sdks/php/src/Client.php:208 | the same at every number of pulls: after one pull more the cursors asked for are the same if and only if no empty cursor was met |
| `Pagination.EmptyCursorDiverges` | sdks/php/src/Client.php:208 | Go and PHP ask for the same cursors for ever if and only if no page the walk is ever suspended on names the empty string |
| `Pagination.EmptyCursorExample` | sdks/php/src/Client.php:208 | an input on which they differ: a server answering every fetch with one page of an empty cursor ends Go and TypeScript, while PHP sends the cursor back |
| `Pagination.ChainDelivered` | packages/client/src/index.ts:303-314 | on a chain of distinct cursors every page arrives once, in order, and the walk ends without error, in Go, TypeScript and PHP |
| `FetchAll.Fetch` | apps/admin/src/lib/api.ts:208-218 | the loop returns what the specification collects and makes at most `maxPages` fetches |
| `FetchAll.FetchAllMeetsPages` | apps/admin/src/lib/api.ts:208-218 | `fetchAll` agrees with the first `maxPages` pulls of `pages()` (fetches made, data, `complete`, error) if and only if those meet no repeated cursor |
| `FetchAll.ChainCollected` | apps/admin/src/lib/api.ts:208-218 | on a chain of distinct cursors it reports `complete` exactly when the chain fits into `maxPages`, with all items, and otherwise returns the items of exactly the first `maxPages` pages |
| `BoundedRead.Concat` | packages/client/src/index.ts:81-86 | copying the chunks into a buffer of the counted size gives the whole body |
| `BoundedRead.ReadWithLimit` | packages/client/src/index.ts:88-124 | for every way of cutting the body into chunks, the outcome depends on the whole body only: the body when it fits, otherwise too large |
| `BoundedRead.DownloadToSink` | packages/client/src/index.ts:279-299 | the sink only ever receives a prefix of at most `limit` bytes; it is closed exactly on success, after the whole body and its checksum were verified, and aborted exactly on failure |
| `BoundedRead.BoundedBody` | sdks/php/src/Client.php:339-359 | the PHP reader has the same outcome for every way the stream delivers the body, also when a read throws |
| `BoundedRead.HonestLength` | packages/client/src/index.ts:89-90 | with an honest or absent length the body comes back whole exactly when it fits |
| `BoundedRead.DishonestLength` | packages/client/src/index.ts:89-90 | a declared length changes the outcome exactly when it exceeds the limit although the body fits |
| `BoundedRead.ChecksumIff` | packages/client/src/index.ts:297-300 | a given checksum is met exactly when it is 64 hexadecimal digits that are, up to the case of letters, the digest of the body |
| `Download.CopyLimited` | sdks/go/client.go:491 | copying through the limit reader writes a prefix of the body of at most the allowed size and touches no other file at any step |
| `Download.GoDownload` | sdks/go/client.go:434-508 | only the response the retry loop ends with reaches the temporary file; without write faults success is equivalent to an accepted and verified response |
| `Download.DownloadTo` | sdks/go/client.go:406-432 | at every step the other files, the destination among them, are as before or the destination holds the complete verified content; on error all files are as before, and a temporary file is left if and only if removing it failed |
| `Download.VerifiedIsComplete` | sdks/go/client.go:491-503 | verified content is the response's complete, unbroken body within the limit if and only if the limit is below 2^63-1 or the body is empty (the sum `limit+1` wraps) |
| `Download.AcceptedIff` | sdks/go/client.go:477 | a response is accepted exactly when the retry loop ends in it and its status is between 200 and 299 |
| `Download.VerifiesIff` | sdks/go/client.go:491-503 | below the greatest limit, content verifies exactly when the body came whole, fits the limit (64 MiB unless one is given) and has the expected digest up to case |
| `PhpDownload.Receive` | sdks/php/src/Client.php:375-390 | the receiving loop stores exactly the body when it comes whole, fits and all writes succeed, fails otherwise, and touches only the temporary file |
| `PhpDownload.ConsumeDownload` | sdks/php/src/Client.php:361-414 | the guarantees for PHP, with reads that throw: on error all other files are as before, unless a copying rename broke off, and the temporary file is left if and only if `fopen` failed after `tempnam` or the final `unlink` failed; on success the destination was old or complete at every step if and only if the rename did not copy, or no copied part differs from both |
| `PhpDownload.PhpVerifiesIff` | sdks/php/src/Client.php:375-395 | a PHP download verifies exactly when the body came whole, fits the limit and, if a checksum was given, this is the digest up to case, with or without `sha256:` in front |
| `PhpDownload.Store` | sdks/php/src/Client.php:397-401 | `rename` moves the file, or copies it when `tempnam` had fallen back to another file system: every state shows the old destination or a prefix of the verified content |
| `PortalQueue.Portal.constructor` | apps/portal/src/app/account-workspace.tsx:84 | the queue starts with a resolved promise |
| `PortalQueue.Portal.PortalRequest` | apps/portal/src/app/account-workspace.tsx:100-105 | a call chains a request on the current tail and makes that request's own tail the current one |
| `PortalQueue.Portal.Run` | apps/portal/src/app/account-workspace.tsx:87-92 | the reaction to the settled tail puts the request in flight |
| `PortalQueue.Portal.Settle` | apps/portal/src/app/account-workspace.tsx:93-98 | the response settles the caller's promise: an error status throws with the server's message when there is one |
| `PortalQueue.Portal.SettleTail` | apps/portal/src/app/account-workspace.tsx:101-104 | either outcome fulfils the tail |
| `PortalQueue.AtMostOneInFlight` | apps/portal/src/app/account-workspace.tsx:100-104 | in every interleaving at most one request is in flight |
| `PortalQueue.StartsInOrder` | apps/portal/src/app/account-workspace.tsx:100-104 | requests start in submission order |
| `PortalQueue.StartsAfterPredecessors` | apps/portal/src/app/account-workspace.tsx:100 | when a request starts, every earlier one has settled |
| `PortalQueue.NeverBlocked` | apps/portal/src/app/account-workspace.tsx:100-104 | when nothing more can move, every request has settled: a rejection blocks nobody |
| `PortalQueue.MovesAreProgress` | apps/portal/src/app/account-workspace.tsx:100-105 | a run makes exactly as many moves as the progress it has made, at most three per request |
| `PortalQueue.OwnOutcome` | apps/portal/src/app/account-workspace.tsx:87-105 | a caller's promise is settled exactly when its own request was answered, once, and with that answer: its payload on success, else the network's error, the server's message or the general one |
| `UseApi.Hook.Render` | apps/admin/src/components/data.tsx:27-40 | a render records the key and schedules the effect when the key changed |
| `UseApi.Hook.RunEffect` | apps/admin/src/components/data.tsx:42-48 | the effect aborts the previous controller, enters the loading state and starts a request with a new controller |
| `UseApi.Hook.Leave` | apps/admin/src/components/data.tsx:57 | unmounting aborts the last controller |
| `UseApi.Hook.OnSettled` | apps/admin/src/components/data.tsx:48-56 | a settled request is shown unless its controller is aborted or the error is an abort |
| `UseApi.OneLiveController` | apps/admin/src/components/data.tsx:43-57 | in every interleaving the one controller not aborted, while mounted, is that of the latest effect run |
| `UseApi.NoStaleResponse` | apps/admin/src/components/data.tsx:47-59 | whenever `loading` is false what is shown is the outcome of the latest request, its data and no error or its error and no data; it belongs to the rendered key if and only if no effect for a newer render is still scheduled |
| `UseApi.LoadingEndsIff` | apps/admin/src/components/data.tsx:47-56 | while mounted, `loading` is false if and only if the latest request settled with something to show |
| `UseApi.LateResponseIgnored` | apps/admin/src/components/data.tsx:50-53 | a response of an earlier effect run, or one after unmounting, leaves the shown state alone |
| `UseApi.RenderBeforeEffect` | apps/admin/src/components/data.tsx:42-47 | the window left open: a new key is rendered while the old key's data still counts as loaded |
| `AuditCsv.ExportRoundTrip` | apps/admin/src/components/admin-operations.tsx:1253-1275 | reading the text exported for a non-empty list of entries returns exactly the header and one row per entry, whatever the fields contain |
| `AuditCsv.CsvRoundTrip` | apps/admin/src/components/admin-operations.tsx:1268-1275 | the same for any plain header and any rows of arbitrary fields |
| `AuditCsv.ExportInjective` | apps/admin/src/components/admin-operations.tsx:1253-1275 | two exports are the same text exactly when their rows are the same |
| `AuditCsv.RowColumns` | apps/admin/src/components/admin-operations.tsx:1253-1266 | each of the thirteen columns is headed by its name and holds that field of the entry |
| `Routes.DecodeEncode` | tools/conformance/fixture-server.ts:155 | decoding undoes the percent-encoding of Go, JavaScript and PHP exactly for identifiers in UTF-8, and throws for all others |
| `Routes.EncodedOctetIs` | packages/client/src/index.ts:231-245 | each encoder keeps the unreserved characters of RFC 3986, Go `$&+=:@` as well and JavaScript `!*'()`; any other octet becomes a percent sign and two capital digits of base 16 |
| `Routes.Utf8Iff` | tools/conformance/fixture-server.ts:155 | the octets the decoder takes for text are exactly the encodings of sequences of scalar values by section 3 of RFC 3629 |
| `Routes.EncodedDot` | packages/client/src/index.ts:231-245 | an encoded identifier is a dot segment exactly when the identifier is `.` or `..` |
| `Routes.RoutesDisjoint` | tools/conformance/fixture-server.ts:98-119 | no path matches two route patterns |
| `Routes.RouteIff` | tools/conformance/fixture-server.ts:98-119 | the router names an operation exactly when the path matches that operation's pattern, in whatever order the patterns are listed |
| `Routes.Pathname` | packages/client/src/index.ts:180 | the URL parser hands on the segments unchanged when none is a dot segment, and otherwise a shorter path or one ending in a slash |
| `Routes.DotsAre` | packages/client/src/index.ts:180 | a double dot is two dots in a row, each as it is or percent-encoded with either case of the letter |
| `Routes.Received` | tools/conformance/fixture-server.ts:98-164 | the server takes a path for an operation with an input exactly when no segment is a dot segment and the operation's own pattern and reader, which decodes all parts, treat the segments as sent so |
| `Routes.RouteRoundTrip` | tools/conformance/fixture-server.ts:98-164 | for every operation and encoder the server recovers operation and parameters if and only if each path parameter is non-empty, in UTF-8 and no dot segment, and a download names a served entity and format |
| `Routes.IllFormedThrows` | tools/conformance/fixture-server.ts:155 | a routable request whose parameter is not UTF-8 reaches its operation, where decoding throws |
| `Routes.IllFormedExample` | tools/conformance/fixture-server.ts:155 | the single octet 255 is such a parameter |
| `Routes.DotDotMisroutes` | sdks/go/client.go:285-287 | the identifier `..` turns a region's district listing into the listing of all districts |
| `Routes.ArtifactIff` | sdks/go/client.go:439 | the encoded `entity.format` is one the router serves exactly when entity and format are |

## Left out

- The network, TLS, timers, real promises and `AbortSignal` wiring, and the real file system appear only as sequences of outcomes, steps and maps.
- `validateResult` of the runner kit is an arbitrary judging function, which may throw: every theorem about runs holds for any.
- JavaScript getters and proxies that throw when a property is read, and `null` where an object is missing: its message differs from that of `undefined`.
- Error paths and messages of the schema validator; its numeric bounds are integers, as in the repository's schemas.
- Loading YAML, generating the operation inventory, computing the contract digest, and validating case files against the case schema: a case is a record.
- `stable` on an `undefined` or a function nested inside a value, and on numbers whose JavaScript and Ruby texts differ; evidence entries contain strings only.
- Ties in Ruby's unstable `sort_by`: `Sort` keeps the input order, and the lemmas that depend on order require distinct keys.
- `datasetVersion` of `fetchAll`, and the response-without-reader branch of `readWithLimit`.
- A file function that fails after it took effect; the failures modelled are those of creating, writing, syncing, closing, renaming and removing, and of reading the body.
- Decoding of JSON bodies and API errors after a retry loop has ended, and the message texts of errors.
- The deadline, header and logger options of the PHP client, which do not affect the loop.
- Delays.TsWaitsAsAsked: takes a digit string too long for a finite number not to be a date either; what `Date.parse` makes of one depends on the JavaScript engine.
- Rounding of JavaScript numbers beyond 2^53, which lie far above every cap.
- PHP refuses an empty path parameter before it builds a path; the route model treats the path as built, and as not recovered.
- Query strings, the host part of URLs, the GraphQL and gRPC fixtures.
- RunnerAcceptance.RunHasShape: requires a non-empty API version, which the version pattern of the runner always yields.
- React rendering, the admin, portal and web pages, the API and worker services, the Dart and Java SDKs, the CLI and configuration scripts.
