# Verified models of OxDeAI's authorization kernels

A Dafny 4.11 project that models five self-contained kernels of the repository and proves what the rest of
it relies on. `dafny verify dfyconfig.toml` checks everything.

| files | kernel |
|---|---|
| `Utf8Order`, `KeySort`, `Decimal`, `JsonText`, `Canonical`, `CanonicalLaws`, `CanonicalOrder`, `CanonicalErrors` | canonicalization-v1: the values, their canonical trees and text, and its laws |
| `HarnessLemmas`, `PythonHarness`, `GoHarness`, `TypeScriptHarness` | the three harness printers, loop by loop, against that one specification |
| `AuditChain`, `AuditEvents` | the hash chain over audit events and the printer it is folded over |
| `JsValues` | JavaScript values, `JSON.stringify` and `JSON.parse` |
| `AsciiEscape` | the ASCII string literals of the signed Sift payload |
| `ObjectGraph`, `Snapshot`, `SnapshotLaws`, `SnapshotErrors` | the plain-data snapshot of an untrusted object graph |
| `ReplayStore`, `ExecuteProtocol`, `ExecuteSafety`, `ExecuteAnswers` | the PEP execute protocol over every interleaving, with an expiring replay store |
| `BoundaryEvents`, `BoundaryAccounting` | boundary-event accounting across two nested catches |
| `LatencyStats` | order statistics of a benchmark run and of aggregated runs |
| `CliStore`, `AuditFile` | state and audit-log files of the command line tool |
| `Delegation` | DelegationV1 checks of the conformance harness |

## How the models are set up

- Unicode NFC is a function parameter, idempotent where that is needed. SHA-256 is a function parameter; since no
  function from strings to 64 hex digits is injective, tamper evidence is stated as "equal histories, or these two
  hashed strings collide". String quoting is a parameter where the three printers are compared and JSON quoting where
  text is read back.
- A Dafny `char` is a Unicode scalar value. `AsciiEscape` works on UTF-16 code units instead, because unpaired
  surrogates matter there.
- Library sorts are modelled by their contract, a sorted rearrangement; `KeySort.AnySortIsSort` shows that the
  contract leaves one result.
- The object graph is a finite map from node ids to nodes. Every reflective operation a Proxy could trap is a method
  whose precondition excludes proxies; the model has no operation that runs a getter.
- Time in the execute protocol is a millisecond clock that advances between any two steps; seconds are obtained by
  flooring, as the source does. Redis and the PEP read the same clock. What authorization verification checks besides
  the expiry is one abstract flag.
- Statistics are over the real numbers; `Math.sqrt` is a parameter.
- The order in which a JavaScript engine enumerates the keys of an object is a parameter in `JsValues`.

## Where the code does not do what one would expect

Each of these is kept as the code has it; the lemma named gives the exact condition.

- The Python printer's error code for a mapping that holds both a non-string key and two keys with one NFC form
  depends on entry order. `CanonicalOrder.OrderFreeIff` says exactly for which values the outcome is independent of
  order; values with string keys only, all that Go maps and JavaScript objects hold, always are
  (`CanonicalOrder.StringKeysOrderFree`). `docs/spec/core/canonicalization-v1.md` asks for deterministic rejection.
- An agent id `__proto__` disappears from a state that is written and read back, because `out[key] = …` on `{}` sets
  the prototype (`CliStore.ProtoAgentIsLost`), and a cap that is present but undefined, which the type of
  `max_amount_per_action` allows (packages/core/src/types/state.ts:67), makes the written file unreadable
  (`CliStore.UndefinedCapUnreadable`). `CliStore.StateRoundTrip` says exactly which values survive.
- A claim in the expiring store can be taken twice by a request that reaches Redis more than the skew after it was
  verified; one millisecond more is enough (`ExecuteSafety.PromptnessIsNeeded`). Without any delay it is taken twice
  when two genuine authorizations carry one id and the second expires more than the skew after the first, which
  verification does not rule out (`ExecuteSafety.IdsMustNotBeReissued`). `ExecuteSafety.RedisThreshold` gives the exact
  bound on both together.
- A boundary rejection goes unreported when its error object had escaped a permitted callback of an earlier request
  (`BoundaryAccounting.UnreportedRejection`) or had already been reported for another rejection
  (`BoundaryAccounting.SecondRejectionUnreported`), although every rejection is to be emitted once
  (packages/guard/src/boundaryEvent.ts:20-23): the set of errors accounted for is shared by all requests.
  `BoundaryAccounting.RejectionReportedIff` says exactly which rejections are reported.
- Replay keys of different namespaces can coincide, because colons in issuer, audience and id are not escaped
  (`ReplayStore.ColonsConfuse`); `ReplayStore.NamespacesApartIff` says exactly when they cannot.
- The printer the audit chain is folded over does not tell undefined, NaN and the infinities from null, a bigint from
  its decimal string, or an own `__proto__` property from none, so such events share a head
  (`AuditEvents.HeadIdentifiesEvents`).
- The scope of a delegation is checked only against a parent scope passed as an option, never against the parent
  itself, and not at all without one (`Delegation.ScopeUncheckedIff`).
- The running maximum of a benchmark run starts at 0, so it is the maximum only when some sample is not negative
  (`LatencyStats.MaximumIff`).
- A parent authorization without an integer expiry sets no expiry ceiling on its delegations
  (`Delegation.NoCeilingWithoutExpiry`).
- `REPLAY_TTL_SKEW_SECONDS` is documented by its error message as an integer, but the code also accepts fractions
  (examples/lgf-frappe-pep/src/config.ts:87-90); the model has whole seconds.

## Model

| member | source | states |
|---|---|---|
| Utf8Order.ByteOrderIsCodePointOrder | go-harness/canonicalization_verify.go:125-127 | for all strings, comparing UTF-8 bytes is comparing code points |
| Utf8Order.LessIff | python-harness/verify_canonicalization_vectors.py:90-90 | the comparison is lexicographic order position by position, a proper prefix coming first |
| Utf8Order.EncodingTable | go-harness/canonicalization_verify.go:125-127 | each character has the octets RFC 3629 gives it, and their bits are its scalar value |
| Utf8Order.EncodeInjective | scripts/verify-canonicalization-vectors.ts:41-45 | two keys compare equal only if they are the same string |
| KeySort.AnySortIsSort | go-harness/canonicalization_verify.go:125-127 | any rearrangement of distinct keys into byte order is the same sequence |
| KeySort.SortStrict | python-harness/verify_canonicalization_vectors.py:90-90 | distinct keys end up strictly increasing in byte order |
| JsonText.ParsePrint | python-harness/verify_canonicalization_vectors.py:59-100 | the text of a JSON tree can be parsed back to exactly that tree |
| CanonicalLaws.EqualTextIffSame | python-harness/verify_canonicalization_vectors.py:59-100 | two values have one canonical text exactly when they are equal up to NFC, entry order at any depth and integer representation |
| CanonicalLaws.ReadBack | python-harness/verify_canonicalization_vectors.py:59-100 | the text is uniquely decodable to the NFC-normalized, key-sorted value, which canonicalizes to the same text |
| CanonicalLaws.CanonicalTexts | docs/spec/core/canonicalization-v1.md:62-76 | the texts produced are exactly the texts of trees in canonical form |
| CanonicalOrder.OrderFreeIff | python-harness/verify_canonicalization_vectors.py:75-100 | the values with one text or error code for every reordering of entries, at any depth, exactly; these have it also for every change of NFC or number form |
| CanonicalOrder.StringKeysOrderFree | go-harness/canonicalization_verify.go:109-146 | with string keys, reordering entries at any depth changes neither the text nor the error code |
| CanonicalOrder.PermutedIsSame | go-harness/canonicalization_verify.go:109-123 | a mapping delivered in another iteration order is the same mapping |
| CanonicalLaws.KeyCodeOrderFree | python-harness/verify_canonicalization_vectors.py:81-88 | the key check gives one verdict for every entry order exactly when not both kinds of bad key occur |
| CanonicalLaws.KeysInOrder | docs/spec/core/canonicalization-v1.md:62-76 | the keys of a canonical object are in lexicographic order of their code points |
| CanonicalLaws.ShorterKeyFirst | scripts/verify-canonicalization-vectors.ts:41-45 | of two keys of which one continues the other, the shorter comes first |
| JsonText.EscapedCharacters | python-harness/verify_canonicalization_vectors.py:66-66 | exactly the quote, the backslash and the control characters are escaped, five of these by a letter, the others by lower-case hex |
| Decimal.NoLeadingZero | python-harness/verify_canonicalization_vectors.py:68-68 | decimal text has no leading zero |
| Decimal.ToNatIff | packages/cli/src/store.ts:29-37 | exactly the non-empty digit strings are read, leading zeros not counting |
| CanonicalErrors.AcceptedIff | docs/spec/core/canonicalization-v1.md:80-108 | a value is accepted exactly when nothing in it deserves an error code, and a returned code always applies |
| PythonHarness.CanonicalizeValue | python-harness/verify_canonicalization_vectors.py:59-72 | returns the specified text or error code for every value |
| PythonHarness.CanonicalizeObject | python-harness/verify_canonicalization_vectors.py:75-100 | the seen-set, sort and visit loops give the specified text or first error |
| GoHarness.CanonicalizeValue | go-harness/canonicalization_verify.go:42-90 | same text or error code as the Python printer, and the same for every value that differs in map iteration order at any depth |
| GoHarness.CanonicalizeArray | go-harness/canonicalization_verify.go:92-102 | fills the preallocated parts with the specified items or stops at the first error |
| GoHarness.CanonicalizeObject | go-harness/canonicalization_verify.go:109-146 | same text or error code as the Python printer, and the same for every other iteration order of the map |
| GoHarness.JoinParts | go-harness/canonicalization_verify.go:228-245 | the buffer holds all parts with one separator between neighbours |
| TypeScriptHarness.CanonicalizeToJson | scripts/verify-canonicalization-vectors.ts:47-125 | same text or error code as the other two printers for every entry order, and the key-resolution branch is never taken |
| TypeScriptHarness.CanonicalizeObject | scripts/verify-canonicalization-vectors.ts:86-122 | sorting the keys alone and looking each up again refines sorting the pairs |
| TypeScriptHarness.Resolve | scripts/verify-canonicalization-vectors.ts:100-108 | every sorted key resolves to its own entry and to no other |
| AuditChain.FoldEvents | packages/conformance/src/validate.ts:909-916 | each recorded head is the hash of the head before it, a newline and the event's canonical text, and the last one is returned |
| AuditChain.SameHead | packages/conformance/src/validate.ts:909-916 | from one final head, two histories are identical, lengths included, or a collision among the hashed strings is exhibited |
| AuditChain.HeadIdentifiesHistory | packages/conformance/src/validate.ts:909-929 | without such a collision the head determines the whole history |
| AuditEvents.Canonicalize | packages/conformance/src/validate.ts:290-300 | the printer's own value for every event and key order |
| AuditEvents.EventTextIff | packages/conformance/src/validate.ts:290-304 | two events have one text exactly when they are equal up to the identifications the printer makes |
| AuditEvents.SameHeadEvents | packages/conformance/src/validate.ts:909-916 | from one final head, two histories of events are equal up to those identifications, or a collision is exhibited |
| AuditEvents.HeadIdentifiesEvents | packages/conformance/src/validate.ts:909-929 | without a collision, exactly the histories equal up to those identifications share a head |
| AuditEvents.IdentifiedData | packages/conformance/src/validate.ts:290-300 | for JSON data without a `__proto__` property the identifications are equality |
| AsciiEscape.ApplyEnsureAscii | examples/reference-sift-oxdeai/shared/canonical.ts:56-67 | the output is pure ASCII and escapes every unit in place |
| AsciiEscape.EscapedUnits | examples/reference-sift-oxdeai/shared/canonical.ts:56-67 | which units stay as they are, which are escaped by a letter and which by lower-case hex |
| AsciiEscape.AsciiLiteralRoundTrip | examples/reference-sift-oxdeai/shared/canonical.ts:56-72 | for every sequence of UTF-16 units the escaped literal is ASCII and decodes to the original |
| AsciiEscape.AsciiLiteralInjective | examples/reference-sift-oxdeai/shared/canonical.ts:69-72 | distinct strings have distinct signed bytes |
| ObjectGraph.DenseIff | packages/guard/src/delegationSnapshot.ts:84-93 | counting own keys and reading every index accepts exactly the dense arrays |
| Snapshot.Snapshotter.SnapshotValue | packages/guard/src/delegationSnapshot.ts:56-112 | terminates on every finite graph, restores the path set on every exit and operates on no Proxy |
| Snapshot.Snapshotter.SnapshotObject | packages/guard/src/delegationSnapshot.ts:76-108 | the index and key loops copy in order or stop at the first unsupported property |
| Snapshot.Snapshotter.ReadProperty | packages/guard/src/delegationSnapshot.ts:114-120 | a value is taken only from an enumerable data property |
| Snapshot.SnapshotPlainData | packages/guard/src/delegationSnapshot.ts:134-136 | starts the walk at the root with an empty path set |
| SnapshotLaws.SnapshotIff | packages/guard/src/delegationSnapshot.ts:15-40 | the snapshot is t exactly when t is the finite unfolding, every node frozen, of supported shape, nested no deeper than the limit |
| SnapshotLaws.UnfoldingUnique | packages/guard/src/delegationSnapshot.ts:34-38 | a graph has at most one such copy |
| SnapshotLaws.DefaultDepth | packages/guard/src/delegationSnapshot.ts:134-136 | by default, nesting eight deep is accepted and deeper is not |
| SnapshotErrors.RejectionExplained | packages/guard/src/delegationSnapshot.ts:56-120 | a rejected input has the fault reported: the error path leads through plain properties to it, for every reason |
| SnapshotLaws.CyclicIsCycle | packages/guard/src/delegationSnapshot.ts:74-75 | a cycle is reported only when some node reaches itself through data properties |
| ReplayStore.ClaimOutlivesExpiry | examples/lgf-frappe-pep/src/replay.ts:70-82 | a claim lives at least until the expiry plus the skew |
| ReplayStore.TtlIsTight | examples/lgf-frappe-pep/src/replay.ts:72-74 | the time to live is the shortest whole number of seconds that lasts until expiry plus skew, and at least one |
| ReplayStore.KeyInjective | examples/lgf-frappe-pep/src/replay.ts:71-71 | one store uses distinct keys for distinct authorization ids |
| ReplayStore.NamespacesApartIff | examples/lgf-frappe-pep/src/replay.ts:71-71 | two namespaces share no key for any ids exactly when their stems differ and neither continues the other after a colon |
| ReplayStore.PlainKeysInjective | examples/lgf-frappe-pep/src/replay.ts:71-71 | without colons in prefix, issuer and audience, a key determines its namespace and id |
| ReplayStore.ColonsConfuse | examples/lgf-frappe-pep/src/replay.ts:71-71 | with colons, different namespaces and ids have one key |
| ReplayStore.RedisReplayStore.ConsumeAuthId | examples/lgf-frappe-pep/src/replay.ts:70-82 | grants exactly when no live claim exists, leaves other ids alone, and the new claim outlives the expiry |
| ReplayStore.InMemoryReplayStore.ConsumeAuthId | packages/guard/src/replayStore.ts:115-119 | grants exactly the first use of an id |
| ExecuteSafety.SingleUseMemory | examples/lgf-frappe-pep/src/execute.ts:94-275 | over every interleaving each authorization id reaches the adapter at most once |
| ExecuteSafety.SingleUseRedis | examples/lgf-frappe-pep/src/replay.ts:70-82 | the same with expiring claims, when the delay of claims after verification and the growth of expiries under one id fit into the skew together |
| ExecuteSafety.RedisThreshold | examples/lgf-frappe-pep/src/replay.ts:70-82 | for any bounds on that delay and growth, every run is single-use exactly when they fit into the skew together |
| ExecuteSafety.IdsMustNotBeReissued | examples/lgf-frappe-pep/src/replay.ts:70-82 | a run without delay in which two genuine authorizations with one id are both executed |
| ExecuteSafety.ReentryIsLate | examples/lgf-frappe-pep/src/replay.ts:70-82 | a second claim on an id arrives at the first expiry plus skew or later, and, if its own expiry is no later than the first, more than the skew after it was verified |
| ExecuteSafety.PromptnessIsNeeded | examples/lgf-frappe-pep/src/replay.ts:70-82 | a run with one millisecond more in which one authorization is executed twice |
| ExecuteSafety.RefusedMeansClaimed | examples/lgf-frappe-pep/src/execute.ts:158-181 | a replay denial is given only when another request, which passed every check, had claimed the same id |
| ExecuteSafety.ClaimsAccountedFor | examples/lgf-frappe-pep/src/execute.ts:158-224 | the claims granted to the handler equal adapter calls plus observe-mode ALLOWs plus claims not yet resumed |
| ExecuteSafety.UntoldClaims | examples/lgf-frappe-pep/src/execute.ts:158-174 | a claim that took effect although its answer was lost or garbled belongs to a request denied, or about to be, as REPLAY_STORE_UNAVAILABLE, and causes no call |
| ExecuteSafety.CallsAreClaimed | examples/lgf-frappe-pep/src/execute.ts:94-224 | every adapter call follows all checks and its own claim, in enforce mode |
| ExecuteAnswers.Answers | examples/lgf-frappe-pep/src/execute.ts:158-273 | in every run, which result of the platform or answer of the store leads to which response, both ways |
| ExecuteAnswers.StoreAnswer | examples/lgf-frappe-pep/src/execute.ts:158-181 | granted and refused are the store's word on a free and a live key; an error or another value is a broken or garbled reply |
| ExecuteSafety.DeniedForFirstFailure | examples/lgf-frappe-pep/src/execute.ts:98-156 | in every run, a denial before the claim names the first step that failed at the clock of the event that started the request |
| ExecuteSafety.DeniedConsumesNothing | examples/lgf-frappe-pep/src/execute.ts:98-181 | a request denied for anything but an unusable store answer has consumed nothing |
| BoundaryEvents.BoundaryAudit.Reject | packages/guard/src/boundaryEvent.ts:278-288 | returns the error unchanged and keeps its first annotation |
| BoundaryEvents.BoundaryAudit.EmitBoundaryEvent | packages/guard/src/boundaryEvent.ts:326-361 | when a report is made, that it says field by field what the annotation and the lifecycle say, and which error objects are marked |
| BoundaryEvents.BoundaryAudit.SecureBodyThrows | packages/guard/src/secureGuard.ts:286-302 | the outer catch adds nothing to what the inner one did, and the original is re-thrown |
| BoundaryAccounting.ExactlyOnce | packages/guard/src/boundaryEvent.ts:312-361 | over every interleaving a request reports one event for a fresh boundary rejection and none otherwise |
| BoundaryAccounting.PrimitiveExactlyOnce | packages/guard/src/boundaryEvent.ts:200-212 | a primitive rejection is reported once although no weak collection can hold it |
| BoundaryAccounting.ReportedAtMostOnce | packages/guard/src/boundaryEvent.ts:248-255 | no error object is reported twice, and never with execution started |
| BoundaryAccounting.RejectionReportedIff | packages/guard/src/boundaryEvent.ts:9-41 | a boundary rejection in a request with a hook leaves exactly one report of that request, whatever follows, with the object's first classification and the request's progress field by field, unless the object had been reported or had escaped a permitted callback before; otherwise none; a primitive leaves one always |
| BoundaryAccounting.ObjectReportedIff | packages/guard/src/boundaryEvent.ts:248-255 | the error object of such a rejection is ever reported exactly when it was before or had not escaped before |
| BoundaryAccounting.SecondRejectionUnreported | packages/guard/src/boundaryEvent.ts:345-352 | a run in which two requests are refused with one error object and only the first refusal is reported |
| BoundaryAccounting.UnreportedRejection | packages/guard/src/boundaryEvent.ts:333-355 | a run in which a boundary rejection is not reported |
| BoundaryAccounting.AnnotationIsFirst | packages/guard/src/boundaryEvent.ts:269-288 | the classification kept beside an error object is the first one given |
| BoundaryAccounting.ReturnedForGood | packages/guard/src/boundaryEvent.ts:312-361 | of a request that returned nothing is ever reported |
| BoundaryAccounting.StartsFresh | packages/guard/src/boundaryEvent.ts:215-226 | a request starts at the first stage of its layer with no progress |
| LatencyStats.ComputeLatencyStats | bench/metrics.ts:50-101 | minimum, maximum, mean and percentiles of the samples, always in order |
| LatencyStats.PercentileMonotone | bench/metrics.ts:19-27 | higher percentiles are no smaller and stay within the samples |
| LatencyStats.PercentileOnSample | bench/metrics.ts:19-27 | a percentile that falls on a sample is that sample |
| LatencyStats.PercentileBetween | bench/metrics.ts:19-27 | between two samples it divides their distance as the percentile divides the positions |
| LatencyStats.MedianIsMiddle | bench/metrics.ts:103-108 | the median is the middle value in ascending order or halfway between the two middle ones |
| LatencyStats.AggregateOfEqual | bench/runner-core.ts:41-55 | runs that agree are aggregated to what they agree on, each statistic to itself |
| LatencyStats.RunOrdered | bench/metrics.ts:50-101 | min <= p50 <= p95 <= p99 <= p999 <= max and the mean between, for every run |
| LatencyStats.MaximumIff | bench/metrics.ts:68-76 | when the reported maximum is the true one |
| LatencyStats.SortBelow | bench/metrics.ts:103-108 | pointwise dominance carries over to sorted sequences |
| LatencyStats.AggregateOrdered | bench/runner-core.ts:41-55 | the median of each statistic over any number of runs keeps the order |
| CliStore.Canonicalize | packages/cli/src/store.ts:9-23 | fills the output object key by key, losing only keys that assignment cannot create |
| CliStore.MapRecordBigInt | packages/cli/src/store.ts:39-44 | reads every property as a bigint or fails |
| CliStore.BigIntText | packages/cli/src/store.ts:29-37 | decimal text with a trailing n reads back as the integer, for all integers |
| CliStore.BigIntStored | packages/cli/src/store.ts:9-27 | a bigint is written as a string, its decimal text with an n |
| CliStore.NormalizedState | packages/cli/src/store.ts:46-58 | whatever is read, the three records hold bigints and every other property is kept |
| CliStore.EmptyStateCompleted | packages/cli/src/store.ts:46-58 | missing records are read as empty ones |
| CliStore.StateRoundTrip | packages/cli/src/store.ts:46-67 | among all values, exactly the states with no key named like the prototype accessor are read back as they were written |
| CliStore.StateReads | packages/cli/src/store.ts:46-67 | of every state, reading gives all but the properties of that name |
| CliStore.UndefinedCapUnreadable | packages/cli/src/store.ts:29-44 | a cap that is present but undefined makes the written file unreadable |
| CliStore.ProtoAgentIsLost | packages/cli/src/store.ts:16-20 | a state that does not survive |
| AuditFile.AuditLog.Append | packages/cli/src/store.ts:74-79 | the file holds the events so far and the new ones after them |
| AuditFile.AuditLog.Read | packages/cli/src/store.ts:81-90 | reading gives each event, canonicalized, in order |
| AuditFile.RunAndRead | packages/cli/src/store.ts:69-90 | after any run of resets and appends the file reads as the list since the last reset |
| AuditFile.UnchangedIff | packages/cli/src/store.ts:9-27 | the events that read back exactly as appended are the JSON data without a key named like the prototype accessor |
| AuditFile.LinesSplit | packages/cli/src/store.ts:84-84 | split, trim and filter undo join |
| AuditFile.PaddedLinesRead | packages/cli/src/store.ts:84-84 | white space around events and lines without any are ignored when reading |
| AuditFile.PrintIsLine | packages/cli/src/store.ts:77-77 | a serialized event has no newline in it and no white space around it |
| Delegation.CheckScopeNarrowing | packages/conformance/go-harness/adapter_python.py:205-246 | one violation for each dimension the child widens, none exactly when it widens none both declare |
| Delegation.VerifyDelegation | packages/conformance/go-harness/adapter_python.py:249-327 | each code occurs as often as it is due and no other does, sorted; ok exactly on acceptable delegations |
| Delegation.VerdictExplains | packages/conformance/go-harness/adapter_python.py:279-321 | which codes are reported for which artifacts and options, replay among them, when every field is present |
| Delegation.FieldsPresentIff | packages/conformance/go-harness/adapter_python.py:263-273 | the fields a delegation must have, name by name |
| Delegation.RankIsAlphabetical | packages/conformance/go-harness/adapter_python.py:323-323 | codes are sorted by their text |
| Delegation.NormalDecides | packages/conformance/go-harness/adapter_python.py:270-303 | booleans count as the integers they are, in comparisons and as integers |
| Delegation.VerdictUnique | packages/conformance/go-harness/adapter_python.py:323-327 | a delegation has only one such list of codes |
| Delegation.VerifyDelegationChain | packages/conformance/go-harness/adapter_python.py:330-402 | ok exactly when every binding to the parent and every check of the delegation holds; otherwise the first broken binding alone, or all codes of the delegation |
| Delegation.NeverWidensParent | packages/conformance/go-harness/adapter_python.py:330-394 | a delegation on which the chain check reports nothing is alive, bound to its parent, expires no later than an integer parent expiry and, with what it omits inherited, grants no more than the parent scope where one is given |
| Delegation.EffectivelyWithin | docs/spec/artifacts/delegation-v1.md:152-166 | comparing only the dimensions both sides declare decides whether the effective scope, omissions inherited, is within the parent's |
| Delegation.NoCeilingWithoutExpiry | packages/conformance/go-harness/adapter_python.py:380-391 | without an integer parent expiry any later expiry is accepted too |
| Delegation.ScopeUncheckedIff | packages/conformance/go-harness/adapter_python.py:310-315 | an accepted delegation is accepted with any other scope exactly when no parent scope is given or it declares nothing |
| Delegation.AcceptanceMonotone | packages/conformance/go-harness/adapter_python.py:249-394 | acceptance is closed under an earlier clock and fewer consumed ids |

## Left out

- The policy engine, the body of the guard between its throw sites, authorization signatures, SignedKRLV1, `pepVerify` and the Rust verifier: ordered lists of early returns around abstract checks.
- Ed25519, SHA-256, HMAC, PEM and the tables of Unicode NFC.
- Strings with unpaired surrogates in canonicalization-v1: Python fails in `encode("utf-8")` on them, and they have no UTF-8 encoding.
- Runtime bigints in the TypeScript printer: it prints one like its decimal string, so the two collide by design.
- Go's `strconv.Quote`, which differs from JSON quoting for control and non-printable characters; `json.Number` syntax; binary floats beyond the exact real they denote.
- Sift's rebuilt key order and its floating-point numbers: only string literals are modelled there.
- Error message texts, such as the tools listed in a scope violation; codes and paths are kept.
- The shape checks of `parseExecuteRequest`: one flag says whether they pass.
- A Redis command sent again after a reconnect (examples/lgf-frappe-pep/src/replay.ts:44-48): a request's `SET` reaches the store at most once here. Resent, it could be refused by the request's own claim.
- Redis connections, HTTP servers, file-system errors, worker threads, network clients and command line parsing.
- `BigInt()` of anything but decimal digits with an optional minus sign, and records given as arrays or strings, when reading a state.
- Rewriting of number texts by JSON, such as `-0` or `1e3`: a number in `JsValues` is the text it is printed as.
- Authorizations that carry `expires_at` instead of an integer `expiry` (packages/core/src/verification/verifyAuthorization.ts:373-378): verification and replay store use one expiry here.
- What Redis does at the very instant a key expires: it is gone from that millisecond on, which the threshold of one millisecond relies on.
- Conversion of scope amounts from text; scope dimensions are integers or absent.
