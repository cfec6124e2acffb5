# go-services: a verified model of its stateful cores

go-services is an integration runtime: it connects to providers, refreshes credentials, synchronises records, receives
webhooks and maps provider data onto local models. What is hard about it is a handful of small stateful protocols and a
small mapping compiler. This project models those and proves what they promise for every input, every run or every
reachable state. SQL, HTTP and cryptography sit behind interfaces in the original and are parameters here.

Each file is one component:

| file | what it holds |
|---|---|
| `SyncExecution.dfy` | the sync run: change log, checkpoints, exactly-once effect over interrupted runs |
| `ClaimStore.dfy` | the inbound claim store with its two maps, and the dispatcher that drives it |
| `WebhookLedger.dfy` | the webhook delivery ledger, its claim ids, and the processor |
| `BurstControl.dfy`, `ReplayLedger.dfy`, `OAuthState.dfy`, `BoundedTable.dfy` | tables that forget, against specifications that never do |
| `MappingSpecs.dfy`, `MappingTransforms.dfy`, `MappingCompiler.dfy`, `MappingPreviewer.dfy` | specs and schemas, the transforms, the type checker, canonical compilation, and the nested-map writer on a heap |
| `RateLimit.dfy`, `ProviderRuntime.dfy`, `Backoff.dfy` | adaptive rate limiting and the retry loop that it gates; the four doubling delays |
| `Grants.dfy`, `Capabilities.dfy` | grant snapshots as an event-sourced history; refresh, connection status and capability decisions |
| `SpecLifecycle.dfy` | the draft, validated, published machine over spec versions |
| `Text.dfy`, `SegmentKeys.dfy`, `Sorting.dfy` | strings.TrimSpace, Split, Join, Itoa, Atoi; keys of joined segments; stable sorting |

How it is built. Code that changes state is a `class` with the original's fields, whose methods are proved against a
step function or a step relation; the theorems are about every run of those steps. Where Go ranges over a map the order
is arbitrary, so those steps are relations and the theorems hold for every order. Clocks, failing stores, handlers and
callbacks are parameters, so a theorem about a run is about every environment. Theorems that speak of time assume that
the clock does not run backwards and say so in a `requires`. `strings.TrimSpace` is modelled in full; "trimmed and
lower-cased" is a function of which only idempotence is used, and `strings.EqualFold` compares images under a function.
Floats are reals. Durations and times are integers (nanoseconds).

Properties that one might expect and that the code does not have are stated as such: the input that shows it, and the
condition under which they do hold.

- Two records of a run can share a log entry: `SyncExecution.PairsCollide`, exactly when `SyncExecution.OneRunOneEntryEach` says.
- Two requests of different providers can share a claim, and two deliveries a record: exactly when `ClaimStore.Dispatcher.SharedExactly` and `WebhookLedger.SameRecordExactly` say.
- The type check turns down some sound rules: exactly those that `MappingTransforms.CheckExactly` names.
- A request without a handler keeps its key closed until the lease ends: `ClaimStore.Dispatcher.Dispatch`.
- Attempts can pass the limit: `WebhookLedger.CrashesExceedAnyLimit`, exactly when `WebhookLedger.WithinLimitExactly` says.
- The replay ledger forgets live keys: `ReplayLedger.OverflowForgets`, exactly beyond `ReplayLedger.BoundIsInvisible`.
- A preview can write into its sample: `MappingPreviewer.OverlapWritesSample`, exactly when `MappingPreviewer.SampleWrittenExactly` says.
- Compiled rules can depend on their order: `MappingCompiler.RestShows`, exactly when `MappingCompiler.OrderFreeExactly` says.
- Blank source types pass the type check: `MappingTransforms.BlankSourceSoundness`.
- Two buckets can share a state: `RateLimit.SlotsCollide`, exactly when `RateLimit.SlotIsOwnExactly` says.
- A history can lose an event and no longer replay: `Grants.StepReplays`, exactly when `Grants.GrantKeeper.Reconcile` and `Grants.ReplaysThroughoutExactly` say.
- Refresh and invocations can disagree: `Capabilities.SpellingsDisagree`, exactly when `Capabilities.RefreshAgreesExactly` says.

## Model

| member | source | states |
|---|---|---|
| `SyncExecution.ExactlyOnce` | core/sync_execution_service.go:129-217 | Any history of apply runs over one change list, each cut short anywhere, then one that reaches the end, leaves the log of a single uninterrupted run. |
| `SyncExecution.HistorySoFar` | core/sync_execution_service.go:129-217 | Any history of interrupted runs equals one run up to the furthest change that any of them logged. |
| `SyncExecution.AbsorbTwice` | core/sync_execution_service.go:162-194 | Replaying a prefix after a prefix is the longer of the two: appends are idempotent by key. |
| `SyncExecution.AbsorbMeaning` | core/sync_execution_service.go:162-194 | The log gains one entry per distinct key, old entries stay, and a new key carries the first change that has it. |
| `SyncExecution.FirstWithIsFirst` | core/sync_execution_service.go:162-194 | The content recorded for a key is that of its first occurrence in the change list. |
| `SyncExecution.KeysAlikeExactly` | core/sync_execution_service.go:238-256 | With an injective digest two idempotency keys are the same if and only if the segments of the one group the pieces of the other's; and, if the segments of either hold no bar, if and only if binding, direction, external id and version agree up to case and outer spaces, a blank version reading "_". |
| `SyncExecution.KeyIsOwnExactly` | core/sync_execution_service.go:238-256 | A key belongs to one binding, direction, external id and version if and only if no other grouping of its pieces is canonical. |
| `SyncExecution.OneEntryEachExactly` | core/sync_execution_service.go:129-217 | Whatever changes of whatever bindings reach an empty log, it holds exactly one entry for every binding, direction, external id and version among them, with the fields of its first change, if and only if no two of them read alike once joined. |
| `SyncExecution.OneRunOneEntryEach` | core/sync_execution_service.go:129-217 | Within one run that is the case if and only if no two different pairs of external id and version read alike with a bar between them. |
| `SyncExecution.BarFreePairs` | core/sync_execution_service.go:238-256 | External ids without bars, or versions without bars, are enough for that. |
| `SyncExecution.PairsCollide` | core/sync_execution_service.go:250-253 | Without that one of two records goes unrecorded: `a|b` at version `c` and `a` at version `b|c`. |
| `SyncExecution.LogOfRuns` | core/sync_execution_service.go:129-217 | A log that any runs of any bindings built is, after one more run, cut or not, the log of all their changes. |
| `SegmentKeys.AlikeExactly` | core/sync_execution_service.go:250-253 | Two keys of four segments joined by bars are the same if and only if the one groups the pieces of the other. |
| `SyncExecution.SyncExecutionService.Append` | core/sync_execution_service.go:179-194 | The append that the loop relies on: a present key is left alone and reported as not applied, and a failing append may or may not have written. |
| `SyncExecution.SyncExecutionService.Save` | core/sync_execution_service.go:196-207 | The checkpoint store echoes what it saves, and a failing save may or may not have written. |
| `SyncExecution.SyncExecutionService.ApplyChange` | core/sync_execution_service.go:142-216 | One change is logged before its checkpoint is saved, its checkpoint counts exactly it and its predecessors, and a new entry carries its time and its metadata before the run's; it succeeds exactly when append, save and announcement do. |
| `SyncExecution.SyncExecutionService.StepApply` | core/sync_execution_service.go:142-216 | One applied change is counted as soon as it is appended, so a failed save reports exactly what the log gained; a failed append reports a checkpoint that counts its change, whether or not the log holds it. |
| `SyncExecution.SyncExecutionService.RunSteps` | core/sync_execution_service.go:129-235 | Wherever the loop stops, the log holds the first changes up to some point, no saved checkpoint is ahead of it, and counters and returned checkpoint say how far it came; success counts every change once. |
| `SyncExecution.SyncExecutionService.Run` | core/sync_execution_service.go:79-236 | It succeeds exactly when the plan is valid, every change has an external id and nothing it does fails. On an empty log an apply run that succeeds leaves exactly one entry for every external id and version among the changes, with the fields of the first change that has them, if and only if no two of those pairs read alike with a bar between. A saved sequence of start+k implies that the first k changes are logged; success gives processed + skipped = number of changes and sequence start + number of changes; a dry run ends there too and writes nothing; each kind of failure reports its counters and checkpoint. |
| `SyncExecution.SyncExecutionService.RunUntilSuccess` | core/sync_execution_service.go:65-236 | Repeating the run with any checkpoints, metadata and faults until one succeeds gives the log of one uninterrupted run: on an empty log one entry for every external id and version, under the same condition. |
| `ClaimStore.RunExact` | inbound/dispatcher.go:318-476 | In every reachable state the claim-id map is precisely the inverse of the processing entries. |
| `ClaimStore.StepExact` | inbound/dispatcher.go:318-476 | Every claim, completion, failure and eviction keeps the two maps inverse to each other. |
| `ClaimStore.SupersededIsInert` | inbound/dispatcher.go:383-462 | Claim ids never repeat: once its key has been claimed again, an earlier id neither completes nor fails anything. |
| `ClaimStore.ReacceptedExactlyAfterGate` | inbound/dispatcher.go:338-381 | A key is accepted again if and only if the time set by the last effective operation on it has passed: the end of a claim's lease (ten minutes if not positive), a failure's retry time or its own time, or the end of a completion's TTL. |
| `ClaimStore.FirstClaimAccepted` | inbound/dispatcher.go:338-381 | A key on which nothing took effect yet is accepted. |
| `ClaimStore.SettledExactly` | inbound/dispatcher.go:383-450 | Completing or failing under the id of an accepted claim takes effect if and only if nothing else took effect on its key since. |
| `ClaimStore.IssuedBy` | inbound/dispatcher.go:338-381 | Every id in the claim map was handed out by an accepted claim on the key that it maps to. |
| `ClaimStore.CompletionsAreSpaced` | inbound/dispatcher.go:318-476 | In every interleaving, any two completions that take effect on one key are at least the TTL apart of the accepted claim that the earlier one settles. |
| `ClaimStore.AcceptedClaim` | inbound/dispatcher.go:338-381 | An accepted claim is current under a new id, counts one attempt more than the entry it takes over, and closes its key until its lease ends. |
| `ClaimStore.SettledClaim` | inbound/dispatcher.go:383-450 | Completing a current claim closes its key for its TTL; failing it without a retry time opens it at once. |
| `ClaimStore.InMemoryClaimStore.EvictExpired` | inbound/dispatcher.go:464-476 | Whatever the iteration order, exactly the completed entries whose time is over go, with their claim ids. |
| `ClaimStore.InMemoryClaimStore.Claim` | inbound/dispatcher.go:318-381 | The new maps are those of the claim step, and the claim is accepted exactly when the key is not held. |
| `ClaimStore.InMemoryClaimStore.CompleteClaim` | inbound/dispatcher.go:383-414 | The new maps are those of the completion step; an id that is not current changes no entry. |
| `ClaimStore.InMemoryClaimStore.FailClaim` | inbound/dispatcher.go:416-450 | The new maps are those of the failure step; an id that is not current changes no entry. |
| `ClaimStore.SettleMeans` | inbound/dispatcher.go:383-450 | Settling a claim in whatever state the store has come to: if it is still current its key is completed for its TTL or open at once, and a worker that has lost its claim changes no entry. |
| `ClaimStore.Dispatcher.Handle` | inbound/dispatcher.go:172-245 | Whatever other workers do to the store while the handler runs, its answer alone decides whether the claim is completed or failed. |
| `ClaimStore.Dispatcher.Dispatch` | inbound/dispatcher.go:78-245 | With any calls of other workers between claim and settlement: the handler runs exactly on an accepted claim with a registered handler; a claim that is still current then ends up completed for its TTL or open for a retry; without a handler the key stays closed until the lease ends; whether any other key is deduplicated does not change. |
| `ClaimStore.Dispatcher.SharedExactly` | inbound/dispatcher.go:134 | Two requests share a claim if and only if provider, surface and key agree, the key after trimming on the right, or one provider with colons goes on exactly like the other's provider, surface and key; so never between providers without colons, and under one provider and surface exactly for keys that agree after trimming on the right. |
| `ClaimStore.Dispatcher.DispatchBoth` | inbound/dispatcher.go:78-245 | On an empty store two requests that do not share a claim are both handled, whatever the first one's handler answers. |
| `WebhookLedger.ClaimIDRoundTrip` | providers/devkit/fixtures.go:185-200 | Parsing a printed claim id returns its key and attempt for every positive attempt in range, colons in the ids notwithstanding. |
| `WebhookLedger.RunForward` | providers/devkit/fixtures.go:35-157 | Over any run processed and dead are absorbing, and attempt numbers only grow. |
| `WebhookLedger.StaleClaimIsInert` | providers/devkit/fixtures.go:98-157 | A claim id from an earlier attempt changes nothing once the delivery was claimed again. |
| `WebhookLedger.GrantedExactlyAfterGate` | providers/devkit/fixtures.go:35-157 | In every run a claim is granted if and only if nothing took effect on its delivery yet or the gate of the last operation that did has passed: the end of a claim's lease (30 s if not positive), a failure's next attempt or its own time while fewer claims than maxAttempts (8 if not positive) were granted, and never after a completion or the last failure. |
| `WebhookLedger.LeaseIsExclusive` | providers/devkit/fixtures.go:58-70 | Until a granted claim is settled no other is granted before its lease ends. |
| `WebhookLedger.SettledExactly` | providers/devkit/fixtures.go:98-157 | A completion or failure takes effect if and only if its id names the latest granted attempt and nothing has settled it. |
| `WebhookLedger.SameRecordExactly` | providers/devkit/fixtures.go:185-187 | Two deliveries share a record if and only if provider and delivery id agree after trimming, or one provider with colons goes on like the other's delivery id; so never between providers without colons. |
| `WebhookLedger.DeliveriesApart` | providers/devkit/fixtures.go:35-81 | With providers without colons, claiming a delivery leaves every other one as it was found. |
| `WebhookLedger.FailuresAreBounded` | providers/devkit/fixtures.go:120-157 | At most maxAttempts failures take effect on one delivery; its attempts are exactly the failures, the claims that crashed workers abandoned, and one while processing or processed; dead only from maxAttempts attempts on, retry-ready only below. |
| `WebhookLedger.WithinLimitExactly` | providers/devkit/fixtures.go:35-157 | Over any run attempts stay within maxAttempts if and only if no claim takes over a crashed worker's delivery that has already reached it. |
| `WebhookLedger.ClaimOverruns` | providers/devkit/fixtures.go:58-81 | An accepted claim passes maxAttempts if and only if it takes over from a crashed worker at maxAttempts or more. |
| `WebhookLedger.CrashesExceedAnyLimit` | providers/devkit/fixtures.go:35-81 | Workers that crash drive the attempts to any number without a single failure. |
| `WebhookLedger.ClaimNamesOwnRecord` | providers/devkit/fixtures.go:35-81 | The claim id that a claim hands out reads back as its own delivery and attempt, is current, and the claim changes no other record. |
| `WebhookLedger.WebhookDeliveryLedger.Claim` | providers/devkit/fixtures.go:35-81 | The records become those of the claim step, and the claim is granted exactly when the delivery is claimable, which `WebhookLedger.GrantedExactlyAfterGate` spells out over every run. |
| `WebhookLedger.WebhookDeliveryLedger.Complete` | providers/devkit/fixtures.go:98-118 | The records become those of the completion step; success means that the id parses and names a record. |
| `WebhookLedger.WebhookDeliveryLedger.Fail` | providers/devkit/fixtures.go:120-157 | The records become those of the failure step: retry-ready below maxAttempts and dead from there on. |
| `WebhookLedger.Processor.HandleClaimed` | webhooks/processor.go:170-225 | Whatever other workers do to the ledger meanwhile, burst control, the handler's answer and the attempt number alone decide how a record ends up whose attempt is still the current one; otherwise nothing changes. |
| `WebhookLedger.Processor.Process` | webhooks/processor.go:119-225 | With any calls of other workers between claim and settlement: the handler runs exactly on a fresh claim that burst control lets through; a record whose attempt is still current ends processed, retry-ready after the delay of the retry policy in use, or dead; other records stay as they were. |
| `BurstControl.ForgettingIsSafe` | webhooks/burst_control.go:79-142 | In every run, whichever stale entries cleanup removed, a request is refused exactly when control is on, it has a non-blank key and an earlier request with that trimmed key came less than a window before. |
| `BurstControl.RunAgrees` | webhooks/burst_control.go:79-142 | The table always agrees, on everything still fresh, with that of a controller that never deletes. |
| `BurstControl.RememberedIsLatest` | webhooks/burst_control.go:103-122 | The controller that never deletes holds the time of the latest controlled request of each key. |
| `BurstControl.BurstController.Cleanup` | webhooks/burst_control.go:125-142 | A small table loses exactly what is older than four windows; an overfull one loses, in any order, keys older than one window until it fits or none is left. |
| `BurstControl.BurstController.Allow` | webhooks/burst_control.go:79-123 | Every decision and table change is a legal step, whatever order the maps are walked in. |
| `ReplayLedger.BoundIsInvisible` | core/replay_ledger.go:45-133 | On every run where at most maxEntries keys are unexpired at once, each decision is that of a ledger that never prunes or evicts. |
| `ReplayLedger.RefusedExactlyWhileAlive` | core/replay_ledger.go:45-71 | On such runs a request is accepted if and only if its key is not blank and no earlier accepted request with its key is still within its lifetime, the default if the request names none. |
| `ReplayLedger.RefusedOnlyWhileAlive` | core/replay_ledger.go:45-133 | On every run, fitting or not, a refusal of a key has an earlier accepted request with that key that is still within its lifetime. |
| `ReplayLedger.OverflowForgets` | core/replay_ledger.go:105-133 | The condition is exact: once more keys are live than fit, some live key is accepted again at once. |
| `ReplayLedger.NeverOverfull` | core/replay_ledger.go:45-133 | The table never exceeds maxEntries on any run. |
| `ReplayLedger.MemoryReplayLedger.PruneExpired` | core/replay_ledger.go:97-103 | Exactly the expired entries go. |
| `ReplayLedger.MemoryReplayLedger.EvictOldest` | core/replay_ledger.go:115-133 | Exactly one entry goes, and none expires before it. |
| `ReplayLedger.MemoryReplayLedger.EnforceCapacity` | core/replay_ledger.go:105-113 | Eviction terminates and drops only as many entries as needed, each expiring no later than any that stays. |
| `ReplayLedger.MemoryReplayLedger.Claim` | core/replay_ledger.go:45-71 | Every claim is a legal step of the ledger and keeps its bound. |
| `OAuthState.FailingCallbackRestores` | core/service.go:724-765 | A callback that fails validation leaves every unexpired record in place, its own included, and evicts nothing. |
| `OAuthState.PassingCallbackRemovesOwn` | core/service.go:724-765 | A callback that passes removes exactly its own record, which was there and unexpired. |
| `OAuthState.SavedPassesExactly` | core/oauth_state.go:58-112 | After a save, a callback for its state passes if and only if it fits the record and comes no later than the record's expiry or, lacking one, its creation or saving plus the lifetime. |
| `OAuthState.EachSavePassesOnce` | core/oauth_state.go:58-152 | Over any run each save is consumed successfully at most once, and the store stays within maxEntries. |
| `OAuthState.MemoryOAuthStateStore.PruneExpired` | core/oauth_state.go:114-120 | Exactly the expired records go. |
| `OAuthState.MemoryOAuthStateStore.EvictOldest` | core/oauth_state.go:132-152 | Exactly one record goes, one with an earliest deadline. |
| `OAuthState.MemoryOAuthStateStore.EnforceCapacity` | core/oauth_state.go:122-130 | Eviction terminates and drops only as many records as needed, earliest deadlines first. |
| `OAuthState.MemoryOAuthStateStore.Save` | core/oauth_state.go:58-84 | Saving prunes, makes room only for a state not filed yet, and files the stamped record under its trimmed state. |
| `OAuthState.MemoryOAuthStateStore.Consume` | core/oauth_state.go:86-112 | Consuming removes the record and returns it exactly when it is present and unexpired. |
| `OAuthState.CallbackService.ConsumeCallbackState` | core/service.go:724-765 | It returns a record exactly when one is filed under the trimmed state, is unexpired and fits the callback: the provider and scope type up to case, the scope id, and the redirect if one was saved; on a mismatch the record is saved again. |
| `MappingTransforms.TypeSoundness` | core/mapping_compiler.go:389-418 | A rule with both types declared that passes the check gives, on any value of its source type, a value of its target type, or fails because and only because a string does not parse. |
| `MappingTransforms.BlankSourceSoundness` | core/mapping_compiler.go:392-394 | A blank source type always passes the check, and such a rule is sound if and only if it prints into a string. |
| `MappingTransforms.AppliesExactly` | core/mapping_transforms.go:11-227 | Each transform gives a result if and only if that is what it means: the text lower-cased or upper-cased by the library; the part between the outer spaces; an in-range integer as it is, others modulo 2^64; the float without its fraction, less than one away and between it and zero; 1 exactly for true; the number as a float; false exactly for false, zero and the four negative words; the printed value; the formatted time. |
| `MappingTransforms.FailsExactly` | core/mapping_transforms.go:11-227 | A transform fails exactly on values that it has no meaning for. |
| `MappingTransforms.TransformNames` | core/mapping_transforms.go:12-62 | The nine transforms by name. |
| `MappingTransforms.ConversionsReadBack` | core/mapping_transforms.go:11-227 | `to_int`, `to_float` and `to_bool` undo `to_string` on every value that the library prints without outer spaces and reads back. |
| `MappingTransforms.TransformsSettle` | core/mapping_transforms.go:35-52 | Where the library's case mappings are idempotent, `lowercase` yields a fixed point of lower, `uppercase` one of upper, and these and `trim` leave their own results alone. |
| `MappingTransforms.CheckExactly` | core/mapping_compiler.go:389-418 | A rule between declared types is sound for every library and every value of its source type if and only if the check passes it or it is one of the listed rules that the check turns down all the same (an integer as a number, `to_int` into a number, a boolean through `to_float` or as a time, a number through `to_bool`). |
| `MappingTransforms.TypeNames` | core/mapping_compiler.go:354-370 | The names of the five types, in any case and with outer spaces; every other name is a type of its own. |
| `MappingCompiler.CanonicalCompilation` | core/mapping_compiler.go:95-198 | Every permutation of the rules of a spec that validates without errors also validates and compiles to the identical rule list. |
| `MappingCompiler.OrderFreeExactly` | core/mapping_compiler.go:95-198 | Every permutation of the rules compiles to the same list if and only if the source object is missing or rules with the same target, source and id compile to the same, in everything that a compiled rule carries. |
| `MappingCompiler.PermutationKeepsAccepted` | core/mapping_compiler.go:95-198 | Acceptance does not depend on the order of the rules. |
| `MappingCompiler.TiesKeepTheirOrder` | core/mapping_compiler.go:154-198 | Any two rules with one target, source and id that compile differently show their order. |
| `MappingCompiler.RestShows` | core/mapping_compiler.go:154-198 | Two rules that differ only in what the compiler does not look at (required, default, metadata, constraints that are no strings) show their order too. |
| `MappingCompiler.AcceptedExactly` | core/mapping_compiler.go:37-215 | A request is accepted if and only if, as it was given, schema and spec name all they must, some object has the source's name, and with the fields of the first such object every rule has both paths, a field, a known transform and fitting types, no two rules share a target, and some rule reads every required field. |
| `MappingCompiler.CompiledFrom` | core/mapping_compiler.go:95-198 | There are as many compiled rules as given ones; each comes from a given rule and each given rule has one: trimmed id and paths, the canonical transform name (blank reads `identity`), the type of the last field with the path, and the type that the first of three constraints names. |
| `MappingCompiler.CompiledAscending` | core/mapping_compiler.go:188-198 | The compiled rules ascend by target path, then source path, then id: at the first difference the smaller character comes first, and a beginning before the whole. |
| `MappingSpecs.DriftMeans` | core/mapping_compiler.go:54-58 | A spec drifts if and only if it names a schema that is neither this one's id nor, lacking an id, its name or its name and version. |
| `Sorting.SortStable` | core/mapping_compiler.go:188-198 | The stable sort keeps tied elements in their order. |
| `Sorting.SortsAlikeExactly` | core/mapping_compiler.go:188-198 | Every arrangement sorts to the same sequence if and only if no two different elements are tied. |
| `MappingCompiler.Compile` | core/mapping_compiler.go:37-215 | An error issue is reported exactly when schema, header or rules do not pass; the issues are exactly those of header, rules and unmapped required fields, with their codes, severities, rule ids and paths; the compiled rules are those of the normalised spec in canonical order. |
| `MappingCompiler.CompileRules` | core/mapping_compiler.go:95-167 | The loop raises exactly the issues of the rules, each with its code: a missing field, an unknown transform, types that do not fit, or a target that an earlier rule has, blank ones aside; it records exactly the source paths mapped. |
| `MappingCompiler.CompileRule` | core/mapping_compiler.go:95-167 | One rule raises exactly the issues that its source field, transform, types and a taken target call for, under its own id and paths, and is compiled with its transform under its canonical name. |
| `MappingCompiler.CheckRequired` | core/mapping_compiler.go:169-186 | Exactly the required paths that no rule maps are reported. |
| `MappingCompiler.CheckHeader` | core/mapping_compiler.go:45-71 | Exactly these issues: an invalid schema, an invalid spec, and drift, which is only a warning. |
| `MappingSpecs.FindObject` | core/mapping_compiler.go:291-299 | The first object with the name. |
| `MappingSpecs.ObjectNamed` | core/mapping_compiler.go:291-299 | Nothing is found exactly when no object has the name, and what is found belongs to one that has. |
| `MappingCompiler.BuildIndexes` | core/mapping_compiler.go:276-289 | The two indexes hold the last field with each path, and exactly the required ones. |
| `MappingPreviewer.LookupPath` | core/mapping_previewer.go:181-203 | The loop finds what following the trimmed segments one map at a time finds, and nothing on a blank segment. |
| `MappingPreviewer.SetPath` | core/mapping_previewer.go:205-234 | On every target: if the write reaches a foreign map it makes one entry there, with the fresh maps that hang under it, and changes no other existing map; if not, no foreign map changes and the output holds exactly the leaves that remain, with the new one in place. |
| `MappingPreviewer.CleanTouches` | core/mapping_previewer.go:213-233 | A target without blank segments reaches a foreign map if and only if an earlier target on its way holds a nested map. |
| `MappingPreviewer.FindLeaf` | core/mapping_previewer.go:181-234 | Get after set: looking up an applied target in the output gives its value. |
| `MappingPreviewer.SameLeavesReadSame` | core/mapping_previewer.go:181-234 | Outputs with the same leaves read the same at every path. |
| `MappingPreviewer.PreviewRecord` | core/mapping_previewer.go:71-136 | For every list of rules, what each rule does in turn: what the sample held at its source and what its transform made of it; which entry it makes in a map of the sample if its target reaches one; which leaves the output has otherwise. Output and sample end as the last stage says. With prefix-free targets, looking up each target in the output finds exactly what its transform means for what the sample held, and nothing where that is nothing. |
| `MappingPreviewer.SampleWrittenExactly` | core/mapping_previewer.go:71-136 | A preview writes into its sample if and only if some rule applies to the sample as it was and its target reaches a map of it, given the leaves of the rules before it; otherwise the sample is as it was and the output has the leaves of the fold. |
| `MappingPreviewer.UntouchedStages` | core/mapping_previewer.go:71-136 | Up to the first such rule the sample is as it was and the leaves are those of the fold over the rules. |
| `MappingPreviewer.TouchStrikes` | core/mapping_previewer.go:227-232 | The first such rule makes exactly one entry in a map of the sample and leaves the output's leaves alone. |
| `MappingPreviewer.EntriesStay` | core/mapping_previewer.go:205-234 | No map of the sample loses an entry in a preview. |
| `MappingPreviewer.PrefixFreeTouchesNothing` | core/mapping_previewer.go:71-136 | With targets that have no blank segment and none a segment-prefix of another, no rule reaches a sample and the leaves are exactly the applied targets with their transformed values. |
| `MappingPreviewer.LeavesRead` | core/mapping_previewer.go:181-234 | Whatever the targets, looking up a remaining leaf in the output gives its value. |
| `MappingPreviewer.AppliedTargetsRead` | core/mapping_previewer.go:71-136 | Looking up each applied target in the output gives the transformed value. |
| `MappingPreviewer.TargetsReadExactly` | core/mapping_previewer.go:71-136 | With prefix-free targets, what is found at a rule's target is what its transform means for the sample's value at its source, and nothing is found exactly when there is no such value or the transform fails on it. |
| `MappingPreviewer.SegmentsReadBack` | core/mapping_previewer.go:181-213 | A path written with dots between segments without dots and outer spaces is read back as those segments. |
| `MappingPreviewer.LeavesOrderFree` | core/mapping_previewer.go:71-136 | Every order of the rules gives the same leaves. |
| `MappingPreviewer.OutputIsOrderFree` | core/mapping_previewer.go:71-136 | Outputs with the leaves of two orders of the rules read the same at every path. |
| `MappingPreviewer.PermutationKeepsPrefixFree` | core/mapping_previewer.go:71-136 | Prefix-freedom does not depend on the order of the rules. |
| `MappingPreviewer.PrefixFreeStages` | core/mapping_previewer.go:71-136 | A preview with prefix-free targets ends with the sample as it was and exactly the applied targets, with their transformed values, as leaves. |
| `MappingPreviewer.PreviewBothOrders` | core/mapping_previewer.go:71-136 | Previewing a sample with prefix-free rules in one order and then in any other modifies no map of it, and the two outputs read the same at every path. |
| `MappingPreviewer.PreviewIsTypeSound` | core/mapping_previewer.go:71-136 | On a sample that conforms to the schema, a rule of an accepted spec with both types declared applies with the target type or fails on an unparsable string. |
| `MappingPreviewer.OverlapTouches` | core/mapping_previewer.go:227-232 | On every sample with a nested map under `m` and a value under `s`, the rule `a.b` from `s` after `a` from `m` reaches that map. |
| `MappingPreviewer.OverlapWritesSample` | core/mapping_previewer.go:227-232 | Previewing those two rules puts the value under `b` into the sample's own nested map and changes no other map of the sample. |
| `Backoff.Doubling` | ratelimit/policy.go:187-200 | The loop computes min(max, initial * 2^(n-1)) and its variable never passes twice the larger of initial and max. |
| `Backoff.DelayMonotone` | core/refresh_runner.go:39-63 | The delay grows with the attempt, is positive and is at most max. |
| `Backoff.RefreshDelay` | core/refresh_runner.go:39-63 | The refresh scheduler's delay in closed form, with its defaults. |
| `Backoff.WebhookDelay` | webhooks/processor.go:66-86 | The webhook retry delay in closed form, with its defaults. |
| `Backoff.RateLimitDelay` | ratelimit/policy.go:175-201 | The rate limiter's delay in closed form for the first attempt on, and the uncapped initial delay below. |
| `Backoff.OperationDelay` | core/provider_operation_runtime.go:500-519 | A positive hint wins; otherwise the closed form. |
| `RateLimit.ThrottleHistory` | ratelimit/policy.go:107-166 | Over any response history attempts is the length of the trailing run of throttled responses (status 429, or below 500 with nothing known to remain and some word of limits), ThrottledUntil is set exactly when that run is not empty, and is the last response's time plus its hint, its Retry-After seconds or date, or min(max, initial * 2^(n-1)) for the n-th of the run. |
| `RateLimit.AllowedHasWaited` | ratelimit/policy.go:85-105 | A bucket refuses a call if and only if the delay of its last throttled response is not over or its window is exhausted and not yet reset, as the responses said. |
| `RateLimit.ThrottledExactly` | ratelimit/policy.go:121-166 | What a response does to its bucket, on status and headers: it is throttled exactly on status 429, or below 500 with nothing remaining and some word of limits, and then until the hint, the Retry-After seconds or date, or the backoff is over. |
| `RateLimit.ClosedUntil` | ratelimit/policy.go:210-225 | After a 429, or a status below 500 that reports nothing left, the bucket refuses every call until that delay is over. |
| `RateLimit.OpenAfter` | ratelimit/policy.go:210-225 | A status of 500 or more lifts the throttling, and only an exhausted window keeps the bucket closed; a status below 500 other than 429 that reports some quota opens it. |
| `RateLimit.SlotIsOwnExactly` | ratelimit/policy.go:302-358 | A bucket shares its state with no other if and only if its normalised key is the only normalised way to group the pieces of its state key into four segments. |
| `RateLimit.BarFreeIsAlone` | ratelimit/policy.go:302-358 | A bucket whose normalised segments are free of the separator shares its state with no other. |
| `RateLimit.AloneIffBarFree` | ratelimit/policy.go:302-358 | If all pieces are normalised, a bucket is alone if and only if its segments are free of the separator. |
| `RateLimit.SlotsCollide` | ratelimit/policy.go:356-358 | Two normalised buckets that the store keeps under one key. |
| `RateLimit.TrimLowerKeepsJoins` | ratelimit/policy.go:302-309 | Trimming after lower-casing rune by rune is idempotent and keeps what is joined from normalised pieces normalised. |
| `RateLimit.NormalKeyIdempotent` | ratelimit/policy.go:302-309 | Normalising in the policy and again in the store is the same as once. |
| `RateLimit.AdaptivePolicy.BeforeCall` | ratelimit/policy.go:85-105 | A call is allowed exactly when the store answers and, by the recorded responses alone, the last throttled one and an exhausted window are waited out; a refusal names the time left. |
| `RateLimit.AdaptivePolicy.Observe` | ratelimit/policy.go:121-166 | The field-by-field update is the state after the response. |
| `RateLimit.AdaptivePolicy.AfterCall` | ratelimit/policy.go:107-166 | A recorded response changes its bucket and no other, so that every bucket is the state after its response history; a 429, or a status below 500 that reports nothing left, closes its bucket for its hint, its Retry-After or the backoff; a failing store may have recorded it or not. |
| `ProviderRuntime.Runtime.Execute` | core/provider_operation_runtime.go:78-258 | Every run makes between one and MaxAttempts turns, each explained by its environment and handing its bucket on; it goes round exactly when the retry rules ask and the sleep succeeds, ends with the error that its last turn calls for, and never reaches the code after the loop. |
| `ProviderRuntime.Runtime.Attempt` | core/provider_operation_runtime.go:96-216 | One turn asks the gate, signs, calls and records, in that order; only a recorded response changes the bucket. |
| `ProviderRuntime.GateHolds` | core/provider_operation_runtime.go:96-154 | No call starts while its bucket is throttled. |
| `ProviderRuntime.CallsWaitOutThrottling` | core/provider_operation_runtime.go:78-258 | The next call after a recorded response that throttles by its status and headers starts only when its hint, its Retry-After or the backoff is over, and after any response with an exhausted window only when that is reset. |
| `ProviderRuntime.OneKeyPerRun` | core/provider_operation_runtime.go:78-154 | All calls of a run carry the caller's key, else the transport request's, else the generated one, and none follows a refusal in its own turn. |
| `ProviderRuntime.SuccessMeans` | core/provider_operation_runtime.go:178-246 | No error is returned if and only if the last reply has a status below 400, passed gate and signature, was recorded, and either was the last attempt or is not to be retried. |
| `ProviderRuntime.RunFollowsRules` | core/provider_operation_runtime.go:78-258 | On the policy as the caller gave it, with its defaults: every turn but the last asked for another and slept the caller's delay, the hint or the doubling delay; the last asked for none or its sleep failed; an error names the attempt, the limit, the status and whether a retry makes sense. |
| `ProviderRuntime.ShouldRetry` | core/provider_operation_runtime.go:447-479 | The last attempt is never retried; otherwise the caller's verdict, a failure that is no cancellation, or a retryable status decides, with a positive delay. |
| `ProviderRuntime.NormalPolicy` | core/provider_operation_runtime.go:481-498 | Normalising gives at least one attempt, ordered positive backoffs and some retryable status, and leaves such a policy alone. |
| `Grants.HistoryReplays` | core/grants.go:84-164 | Over any run the versions are 1, 2, 3, ... without gaps; while no event is lost, folding the expanded, downgraded and revoked events gives exactly the latest granted set, and the first lost event breaks that. |
| `Grants.ReplaysThroughoutExactly` | core/grants.go:84-164 | The history replays at every moment of a run if and only if no step of it lost an event. |
| `Grants.StepReplays` | core/grants.go:141-154 | A reconciliation keeps the history replayable if and only if it does not lose an event that had something to say. |
| `Grants.DeltaReplays` | core/grants.go:24-57 | Removing and adding what a delta lists turns the previous set into the current one. |
| `Grants.ComputeGrantDelta` | core/grants.go:24-57 | Added and removed are the sorted differences; no event means equality, expanded a proper superset, revoked that nothing is left, downgraded everything else. |
| `Grants.ListsUnique` | core/grants.go:42-43 | Whatever order the sets are walked in, there is one sorted list. |
| `Grants.ToGrantSet` | core/grants.go:72-82 | The set of the trimmed, lower-cased, non-blank values. |
| `Grants.NormalizeGrants` | core/grants.go:59-70 | The sorted list of that set, which normalising again would not change. |
| `Grants.GrantKeeper.Commit` | core/grants.go:141-154 | A transactional store takes snapshot and event together; otherwise the snapshot can stay without its event, when its save fails after the write or the append fails before it. |
| `Grants.GrantKeeper.AppendNote` | core/refresh_runner.go:165-174 | Notes about re-consent change neither the granted set nor its replay. |
| `Grants.GrantKeeper.Reconcile` | core/grants.go:84-164 | Every reconciliation is a legal step of the history; it succeeds exactly when nothing it has to do fails, and then the latest snapshot holds what the provider granted; it loses an event exactly when a store without transactions keeps a changed snapshot alone. |
| `Capabilities.RefreshAgreesExactly` | core/service.go:941-969 | Whatever is granted, after a successful refresh the connection is active exactly when no listed capability lacks a required grant, every invocation is then allowed, and otherwise it needs re-consent and all are refused: if and only if the refreshed and the connection's spelling of the provider require the same grants and the connection's list has every name that some spelling lists. |
| `Capabilities.RefreshAgreesWithInvocations` | core/service.go:1037-1116 | For one invocation that agreement needs only equal required grants and the name on the connection's list. |
| `Capabilities.OwnSpellingAgrees` | core/service.go:1037-1116 | Refreshed and invoked under its own spelling, a connection agrees whatever else is registered. |
| `Capabilities.SpellingsDisagree` | core/service.go:848-881 | Two registered spellings of one provider id with different capabilities break that agreement. |
| `Capabilities.Service.SettleRefresh` | core/service.go:941-969 | The tail of a refresh: success leaves the status that the capabilities and the new snapshot demand; each way to fail leaves the status it says, whether or not the failing store had written. |
| `Capabilities.Service.Refresh` | core/service.go:848-969 | Success leaves the connection active or in need of re-consent as the provider's capabilities and the new snapshot demand; a refresh is rejected, changing nothing, exactly when connection or provider do not fit or an earlier step fails; later failures leave what the stores had written. |
| `Capabilities.Service.InvokeCapability` | core/service.go:1002-1116 | By connection id, an invocation is allowed if and only if provider, scope and capability fit, the connection is active and the snapshot covers the required grants. |
| `Capabilities.PermitsExactly` | core/service.go:1002-1116 | An invocation by connection id is permitted if and only if the connection is active and of that provider and scope, the named provider lists the capability, and the connection's own provider lists it with nothing required that is not granted. |
| `Capabilities.StatusExactly` | core/service.go:941-969 | A refresh leaves the connection active if and only if every non-blank grant that any capability requires was granted. |
| `Capabilities.Service.Evaluate` | core/permission_evaluator.go:24-104 | Allowed exactly when no required grant is missing; the missing required, or on degrade optional, grants are listed. |
| `Capabilities.FindCapability` | core/service.go:1188-1195 | The first descriptor whose trimmed name is the same up to case. |
| `Capabilities.FirstMatch` | core/service.go:1188-1195 | A match is on the list and has the name; no match means that none has. |
| `Capabilities.MissingProviderGrants` | core/grants.go:166-186 | The sorted required grants of all capabilities that are not granted; empty exactly when every capability is covered. |
| `Capabilities.MissingGrants` | core/permission_evaluator.go:106-119 | The sorted wanted grants that are not granted; empty exactly when all are. |
| `SpecLifecycle.FrozenForever` | core/mapping_spec_lifecycle.go:57-274 | Over any sequence of calls a published version never changes again. |
| `SpecLifecycle.PublishedAsValidated` | core/mapping_spec_lifecycle.go:155-274 | A validated or published version holds exactly what it held when it was last marked validated. |
| `SpecLifecycle.WritesExactly` | core/mapping_spec_lifecycle.go:57-274 | Each operation writes if and only if no store call fails, its input names all it must, and the version it asks for is free, or exists, belongs to the provider and scope and has the right status; and then it writes the content as given without outer spaces, or the same content, under the right status and times. |
| `SpecLifecycle.StepChangesOne` | core/mapping_spec_lifecycle.go:57-274 | The written version changes and no other. |
| `SpecLifecycle.AutoVersionsContiguous` | core/mapping_spec_lifecycle.go:65-80 | If every draft is versioned by the service, versions are contiguous from 1 and only the newest can be unpublished. |
| `SpecLifecycle.AutoDraft` | core/mapping_spec_lifecycle.go:65-97 | An automatic draft is the first version or comes right after a published latest one. |
| `MappingSpecs.NormalContentStable` | core/mapping_spec_lifecycle.go:339-359 | Normalising a normalised spec changes nothing, so a stored spec handed in again is not rewritten. |
| `MappingSpecs.Normalize` | core/mapping_spec_lifecycle.go:339-359 | The rule-by-rule rewrite gives the normal form. |
| `SpecLifecycle.GetLatest` | core/mapping_spec_lifecycle_test.go:85-105 | Whatever order the versions are collected in, the highest one, if it belongs to the provider and scope. |
| `SpecLifecycle.Lifecycle.CreateDraft` | core/mapping_spec_lifecycle.go:57-110 | Writes a draft under a version nobody holds, or nothing; the answer says which. |
| `SpecLifecycle.Lifecycle.UpdateDraft` | core/mapping_spec_lifecycle.go:112-153 | Replaces an unpublished version by a draft, or writes nothing. |
| `SpecLifecycle.Lifecycle.MarkValidated` | core/mapping_spec_lifecycle.go:155-220 | Moves an unpublished version to validated with its content unchanged, or writes nothing. |
| `SpecLifecycle.Lifecycle.Publish` | core/mapping_spec_lifecycle.go:222-274 | Publishes a validated version with its content unchanged; publishing again answers with the version as it is. |

## Left out

- The SQL stores: bun queries and transactions over a database. The stores are maps here; the transactional grant store either takes snapshot and event together or fails.
- HTTP transports, token endpoints, identity resolution, provider packages, cryptography, JWT, envelope encryption and request signing: library behaviour. Digests and redaction are functions given as parameters.
- Command, query, facade, adapters, options, migrations, observability, error mapping and message texts: wiring and string choice.
- The sync orchestrator, the transition tables of the domain types, the outbox dispatcher and the notification projector: what is left of them without their stores is single branches.
- The connection locker: unlocking does not check ownership, so an expired holder can release a newer lock, and nothing here relies on it. Operations of one connection are modelled as not interleaved.
- SyncExecution.SyncExecutionService.Run: the run id and event payloads are not modelled.
- SyncExecution.KeysAlikeExactly: the digest is a parameter that is taken to be injective, as SHA-256 is in practice.
- ClaimStore.CompletionsAreSpaced: the clock is read before the store's lock is taken; the order assumed is that of the steps as they take the lock.
- ClaimStore.Dispatcher.Dispatch: header and metadata extraction of the key is a parameter, and handler registration is the set of surfaces that have one.
- WebhookLedger.Processor.Process: the ledger's own store errors; the in-memory ledger has none.
- ReplayLedger.MemoryReplayLedger.Claim: the explicit purge call, which counts what pruning removes, is not modelled.
- MappingTransforms.TypeSoundness: converting a float outside the 64-bit range to an integer takes the value that amd64 gives; printing and parsing of numbers and times are parameters, of which only "an integer text is a float text" is used, and for round trips that a printed value reads back.
- MappingCompiler.Compile: sorting of the issues, their messages, and the hash of the compiled spec.
- MappingPreviewer.PreviewRecord: the list of differences, issue texts and the preview hash; a write that puts back the value already there counts as a write; a nil map nested in a sample, on which a write panics, is not among the values.
- ProviderRuntime.Runtime.Execute: resolving provider, adapter, credential and rate-limit key before the loop; response bodies, metadata and clock-skew hints.
- RateLimit.AdaptivePolicy.AfterCall: response headers arrive parsed; the default hint for a non-positive computed delay is unreachable, because the delay is positive unless 64-bit doubling overflows, which needs an initial or maximum delay above 2^62 nanoseconds.
- Grants.GrantKeeper.Reconcile: metadata and timestamps of snapshots and events.
- Capabilities.Service.Refresh: loading, exchanging, encrypting and saving the credential is one step that may fail; the status of a refresh whose reconciliation fails is active, as in the source.
- Capabilities.Service.InvokeCapability: how a connection is found by scope, without an id, is a parameter, and the service has its default evaluator.
- SpecLifecycle.Lifecycle.CreateDraft: values, not slices; a caller that keeps the rule slice it handed in and writes to it can still change a stored spec in memory. The store keeps versions by spec id, like the in-memory one in core/mapping_spec_lifecycle_test.go.
- SpecLifecycle.Lifecycle.Publish: a save that fails after its write is not told apart from an announcement that fails after the save, which has the same effect and answer.
- Running times, memory use and log output.
