# Drop Watch, verified

This project models the stateful and the arithmetic core of Drop Watch, a self-hosted price watcher, and proves
properties of it in Dafny 4.11. `dafny verify dfyconfig.toml` checks everything.

Two kinds of files work together. Where the program is concurrent (the browser manager, checks racing edits,
per-host queues, alert delivery, the SOCKS handshake) a protocol module gives one step for each piece of code
between two awaits, leaves the order of steps, the answers of the outside world and the clock to the environment,
and proves its theorems over every run. Beside it stands the program's own object as a class, whose methods are
proved to take exactly those steps. Where the program is sequential, methods with loops are proved equal to a
specification function, and the theorems are about that function.

| files | what they model |
|---|---|
| `GenerationProtocol.dfy`, `BrowserSharing.dfy`, `BrowserGeneration.dfy` | the renderer's shared browser: launch, acquire, retire, graceful and forced close, shutdown |
| `Listings.dfy`, `CheckOutcome.dfy`, `CheckProtocol.dfy`, `CommittedColumns.dfy`, `ListingStore.dfy` | a check's optimistic commit, what it writes, the edits that race it, cache validators |
| `Evidence.dfy`, `JsonLd.dfy`, `JsonLdGate.dfy` | ranking of JSON-LD offers, the confidence of the winner, the recording gate |
| `Json.dfy`, `JsonPath.dfy`, `PathGrammar.dfy`, `PathWriting.dfy`, `JsonPathEvaluation.dfy`, `JsonPathMatches.dfy`, `DescendOrder.dfy` | JSONPath parser, printer and capped evaluator, what a path matches and in which order |
| `PathSuggestions.dfy`, `WalkedPaths.dfy` | the walk that suggests paths, and what it reaches |
| `JsonDocuments.dfy`, `JsonTexts.dfy` | the scanner that cuts a JSON literal out of script text |
| `ValidationBudget.dfy` | how suggestion drafts share the validation budget |
| `QueueProtocol.dfy`, `QueueTurns.dfy`, `DomainQueue.dfy` | one queue per host, evicted when idle |
| `Decimal.dfy`, `AlertRules.dfy`, `AlertConditions.dfy`, `AlertProtocol.dfy`, `AlertDelivery.dfy`, `SerialAlerts.dfy`, `RepeatedAlerts.dfy`, `BrokenWatch.dfy` | money, alert rules, alert dedupe over runs with lost writes, the broken-watch alarm |
| `Price.dfy`, `PriceMarks.dfy` | reading a price from text |
| `SocksProxy.dfy`, `HandshakeProgress.dfy`, `Address.dfy`, `AddressNumbers.dfy`, `LiteralHosts.dfy` | the renderer's SOCKS byte reader and handshake, IP address text, and the two together |
| `PreviewCache.dfy`, `PreviewExpiry.dfy` | the TTL and LRU cache of previews |
| `Prelude.dfy`, `Digits.dfy`, `Texts.dfy`, `Sequences.dfy`, `Branches.dfy` | shared definitions and sequence lemmas |

## What the proofs found

- `close()` starts no generation and hands out no handle, but `options.launch` itself may still be called afterwards:
  it runs in a microtask of its own. It is called for exactly the generations whose microtask was still queued
  (`LaunchCalledAfterCloseIff`), and every handle it produces is closed.
- A check commits only if the row is unchanged, but the test compares milliseconds: an update is missed exactly if it
  lands in the millisecond the check has loaded (`UpdateDetectedIff`), and then the price of the old settings is
  recorded under the new ones (`MissedEditRecordsTheWrongPrice`). The theorems on what a commit claims assume no such
  update.
- An edit computes its patch from a row it loaded earlier and writes it without looking again. Two overlapping edits
  can leave an ETag under settings that never produced a price (`OverlappingEditsUnbackValidators`). A write is safe
  exactly if the row holds no validator, or the patch drops them, or the input changes none of the settings the row has
  by then (`EditKeepsBackingIff`).
- An alert is delivered and then remembered, in two awaits. If the write is lost, the next check sends the same alert
  again, with nothing overlapping (`LostWriteRepeatsAnAlert`). Between serial checks the next alert is sure to be
  cheaper or past the cooldown exactly if the last one was stored (`NextAlertFollowsIff`). The broken-watch alarm has the
  same gap (`NextAlarmNeedsOkIff`).
- Two checks of one product whose alerting overlaps can send the same alert twice (`OverlappingChecksRepeatAnAlert`).
  Overlap does no harm exactly where each gate was read on a memory at least as strict as the current one
  (`StaleMemoryIsHarmlessIff`, `AlertsAreDeduped`).
- The drop rule and the percentage shown to a reader agree exactly from one percent up (`DropAgreesIff`).
- The comment at packages/core/src/extract/suggest.ts:1424-1426 promises each mode a fixed floor. The code does not
  give twelve slots: twelve selectors can get six (`TwelveSelectorsGetSix`). What a mode is sure of is
  `LeastIsExact`, and it is twelve, or all a mode has, exactly if it has at most one draft or at least 23, or the
  drafts of the other mode leave that much of the budget (`FloorOfTwelveIff`).
- `parseIpv6` also reads a dotted quad before `::`, as in `1.2.3.4::`, which RFC 4291 does not allow. That is the
  whole excess (`ReadsExactlyTheForms`, `NonStandardIff`).
- The comment at packages/core/src/extract/json-path.ts:150 promises values in document order. `$..name` pushes an
  object's own match before anything below its fields, so a match further down is overtaken where the object has the
  name in a later field (`DocumentOrderIsNotKept`), and the order is kept exactly where that does not happen
  (`DocumentOrderIff`).
- The comment at packages/core/src/extract/suggest.ts:1025 promises null for a path that cannot be written. A key with
  one kind of quote can be written in the other, and is given up all the same (`ApostropheIsGivenUp`). Null means that
  exactly if some key holds both kinds of quote or none holds any (`NullMeansUnwritableIff`, `WritableIff`).

## Model

| member | source | states |
|---|---|---|
| GenerationProtocol.AtMostOneLiveHandle | apps/renderer/src/browser-generation.ts:49-98 | over every run: at most one generation is unretired, it is the active one, and at most one live handle is outside closing |
| GenerationProtocol.ClosedExactlyOnceWhenRetired | apps/renderer/src/browser-generation.ts:87-180 | over every run: close is called once, with the generation's own handle, exactly if it is retired and launched; a forced close only follows a graceful one of the same handle |
| GenerationProtocol.LiveExactlyWhileUnsettled | apps/renderer/src/browser-generation.ts:134-163 | a generation is in `generations` exactly while its launch is pending or its handle's close is unfinished |
| GenerationProtocol.NothingIsHandedOutAfterClose | apps/renderer/src/browser-generation.ts:49-132 | after `close` no generation starts and no acquire, even one already waiting, returns a handle; every launched handle is being closed |
| GenerationProtocol.LaunchCalledAfterCloseIff | apps/renderer/src/browser-generation.ts:134-144 | after `close`, the launch function can still be called for exactly the generations whose microtask was queued then |
| GenerationProtocol.LaunchCalledAfterClose | apps/renderer/src/browser-generation.ts:134-144 | the three-step run in which that happens |
| GenerationProtocol.SetDrainsAfterClose | apps/renderer/src/browser-generation.ts:100-180 | after `close` the set is empty exactly once no answer is owed, each member is owed one, and no run holds more than four answers per generation |
| GenerationProtocol.NextKeepsInv | apps/renderer/src/browser-generation.ts:49-180 | every step keeps the inductive invariant behind the theorems above |
| GenerationProtocol.RunKeepsInv | apps/renderer/src/browser-generation.ts:49-180 | so does every run |
| GenerationProtocol.StepAfterClose | apps/renderer/src/browser-generation.ts:100-132 | what a step after `close` can still change |
| GenerationProtocol.AnswerIsSpent | apps/renderer/src/browser-generation.ts:134-180 | each launch or close answer after `close` lowers what is outstanding, and nothing raises it |
| GenerationProtocol.RetireAllAdds | apps/renderer/src/browser-generation.ts:107-113 | retiring one more generation of a set: the order of the loop in `close` does not matter |
| BrowserSharing.AcquireSharesIff | apps/renderer/src/browser-generation.ts:49-60 | over every run: an acquire leaves every generation alone and waits for the active one exactly if some unretired generation is still launching or has a usable browser |
| BrowserSharing.AcquireStartsOtherwise | apps/renderer/src/browser-generation.ts:54-60 | otherwise it waits for one new generation, now the active one, and of the others only the launched and unusable one is retired and starts to close its own handle |
| BrowserSharing.ResumeReturnsIff | apps/renderer/src/browser-generation.ts:62-79 | an acquire whose launch is fulfilled returns that launch's handle exactly if the generation was not retired meanwhile, throws otherwise, and touches no generation |
| BrowserSharing.GiveUpRetires | apps/renderer/src/browser-generation.ts:74-79 | an acquire that gives up throws and retires its own generation and no other |
| BrowserSharing.RetireRetires | apps/renderer/src/browser-generation.ts:87-98 | `retire` retires that generation, starts to close its handle if it has one, and changes no other |
| BrowserSharing.LaunchIsAnswered | apps/renderer/src/browser-generation.ts:134-163 | a fulfilled launch gives its generation the handle and starts to close it exactly if it was retired meanwhile; a rejected one leaves the set |
| BrowserSharing.CloseIsForced | apps/renderer/src/browser-generation.ts:165-180 | a close that fails or is late forces the same handle, and changes nothing else |
| BrowserSharing.CloseEnds | apps/renderer/src/browser-generation.ts:146-180 | a close that resolves ends, and so does a forced one, whichever way it settles: the generation leaves the set |
| BrowserSharing.FailedGenerationIsNotShared | apps/renderer/src/browser-generation.ts:49-98 | over every run: a generation that has failed one acquire is never given to another |
| BrowserSharing.OneLaunchServesAll | apps/renderer/src/browser-generation.ts:49-79 | however many acquires overlap, while no one gives up, retires or closes and the browser stays usable, one generation is started and every acquire gets the handle of its launch |
| BrowserGeneration.BrowserGenerationManager.Acquire | apps/renderer/src/browser-generation.ts:49-67 | up to its await, `acquire` takes the protocol's acquire step and fails exactly on a closed manager; what that step does is stated by BrowserSharing.AcquireSharesIff and AcquireStartsOtherwise |
| BrowserGeneration.BrowserGenerationManager.Choose | apps/renderer/src/browser-generation.ts:54-60 | the active generation, or a new one after retiring an unusable one; it is the active one from then on; a usable or still launching one is kept as it is (BrowserSharing.AcquireSharesIff) |
| BrowserGeneration.BrowserGenerationManager.Start | apps/renderer/src/browser-generation.ts:134-144 | a fresh scheduled generation becomes active and enters the set |
| BrowserGeneration.BrowserGenerationManager.CallLaunch | apps/renderer/src/browser-generation.ts:140-140 | the queued microtask calls launch and changes nothing else |
| BrowserGeneration.BrowserGenerationManager.OnLaunched | apps/renderer/src/browser-generation.ts:145-151 | a fulfilled launch stores its handle and closes it if the generation was retired or replaced |
| BrowserGeneration.BrowserGenerationManager.OnLaunchFailed | apps/renderer/src/browser-generation.ts:152-155 | a rejected launch leaves the set |
| BrowserGeneration.BrowserGenerationManager.Resume | apps/renderer/src/browser-generation.ts:62-79 | after its await `acquire` returns the handle or closes it and fails, as the protocol's resume step |
| BrowserGeneration.BrowserGenerationManager.Refuse | apps/renderer/src/browser-generation.ts:68-78 | the retired or replaced case of it |
| BrowserGeneration.BrowserGenerationManager.HandOut | apps/renderer/src/browser-generation.ts:72-73 | the case that returns the handle |
| BrowserGeneration.BrowserGenerationManager.GiveUp | apps/renderer/src/browser-generation.ts:74-79 | a deadline or failed launch retires the generation only while it is active |
| BrowserGeneration.BrowserGenerationManager.Retire | apps/renderer/src/browser-generation.ts:87-98 | retires one generation, once, and starts its close if it has a handle |
| BrowserGeneration.BrowserGenerationManager.EnsureClose | apps/renderer/src/browser-generation.ts:159-163 | starts a close only if none was started |
| BrowserGeneration.BrowserGenerationManager.BeginClose | apps/renderer/src/browser-generation.ts:100-113 | `close` up to its first await aborts the manager and retires every member of the set |
| BrowserGeneration.BrowserGenerationManager.RetireGenerations | apps/renderer/src/browser-generation.ts:107-113 | its loop, whatever order the snapshot is visited in |
| BrowserGeneration.BrowserGenerationManager.OnCloseResolved | apps/renderer/src/browser-generation.ts:159-167 | a graceful close that resolves takes the generation out of the set |
| BrowserGeneration.BrowserGenerationManager.OnCloseFailed | apps/renderer/src/browser-generation.ts:165-174 | one that fails or is late force-closes the same handle |
| BrowserGeneration.BrowserGenerationManager.OnForceSettled | apps/renderer/src/browser-generation.ts:168-180 | the forced close ends it, however it settles |
| CheckOutcome.OutcomeAndAcceptanceAgree | apps/worker/src/check-listing.ts:121-132 | the two spellings of "may this price be recorded" agree on every answer, and only a 304 is ok without a price |
| Listings.CurrentEditInvalidatesIff | packages/api/src/listing-insert.ts:122-151 | an edit computed from the current row drops both validators and makes the listing due exactly if it changes a setting |
| Listings.ResubmitRestores | packages/api/src/listing-insert.ts:95-151 | an edit that resends loaded settings puts them back and keeps whatever validators the row has by then |
| CheckProtocol.CommitClaimsExactlyTheLoadedRow | apps/worker/src/check-listing.ts:239-278 | over every interleaving without an update in a loaded millisecond: a commit persists exactly if the row is the one loaded; a price carries the settings of that moment; a stale check adds only its run; the columns it writes are stated by CommittedColumns.PersistedColumns |
| CheckProtocol.OverlappingChecksPersistOnce | apps/worker/src/check-listing.ts:239-278 | of two checks whose spans from load to commit overlap at most one persists |
| CheckProtocol.EveryRecordHasItsCheck | apps/worker/src/check-listing.ts:239-278 | over every run: one `check_runs` row per persisted or stale check; each price was written by exactly one persisted check, with the settings it had loaded |
| CheckProtocol.CrashLeavesNoTrace | apps/worker/src/check-listing.ts:231-278 | over every run: listing, prices and runs are as if a killed check had never been started, whatever else goes on |
| CheckProtocol.UpdateDetectedIff | apps/worker/src/check-listing.ts:252-257 | an edit, another check's commit or any other update makes an in-flight check stale exactly if its millisecond is not the one the check loaded |
| CheckProtocol.MissedEditRecordsTheWrongPrice | apps/worker/src/check-listing.ts:252-257 | the run in which it is that one: a price and an ETag of the old settings are recorded under the new ones |
| CheckProtocol.NotModifiedIsBacked | apps/worker/src/check-persistence.ts:8-26 | over every run of harmless edits: validators imply a price recorded under the current settings, so a 304 that persists is backed by one |
| CheckProtocol.EditKeepsBackingIff | packages/api/src/routers/listings.ts:127-161 | for each edit, what harmless means: its write keeps the listing backed under all recorded prices exactly if there is no validator, the patch drops them, or the input changes no setting of the row as it is |
| CheckProtocol.OverlappingEditsUnbackValidators | packages/api/src/routers/listings.ts:127-161 | a run of two overlapping edits and one check that ends with an ETag no price backs |
| CheckProtocol.NextKeepsInv | apps/worker/src/check-listing.ts:239-374 | every step keeps the invariant on snapshots and on pairs of checks |
| CheckProtocol.CommitKeepsBacked | apps/worker/src/check-listing.ts:134-182 | a commit keeps validators backed: a refused body earns none |
| CommittedColumns.PersistedColumns | apps/worker/src/check-listing.ts:134-182 | what a persisted check writes: the next due time, each validator the answer supplies if it was a 304 or an accepted page, the currency only where the snapshot had none, and no other column |
| CommittedColumns.PersistedPrice | apps/worker/src/check-listing.ts:162-181 | a price point is added exactly if the page gave one unambiguous price in a known currency, and it carries that page's price, currency and stock |
| CommittedColumns.AnswersOfCheck | apps/worker/src/check-listing.ts:54-90 | a check can finish with any answer, except that a 304 only answers the conditional request of the http path |
| CommittedColumns.FinishedCheckIsLogged | apps/worker/src/outcome.ts:55-110 | every finished check leaves one run that says what the site answered: its status, the HTTP status and the extractor used |
| CommittedColumns.StaleCheckWritesNothing | apps/worker/src/check-listing.ts:260-268 | a check whose row moved on writes no column and no price |
| CommittedColumns.CheckTouchesOnlyItsColumns | apps/worker/src/check-listing.ts:239-278 | over every run without an update in a loaded millisecond: a persisting check reschedules the row it was computed from, and can besides only refresh validators and fill in a missing currency |
| CommittedColumns.EditedColumns | packages/api/src/listing-insert.ts:95-151 | an edit writes exactly the submitted columns, and drops both validators and makes the listing due exactly if it resets an extraction setting it had loaded |
| CommittedColumns.EditStamps | packages/api/src/routers/listings.ts:127-161 | an edit stamps the row exactly if it has something to write |
| CheckProtocol.NextKeepsBacked | apps/worker/src/check-persistence.ts:14-26 | so does every other step, an edit that is harmless in that sense included |
| ListingStore.Store.LoadCheckable | apps/worker/src/check-listing.ts:280-306 | loads the row as a snapshot, or nothing for an inactive listing |
| ListingStore.Store.Persist | apps/worker/src/check-listing.ts:239-278 | the transaction is the protocol's commit step; when it reports stale, row and prices are untouched; what that step writes is stated in CommittedColumns |
| ListingStore.Store.Update | packages/api/src/routers/listings.ts:127-161 | the edit's transaction is the protocol's edit step |
| JsonLd.RecordedResultIgnoresOrder | packages/core/src/extract/jsonld.ts:822-849 | whenever the gate lets a result through, every permutation of the offers gives the same offer, price, confidence and evidence; what the gate lets through is JsonLdGate.RecordedIff |
| JsonLd.GateIgnoresOrder | packages/core/src/extract/evidence.ts:35-56 | the verdict of the gate is the same for every permutation |
| JsonLd.RecordableWinnerIsUnique | packages/core/src/extract/jsonld.ts:757-820 | a winner that passes the gate is the only priced offer of its bucket |
| JsonLd.RecordableCases | packages/core/src/extract/jsonld.ts:757-820 | with several priced offers only a unique sku, exact URL or variant match passes the gate |
| JsonLd.ConfidenceIgnoresOrder | packages/core/src/extract/jsonld.ts:757-820 | the confidence depends on the winner and the set of offers, not on their order |
| JsonLd.DocumentOrderDecidesWithoutTheGate | packages/core/src/extract/jsonld.ts:757-820 | two plain offers are won by the first in the document, and refused by the gate |
| JsonLd.RankKeepsEveryOffer | packages/core/src/extract/jsonld.ts:648-695 | ranking loses and repeats no offer |
| JsonLd.RankIsOrdered | packages/core/src/extract/jsonld.ts:648-695 | and sorts them by bucket |
| JsonLd.WinnerHasBestBucket | packages/core/src/extract/jsonld.ts:648-695 | so the first priced offer has the best bucket among the priced ones |
| JsonLd.RankPermutes | packages/core/src/extract/jsonld.ts:623-695 | permuted offers are ranked to a permutation, with the same trusted conflicts |
| JsonLd.OfferBuckets.AddToOfferBucket | packages/core/src/extract/jsonld.ts:575-589 | adds one offer to its bucket, in order, and leaves the others alone |
| JsonLd.RankIntoBuckets | packages/core/src/extract/jsonld.ts:648-695 | the bucket loop computes the ranking |
| JsonLdGate.RecordedIff | packages/core/src/extract/jsonld.ts:757-820 | which results are confident and which are recorded, by the flags alone: a recorded one is a product's own single price, against which neither the selected sku nor the variant speaks, and is the only priced offer or singled out by sku, exact URL or a trusted and comparable variant match |
| JsonLdGate.SoleOfferIsRecordedIff | packages/core/src/extract/evidence.ts:27-56 | a page's only priced offer is recorded exactly if it is a product, no aggregate or range, without a variant conflict, and carries the selected sku if the page selects one |
| JsonLdGate.WinnerIs | packages/core/src/extract/jsonld.ts:575-695 | the result is the first offer in the document that no other beats: by selected sku, exact URL without a conflict, variant match, exact URL, then path |
| JsonLdGate.PricedIff | packages/core/src/extract/jsonld.ts:623-695 | the priced offers are those with a price, each with its variant conflict confirmed or dropped |
| JsonLdGate.EvidenceOfHigh | packages/core/src/extract/jsonld.ts:780-820 | a confident result names what singled its offer out and how many offers were priced |
| JsonPath.ReadName | packages/core/src/extract/json-path.ts:40-55 | the end of the longest name at a position |
| JsonPath.ParseJsonPath | packages/core/src/extract/json-path.ts:94-147 | the parsing loop, with its error for every malformed expression, as the function the theorems are about |
| JsonPath.ConcretePath | packages/core/src/extract/suggest.ts:1026-1043 | the printing loop, and exactly when it refuses |
| PathGrammar.ParseIff | packages/core/src/extract/json-path.ts:40-145 | a text is read as given segments exactly if, white space around it aside, it is `$` and behind it one spelling of each: `.name`, `..name`, `.*`, `[*]`, `[n]` and a key in quotes it does not hold, with white space inside the brackets; every other text is an error |
| PathGrammar.SpellsRead | packages/core/src/extract/json-path.ts:57-88 | every spelling of a segment is read as it, up to where the next one starts |
| PathGrammar.ReadSpells | packages/core/src/extract/json-path.ts:57-88 | whatever is read as a segment is a spelling of it |
| JsonPath.ParseUndoesPrint | packages/core/src/extract/json-path.ts:57-147 | parsing a printed path gives back exactly its steps |
| JsonPath.ParseUndoesShorthand | packages/core/src/extract/json-path.ts:122-130 | `$..name` parses to one descend segment |
| JsonPath.PrintIsInjective | packages/core/src/extract/suggest.ts:1026-1043 | two different paths never print the same text |
| PathWriting.WritableIff | packages/core/src/extract/json-path.ts:57-88 | some text is read as the steps of a path exactly if no key of it holds quotes of both kinds |
| PathWriting.PrintsIff | packages/core/src/extract/suggest.ts:1025-1043 | `concretePath` prints a path exactly if no key of it holds a quote of either kind |
| PathWriting.NullMeansUnwritableIff | packages/core/src/extract/suggest.ts:1025-1043 | that it answers null just where a path cannot be written holds exactly if some key of the path holds both kinds of quote or none holds any |
| PathWriting.ApostropheIsGivenUp | packages/core/src/extract/suggest.ts:1037-1039 | every key with an apostrophe alone: given up, and read from double quotes |
| JsonPathEvaluation.EvaluateJsonPath | packages/core/src/extract/json-path.ts:155-171 | the evaluation loop computes the capped meaning, which is stated by concrete paths in JsonPathMatches |
| JsonPathEvaluation.ApplyToAll | packages/core/src/extract/json-path.ts:155-171 | one turn of it: all nodes one segment leads to, cut at the cap |
| JsonPathEvaluation.ApplySegment | packages/core/src/extract/json-path.ts:173-194 | pushes what one segment means at one node, which is JsonPathMatches.PiecesIff |
| JsonPathEvaluation.PushAll | packages/core/src/extract/json-path.ts:204-211 | pushes values up to the cap |
| JsonPathEvaluation.DescendInto | packages/core/src/extract/json-path.ts:213-232 | pushes every match below a node, an object's own one first and then its fields' in order, up to depth and node caps |
| JsonPathEvaluation.EvaluatorRefinesMeaning | packages/core/src/extract/json-path.ts:155-232 | at most MAX_NODES values, always a prefix of the uncapped meaning, and all of it when no stage overflows; JsonPathMatches says what the meaning is |
| JsonPathEvaluation.PrintedPathFindsItsValue | packages/core/src/extract/json-path.ts:155-171 | a printed path parses and finds exactly the value at that path, and nothing if there is none |
| JsonPathEvaluation.SoleShorthandMatch | packages/core/src/extract/json-path.ts:213-232 | a `$..leaf` with a single match finds the value at any path within the bound that ends in `leaf` |
| JsonPathMatches.EvaluateFindsTheMatches | packages/core/src/extract/json-path.ts:155-232 | the evaluator finds the value of every way to cut a concrete path into pieces that match the segments (a key, a position, any one step, or steps within the depth bound that end in the name), each once and in order; all of them where no stage overflows the cap |
| JsonPathMatches.MatchesAreListedOnce | packages/core/src/extract/json-path.ts:155-171 | there is only one such list |
| JsonPathMatches.PiecesIff | packages/core/src/extract/json-path.ts:173-232 | the concrete paths that one segment leads along from a node are exactly those it matches |
| JsonPathMatches.DescendPiecesIff | packages/core/src/extract/json-path.ts:213-232 | the search below a node finds exactly the paths within the depth bound that end in the name |
| DescendOrder.DocumentOrderIff | packages/core/src/extract/json-path.ts:148-232 | `$..name` returns its matches in document order exactly if no object on the way to a match has the name in a field behind the one that leads on to it |
| DescendOrder.DocumentOrderIsNotKept | packages/core/src/extract/json-path.ts:223-231 | documents whose values are returned in the other order |
| PathSuggestions.WalkJsonValue | packages/core/src/extract/suggest.ts:1154-1212 | the walk visits values in document order under its depth and node bounds |
| PathSuggestions.DraftsReadTheirValue | packages/core/src/extract/suggest.ts:1112-1212 | every draft of every document reads the value it was emitted for |
| PathSuggestions.WalkIsBounded | packages/core/src/extract/suggest.ts:1164-1167 | at most MAX_NODES values are visited, and no more hits than visits |
| WalkedPaths.WalkHitsExactly | packages/core/src/extract/suggest.ts:1154-1212 | a walk that does not run out of nodes hits exactly the expected values within the depth bound, arrays aside |
| WalkedPaths.EveryPathIsOffered | packages/core/src/extract/suggest.ts:1112-1212 | every expected value such a walk has room for is offered under an expression that evaluates to it alone, if its path can be printed, and under the shorthand of its key if that is a name |
| WalkedPaths.DraftsAre | packages/core/src/extract/suggest.ts:1112-1150 | what is offered for a path |
| JsonDocuments.ReadJsonLiteral | packages/core/src/extract/json-documents.ts:143-174 | the scanning loop as the function the next theorems are about |
| JsonDocuments.LiteralIsExactlyTheText | packages/core/src/extract/json-documents.ts:143-174 | for every JSON array or object within the limit and any text around it: exactly its text and the position behind it |
| JsonDocuments.LongLiteralIsRefused | packages/core/src/extract/json-documents.ts:143-174 | a longer one is refused, never cut |
| ValidationBudget.Budgeted | packages/core/src/extract/suggest.ts:1428-1452 | the budget loop as the function the next theorems are about |
| ValidationBudget.CountModes | packages/core/src/extract/suggest.ts:1429-1432 | its first loop counts the drafts of each mode |
| ValidationBudget.BudgetIsSpentFairly | packages/core/src/extract/suggest.ts:1428-1452 | exactly min(40, n) drafts are taken and each mode gets at least min(12, half its drafts rounded up); all of them when they fit |
| ValidationBudget.TakenIsSubsequence | packages/core/src/extract/suggest.ts:1428-1452 | in the order they were offered |
| ValidationBudget.LeastIsExact | packages/core/src/extract/suggest.ts:1428-1452 | for all counts of both modes: every order gives a mode at least min(own, max(40 - other, its floor)) drafts, and some order exactly that many |
| ValidationBudget.FloorOfTwelveIff | packages/core/src/extract/suggest.ts:1424-1452 | every order gives a mode twelve drafts, or all it has, exactly if it has at most one or at least 23, or the other mode leaves that much of the budget |
| ValidationBudget.TwelveSelectorsGetSix | packages/core/src/extract/suggest.ts:1415-1452 | an order of forty path drafts and twelve selectors in which the selectors get six |
| QueueProtocol.OneFunctionPerHost | packages/core/src/fetch/index.ts:391-408 | over every interleaving, evictions included, at most one function runs per hostname key |
| QueueProtocol.BusyQueuesAreMapped | packages/core/src/fetch/index.ts:57-67 | a queue that holds or runs work is the one in the map, and whoever waits has one running before it |
| QueueProtocol.MapIsEmptyOnceAllReturned | packages/core/src/fetch/index.ts:396-408 | every entry of the map belongs to a call that has not returned; the map is empty once all have |
| QueueProtocol.QueuesAreFifo | packages/core/src/fetch/index.ts:391-408 | calls of one queue start in the order they were made |
| QueueTurns.EnterTakesItsTurn | packages/core/src/fetch/index.ts:391-408 | over every run: a call runs at once exactly if no other call of its host runs or waits, and waits otherwise |
| QueueTurns.SettleHandsOn | packages/core/src/fetch/index.ts:391-408 | a settling function hands its slot to the call of its queue that has waited longest, and changes no other |
| QueueTurns.LeaveReturns | packages/core/src/fetch/index.ts:391-408 | a caller that resumes returns, and evicts its queue exactly if that is still mapped and none of its calls runs or waits |
| QueueTurns.EveryCallComesBack | packages/core/src/fetch/index.ts:391-408 | from every state a run reaches, functions settling and callers resuming bring every call back, and then the map is empty |
| QueueProtocol.EnterKeepsInv | packages/core/src/fetch/index.ts:57-67 | a call of `withDomainQueue` keeps the invariant, whether it finds a queue or makes one |
| QueueProtocol.SettleKeepsInv | packages/core/src/fetch/index.ts:396-399 | so does a settling function, whose slot goes to the next call |
| QueueProtocol.LeaveKeepsInv | packages/core/src/fetch/index.ts:399-408 | so does the eviction in the `finally` |
| DomainQueue.DomainQueues.QueueFor | packages/core/src/fetch/index.ts:59-67 | finds or creates the queue of a key |
| DomainQueue.DomainQueues.Enter | packages/core/src/fetch/index.ts:391-398 | a call up to its await is the protocol's enter step |
| DomainQueue.DomainQueues.OnSettled | packages/core/src/fetch/index.ts:396-399 | a settling function is its settle step |
| DomainQueue.DomainQueues.Leave | packages/core/src/fetch/index.ts:399-408 | the `finally` is its leave step |
| Decimal.MinorUnitsRoundTrip | packages/core/src/decimal.ts:31-49 | `toMinorUnits` undoes `fromMinorUnits` on every integer |
| Decimal.ReadsWritten | packages/core/src/decimal.ts:31-40 | sign, whole part and fraction read as their value, further digits cut off |
| Decimal.FractionIsCut | packages/core/src/decimal.ts:31-40 | digits behind the second place do not count, and a missing second one counts as zero |
| Decimal.SubtractIsExact | packages/core/src/decimal.ts:52-54 | a difference reads back as exactly the difference of the minor units |
| Decimal.CheapestIsFirstLeast | packages/core/src/decimal.ts:63-68 | the cheapest row is a least one, and the first of them |
| Decimal.PercentTextValue | packages/core/src/decimal.ts:74-85 | the text of `percentChange` reads back as its tenths |
| AlertRules.DropAgreesWithDisplay | packages/core/src/rules/index.ts:152-173 | from one percent up the drop rule fires exactly if the figure shown is at least that fall |
| AlertRules.DropAgreesIff | packages/core/src/rules/index.ts:152-173 | that agreement on all prices holds exactly for percentages of at least one |
| AlertRules.EvaluateIsGated | packages/core/src/rules/index.ts:213-242 | every trigger is past its dedupe gate and no rule triggers twice |
| AlertRules.TriggersExactly | packages/core/src/rules/index.ts:131-242 | a trigger is sent exactly if its rule is on, its condition is met, it is about that rule's own observation and the memory of that rule lets it through; each condition is stated by prices and stock flags in AlertConditions |
| AlertConditions.TargetSentIff | packages/core/src/rules/index.ts:131-145 | with no alert remembered a target alert goes out exactly if some listing costs at most the target, and it is about the first of the cheapest |
| AlertConditions.DropSentIff | packages/core/src/rules/index.ts:152-173 | a drop alert goes out exactly if the previous price was positive and the new one is at most what the percentage leaves of it |
| AlertConditions.RestockSentIff | packages/core/src/rules/index.ts:180-185 | a restock alert goes out exactly if the page said no before and says yes now |
| AlertConditions.UnsetRuleIsSilent | packages/core/src/rules/index.ts:131-206 | a rule that is off, or lacks its setting, sends nothing |
| AlertConditions.RememberedSentIff | packages/core/src/rules/index.ts:213-242 | with an alert remembered the same one goes out exactly if it would for the first time and is cheaper than the remembered one or past the cooldown |
| AlertConditions.OtherMemoriesDoNotCount | packages/core/src/rules/index.ts:236-242 | the memory of another rule makes no difference |
| AlertRules.CountLeadingFailures | packages/core/src/rules/index.ts:257-266 | the length of the longest failing prefix of the runs |
| AlertProtocol.AlertsAreDeduped | apps/worker/src/alerting.ts:296-338 | over every run, overlapping checks and lost writes included: if each alert of a rule was gated on a memory at least as strict as one on the alert before it, the later of two alerts is cheaper or past the cooldown |
| SerialAlerts.SerialAlertsFollow | apps/worker/src/alerting.ts:296-338 | over every run of checks one after the other: each alert is past the gate on the last one stored before it; so it is cheaper than the one right before it or past the cooldown, unless that one's write was lost |
| RepeatedAlerts.NextAlertFollowsIff | apps/worker/src/alerting.ts:326-336 | between checks, over every serial way to go on: the next alert is sure to follow the last one in that sense exactly if the last one was stored |
| RepeatedAlerts.LostWriteRepeatsAnAlert | apps/worker/src/alerting.ts:326-336 | the run of two checks, one after the other, in which a lost write repeats an alert within its cooldown |
| RepeatedAlerts.MetAloneIff | packages/core/src/rules/index.ts:131-210 | exactly which trigger can be all a check finds: any but a restock of something not in stock; so the repeating runs are runs of real checks |
| SerialAlerts.ChainIsBounded | apps/worker/src/alerting.ts:324-337 | over every serial run a chain of stored alerts within the cooldown falls strictly and is at most first price plus one long |
| AlertProtocol.LogCountsDeliveries | apps/worker/src/alerting.ts:268-336 | over every run a rule has exactly one logged alert per successful send, and as many marked stored as writes succeeded |
| AlertProtocol.RunKeepsInv | apps/worker/src/alerting.ts:296-338 | every run keeps each check's remaining triggers past their gates and each sent, unstored alert in the log, awaited by one check only |
| SerialAlerts.SerialStep | apps/worker/src/alerting.ts:296-338 | with one check at a time every step keeps the stored memory equal to the last alert that was stored |
| AlertProtocol.StaleMemoryIsHarmlessIff | packages/core/src/rules/index.ts:213-226 | over all prices and times a gate read on one memory, present or absent, lets through only what another one would exactly if it is at least as strict |
| RepeatedAlerts.OverlappingChecksRepeatAnAlert | apps/worker/src/alerting.ts:296-338 | two overlapping checks of one product send the same alert twice, no write lost: the second gate was read on a weaker memory |
| AlertDelivery.CheckAlerts | apps/worker/src/alerting.ts:310-338 | a check's alerting from its evaluation to its end: a rule's alert is logged and remembered, with its own price, exactly if the rule triggers on the loaded memory, no earlier write was lost, and its own send and write succeed; a failed send stops no other; no other rule or check is touched |
| AlertDelivery.RowOfTriggers | apps/worker/src/alerting.ts:324-337 | of all the triggers of a check a rule's log and memory see only its own |
| AlertProtocol.AlertState.RunPriceAlerts | apps/worker/src/alerting.ts:296-338 | the delivery loop takes the protocol's steps: each trigger fails, is stored, or is delivered and ends the loop by a lost write |
| BrokenWatches.BrokenWatch.RunFailureAlert | apps/worker/src/alerting.ts:348-383 | the alerting of one check clears, keeps or raises the alarm as in the runs of the next rows |
| BrokenWatches.OneAlarmPerStreak | apps/worker/src/alerting.ts:340-383 | over every run, whatever thresholds, stale checks and errors come: each alarm closes a streak of its own threshold of failures, and after a stored one a check clears the flag before the next |
| BrokenWatches.NextAlarmNeedsOkIff | apps/worker/src/alerting.ts:371-382 | over every way to go on: a check is sure to be ok before the next alarm exactly if the last alarm was stored or a check has been ok since |
| BrokenWatches.LostMarkRepeatsTheAlarm | apps/worker/src/alerting.ts:375-382 | the run of two failures in which a lost write reports one streak twice |
| SocksProxy.Reader.OnData | apps/renderer/src/guarded-socks-proxy.ts:100-109 | a chunk is appended and may satisfy the pending read; too much data rejects it; delivered and buffered bytes joined are the received ones |
| SocksProxy.Reader.Read | apps/renderer/src/guarded-socks-proxy.ts:123-144 | resolves at once, waits, or rejects a bad or concurrent read, without losing a byte |
| SocksProxy.Reader.OnTimeout | apps/renderer/src/guarded-socks-proxy.ts:135-139 | a timer rejects the pending read |
| SocksProxy.ChunksDoNotMatter | apps/renderer/src/guarded-socks-proxy.ts:70-149 | however the stream is cut, whenever no resolved read is outstanding and no read was rejected: the handshake ends or waits where the received bytes lead, with exactly the bytes behind that buffered |
| SocksProxy.DeadIff | apps/renderer/src/guarded-socks-proxy.ts:100-139 | over every run the socket is destroyed exactly if the timer of a pending read fired or more than 1024 unread bytes had come |
| SocksProxy.ThrewIff | apps/renderer/src/guarded-socks-proxy.ts:79-139 | over every run the handshake has thrown exactly if one of these, an error or the end of the socket met a pending read; then it is not connected, and otherwise the row above applies between any two reads |
| SocksProxy.RunKeepsInv | apps/renderer/src/guarded-socks-proxy.ts:70-149 | every interleaving of data, resumes, timers, errors and the end of the socket keeps the invariant behind it |
| SocksProxy.ConnectRoundTrip | apps/renderer/src/guarded-socks-proxy.ts:161-199 | an encoded greeting and CONNECT request decode to their host and port, and later bytes stay |
| SocksProxy.ConnectsIff | apps/renderer/src/guarded-socks-proxy.ts:161-245 | a tunnel opens for exactly those streams |
| SocksProxy.TunnelReceivesEveryEarlyByte | apps/renderer/src/guarded-socks-proxy.ts:344-347 | the early data handed to the tunnel is every byte behind the request |
| HandshakeProgress.TunnelOpensIff | apps/renderer/src/guarded-socks-proxy.ts:161-245 | however the stream is cut and handled: unless a read was rejected the handshake goes on to open a tunnel exactly if it received a greeting, a CONNECT request and any bytes behind it, to that target and with those bytes |
| HandshakeProgress.ComesToRest | apps/renderer/src/guarded-socks-proxy.ts:70-149 | from every state a run reaches resolved reads carry the handshake to where it waits for new bytes or has ended |
| HandshakeProgress.SocketIsHeard | apps/renderer/src/guarded-socks-proxy.ts:70-149 | bytes arrive until the socket is destroyed, which too many unread ones do; a timer, an error or the end rejects a pending read and nothing else |
| LiteralHosts.LiteralNamesItsBytes | apps/renderer/src/guarded-socks-proxy.ts:171-179 | the literal address that is checked parses back to exactly the address bytes of the request |
| Address.ParseIpv6 | packages/core/src/net/address.ts:116-172 | the parser as the function the theorems are about |
| Address.ReadPieces | packages/core/src/net/address.ts:127-151 | the loop of its inner `expand` |
| Address.EveryFormIsRead | packages/core/src/net/address.ts:116-172 | every text form of section 2.2 of RFC 4291, with or without a zone id, reads as its eight groups |
| Address.ReadsExactlyTheForms | packages/core/src/net/address.ts:116-172 | nothing is read but those forms and the ones with a dotted quad before `::` |
| Address.NonStandardIff | packages/core/src/net/address.ts:132-143 | a text that is read is outside the standard exactly if a quad stands before its `::` |
| Address.QuadBeforeZerosIsRead | packages/core/src/net/address.ts:132-143 | such texts are read: any dotted quad followed by `::` |
| Address.Ipv6Groups | packages/core/src/net/address.ts:116-172 | every result has eight groups below 2^16 |
| Address.QuadIsRead | packages/core/src/net/address.ts:103-110 | a dotted quad reads as its four octets |
| AddressNumbers.QuadReadIff | packages/core/src/net/address.ts:103-110 | a text is read as a dotted quad exactly if it is four texts of one to three digits worth at most 255 between three dots |
| AddressNumbers.QuadIsWorth | packages/core/src/net/address.ts:127-151 | a quad behind `::` stands for two groups, its first and third octets high |
| AddressNumbers.GroupIsWorth | packages/core/src/net/address.ts:127-151 | every number of sixteen bits is read from its hexadecimal text, in upper case, lower case or both |
| AddressNumbers.GroupIff | packages/core/src/net/address.ts:20 | a group is one to four hexadecimal digits |
| AddressNumbers.LeadingZeroDoesNotMatter | packages/core/src/net/address.ts:127-151 | zeros in front of a group change nothing |
| Price.ParsePrice | packages/core/src/extract/price.ts:251-281 | reading text without a locale, as the function the theorems are about |
| Price.ResolveDecimalSeparator | packages/core/src/extract/price.ts:197-226 | decides the decimal separator of a token |
| Price.DigitsAfter | packages/core/src/extract/price.ts:173-181 | counts the digits behind a position |
| Price.Occurrences | packages/core/src/extract/price.ts:183-191 | counts a separator |
| Price.NumberIsRead | packages/core/src/extract/price.ts:197-281 | wherever a grouped number with a fraction stands in a text it reads as its whole part and fraction, except that three digits behind the only separator of either kind are a group |
| Price.WholeNumberIsRead | packages/core/src/extract/price.ts:197-281 | wherever a number without a fraction stands in a text, with no mark, one kind of mark repeated or a lone mark before three digits, it reads as all its digits and is worth a hundred minor units each |
| Price.NoSeparatorIff | packages/core/src/extract/price.ts:197-226 | a token has no decimal separator exactly if it is such a number |
| Price.GroupingDoesNotMatter | packages/core/src/extract/price.ts:251-281 | any grouping of a whole part with a two-digit fraction reads as the same decimal, worth the same minor units |
| Price.PriceRoundTrip | packages/core/src/extract/price.ts:251-281 | `parsePrice` reads back what `fromMinorUnits` writes, for every integer |
| Price.AmountsAreDecimals | packages/core/src/extract/price.ts:228-281 | every amount found is accepted by `toMinorUnits` |
| PriceMarks.GroupMarkIff | packages/core/src/extract/price.ts:21-28 | between digits and a group of three exactly the dot, the comma, the two apostrophes and the spaces are passed over; with any other character the number ends in front of it |
| PreviewCaches.PreviewCache.Prune | packages/api/src/preview.ts:404-410 | the loop drops exactly the expired entries and keeps the order |
| PreviewCaches.PreviewCache.Set | packages/api/src/preview.ts:412-425 | prunes, puts the entry last and keeps the newest `maxEntries` |
| PreviewCaches.PreviewCache.Get | packages/api/src/preview.ts:428-442 | answers a fresh entry and moves it last, or drops an expired one |
| PreviewCaches.FreshEntryIsServed | packages/api/src/preview.ts:391-447 | with a clock that does not run back, `get` answers what was stored last as long as its TTL has not passed and fewer than `maxEntries` other ids were used since its last use |
| PreviewCaches.ServedIsLastStored | packages/api/src/preview.ts:428-442 | and never anything else |
| PreviewCaches.RunIsOrderedByUse | packages/api/src/preview.ts:416-424 | the map is a recency list: what `set` drops was used least recently |
| PreviewCaches.RunIsBounded | packages/api/src/preview.ts:418-424 | never more than `maxEntries` pages are held |
| PreviewExpiry.PruneDropsExpired | packages/api/src/preview.ts:404-424 | over every history: behind a prune or a store no entry is held whose TTL has passed, but for the one just stored |
| PreviewExpiry.PruneKeepsTimely | packages/api/src/preview.ts:404-410 | and a prune drops no other |
| PreviewExpiry.GetDropsExpired | packages/api/src/preview.ts:428-442 | reading an entry whose TTL has passed answers nothing and lets go of it; reading drops nothing else |

## Left out

- Playwright, undici, sockets, DNS, PostgreSQL and pg-boss: steps of the environment or abstract results.
- The waits of `close()` and `settleByDeadline`: they change no field. That a deadline fires in time is not modelled, only that it may.
- p-queue itself: a list with one running slot. `hostnameKey` and unparseable URLs, which run without a queue.
- The product title, image and currency that `persist` backfills, the availability column, error texts, and the validity check of an edit.
- A listing is one row. Checks read one product's active flag together with the listing's.
- `buildListingPatch`, a loop over the keys of the input object, is an update record whose absent fields are absent keys.
- JSON-LD match flags, sku hints and the offers themselves are inputs: how they are built from raw nodes depends on document order when ids repeat.
- JSON numbers, duplicate keys and lone surrogates: an object has distinct keys, and an index beyond 2^53 is exact here.
- `scanInlineAssignments` and its regular expressions, which choose where the literal scanner starts.
- The ranking and validation of drafts (names, tiers, scores, currencies), sightings, and the price test inside the walk, which is a predicate.
- Separators from a locale (`Intl`), numbers given as numbers, and currency detection in `parsePrice`.
- The orchestration of previews around their cache, and the rendering, retries, headers and body cap around a fetch.
- Which addresses are routable: the prefix tables, `ipv6PrefixMatches` and NAT64.
- LiteralIsExactlyTheText: lengths and positions count characters, where the program counts UTF-16 units: a text with characters outside the basic plane reaches the limit earlier there, and its positions are larger. LongLiteralIsRefused and ReadJsonLiteral count the same way.
- A cached preview's html and url are one page, which the cache only hands on.
- What follows a handshake: `net.isIP`, the refusal replies, connecting upstream and piping. A name of the request stays bytes, where the program decodes UTF-8.
- Checks of one listing that overlap: the `inFlight` guard (apps/worker/src/check-listing.ts:190-201) keeps a worker from it, so the broken-watch flag a check has loaded is the current one. Runs are stored in the order of their start.
- AlertsAreDeduped: only where each gate was read on a memory at least as strict as the last alert; without that it is false, as OverlappingChecksRepeatAnAlert and LostWriteRepeatsAnAlert show.
- ChainIsBounded: only for stored alerts, as a lost write repeats one.
- OneAlarmPerStreak: only after a stored alarm is a check in between sure to be ok, for the reason NextAlarmNeedsOkIff gives.
- NotModifiedIsBacked: only for edits that are harmless to the row they are written to, in the exact sense of EditKeepsBackingIff; without that it is false, as OverlappingEditsUnbackValidators shows.
- CommitClaimsExactlyTheLoadedRow: only while no update lands on a millisecond a check in flight has loaded, for the reason UpdateDetectedIff gives; MissedEditRecordsTheWrongPrice shows the harm.
- DocumentOrderIff: the order of an object's fields is the one `Object.entries` gives, which puts keys that look like integers first.
