# A model of the personal-memory kernel

This project models the mechanisms of the kernel whose guarantees quantify over
all runs or all inputs, and proves those guarantees. SQL tables are finite maps
or sequences, each owner transaction is one atomic step, SHA-256 is taken as
one-to-one (a hash is represented by the bytes it was taken of), and minted ids
are fresh. `dafny verify dfyconfig.toml` checks everything.

| module | mechanism |
|---|---|
| `Processing`, `Canonicalization` | staged evidence processing under crashes, reclaimed leases and competing workers |
| `InitiativeRuntime`, `InitiativeSituation`, `InitiativeTime` | the initiative scheduler: fenced dispatch, notices that never repeat, threshold wake-ups, one run per local day |
| `Clock`, `Calendar`, `FixedWidth` | canonical instants: Gregorian arithmetic and the order of stamps |
| `CanonicalJson` | the canonical printer (sections 4, 5 and 7 of RFC 8259) and the keys built from it |
| `EvidenceLedger` | five indexes over one append-only list, with a re-entrant hook |
| `Ingest` | transactional idempotent ingest and repeatable imports |
| `Assessments` | recorded-time history and the propagation of `UNSUPPORTED` |
| `Lineage` | governed merge and split, planning and retries |
| `IdentityWalk` | the breadth-first walk that answers what an old id names today |
| `Claims` | work-item leases and the boot sweep |
| `Redaction` | the secret rewriter |
| `AuditPaging` | keyset paging over a growing log |
| `WorkerPool` | the load harness and its nearest-rank P95 |
| `Text`, `Utf8`, `Options` | UTF-16 text with its order, its UTF-8 bytes (section 3 of RFC 3629), and optional values |

Code that changes things step by step is a class whose methods are proved
against specification functions; runs, interleavings and retries are proved
about those functions.

Where the code is narrower than its comments, the code is modelled and the gap
is stated exactly:

- `Math.trunc` moves negative fractions forward, so a stamp is never later than
  its source exactly for sources that are not negative fractions
  (`Clock.TruncationNeverInFuture`, `Clock.TruncationGoesForwardBelowZero`).
- Reassessment quantifies per dependency row: a second, live derivation does not
  protect a proposition (`Assessments.PerRowRuleAgreesExactly`,
  `Assessments.SecondDerivationDoesNotProtect`).
- Request schemas take uuids in either case and the database returns lower case,
  but three mechanisms compare the two as texts. A merge that names its oldest object
  in upper case merges it into itself and can never commit
  (`Lineage.PlannedMergeApplies`, `Lineage.UnrecognisedIsRefusedForEver`,
  `Lineage.OtherSpellingMergesIntoItself`); a submission or import with its
  connector in upper case cannot be repeated (`Ingest.AcceptedKeysNameOneItem`,
  `Ingest.ReimportChangesNothing`, `Ingest.ImportsConflictExactly`,
  `Ingest.UpperCaseConnectorCannotBeRepeated`); and a release configured in upper
  case is refused for an item already dispatched (`Processing.DispatchedOnce`,
  `Processing.UpperCaseReleaseIsRefusedAgain`).
- `resolveIdentity` skips successors it has seen and stops after 32 rounds, so it
  can answer a retired object, or nothing. It answers exactly the active objects,
  however ids sort, if and only if lineage from the id is outward and its ends are
  near (`IdentityWalk.AnswersAreRightExactly`,
  `IdentityWalk.RejoinedAnswersDependOnOrder`,
  `IdentityWalk.LongChainsResolveToNothing`).
- Top-level text is hashed raw and unpaired surrogates are replaced, so hash
  equality is about values only among structured payloads
  (`CanonicalJson.ContentIsCanonicalUpToRawText`,
  `CanonicalJson.RawTextSpellsPayload`,
  `CanonicalJson.LoneSurrogateHashesAsReplacement`).
- No wake-up announces a deadline entering the 48-hour window
  (`InitiativeSituation.EnteringTheWindowIsUnannounced`).

## Model

| member | source | states |
|---|---|---|
| Processing.CrashRefinement | packages/api/src/processing-runtime.ts:60-161 | Over every interleaving of competing workers, stops and foreign transactions, an item whose status is terminal has exactly the durable result of an attempt that nothing stopped, given the extraction and canonicalization that were stored and started where the item's own transaction stands: the same row, extraction, canonicalization and replay, the same transactions, then only foreign ones |
| Processing.CrashFreeResultIs | packages/api/src/processing-runtime.ts:60-152 | What an unstopped attempt on a fresh item leaves, in full: the finished row, the extraction, one canonicalization, one replay, and one committed transaction with its operations exactly when something was asserted |
| Processing.StatusNeverMovesBack | packages/api/src/processing-runtime.ts:60-152 | Between any two points of any run the stored extraction, the applied canonicalizations and a terminal row are never revised and the status rank never falls |
| Processing.NextKeeps | packages/api/src/processing-runtime.ts:60-161 | Any single step of any worker, including a crash at any point and a failing checkpoint, keeps mutual exclusion, the soundness of the stored stage, and the truth of what the lock holder remembers |
| Processing.ActKeeps | packages/api/src/processing-runtime.ts:76-152 | Each stage of `handle` takes a sound stored stage to a sound stored stage, whatever the ports answer |
| Processing.AnyAttemptCanFinish | packages/api/src/processing-runtime.ts:60-152 | From any reachable state with the lock free, one attempt that nothing stops ends with the crash-free result, so no crash leaves an item stuck |
| Processing.ReviewExactlyWhenUnresolved | packages/api/src/processing-runtime.ts:148-149 | Over every run a finished item asks for review exactly when its one extraction left unknowns or its one canonicalization left something unresolved, and its count is the sum of the two |
| Processing.Processor.Handle | packages/api/src/processing-runtime.ts:49-161 | The imperative handler keeps the stored stage sound under every choice of failing points, finishes the item whenever it returns normally, returns normally when nothing fails, leaves a terminal item untouched, and applies exactly the canonicalization of the claims |
| Processing.Processor.HandleExtracted | packages/api/src/processing-runtime.ts:104-152 | The stages after extraction: finished on success, sound and forward otherwise, with the canonicalization of exactly these claims applied |
| Processing.Processor.CanonicalizeExtracted | packages/api/src/processing-runtime.ts:106-113 | Applies one canonicalization together with the status that records it |
| Processing.Processor.Govern | packages/api/src/processing-runtime.ts:117-142 | Leaves CANONICALIZED or reaches GOVERNED with the row naming the committed transaction, changing nothing else |
| Processing.Processor.CommitProposal | packages/api/src/processing-runtime.ts:120-138 | Propose, validate, commit: changes only the transaction store, and on success the key names one committed transaction |
| Processing.ProcessingKeyInjective | packages/api/src/processing-store.ts:8-9 | Two items or two releases share a processing key exactly when both agree, for item ids without a colon and up to unpaired surrogates |
| Processing.DispatchedOnce | packages/api/src/processing-store.ts:28-50 | Over any dispatches of any of the owner's items from an empty queue: an item once answered a job keeps it and its release; asked again under any spelling of the item it answers that job exactly when the release is written as stored, in lower case, and is refused otherwise; asking changes nothing, and no other item shares the job |
| Processing.UpperCaseReleaseIsRefusedAgain | packages/api/src/processing-store.ts:33-36 | A release written in upper case is answered a job once and refused when asked again |
| Processing.RequestsKeep | packages/api/src/processing-store.ts:28-50 | Any dispatches keep every intent pinned to the job under its key, keys on the queue distinct, and a dispatched intent as it is |
| Canonicalization.Canonicalize | packages/api/src/processing-canonicalization.ts:39-92 | The loop returns the assertions of the claims in order, and counts as unresolved exactly the claims that leave something open plus one for text too long to be read whole |
| Canonicalization.EveryClaimIsAccounted | packages/api/src/processing-canonicalization.ts:41-90 | Every claim yields assertions or is open, and is both exactly when only its due time could not be placed |
| Canonicalization.AssertionsStandInPlace | packages/api/src/processing-canonicalization.ts:39-90 | Each claim's assertions stand at its place among those of the claims before and after it |
| Canonicalization.FullyResolvedExactly | packages/api/src/processing-canonicalization.ts:39-92 | Nothing is unresolved exactly when the text was read whole and every claim was supported, attributed, unambiguous and had every due time placed |
| Canonicalization.DocumentsAssertNothing | packages/api/src/processing-canonicalization.ts:44-50 | A document asserts nothing and leaves every claim open |
| InitiativeRuntime.NoticesNeverRepeat | packages/api/src/initiative-runtime.ts:51-118 | Over every interleaving of dispatches, handler runs, edits and snoozes: at most one ASK per watch, state digest and threshold, nothing after an ASK, at most one notice per such triple and day, and every draft grounded |
| InitiativeRuntime.ThreeAsksPerState | packages/api/src/initiative-runtime.ts:64-69 | At most three ASK notices are ever stored for one watch and an unchanged state digest |
| InitiativeRuntime.StepKeepsInv | packages/api/src/initiative-runtime.ts:51-118 | Every event keeps notices distinct, drafts grounded, the handler's wake-up bound and the absence of a competing notice between check and insert, and only appends receipts |
| InitiativeRuntime.NoticesAreFenced | packages/api/src/initiative-runtime.ts:95-100 | Over every run each stored notice was stored by one event at which settings were enabled at the revision its run was started for and its watch was enabled and not snoozed at the evaluated instant; so nothing is stored while disabled or for an edited revision |
| InitiativeRuntime.WakeUpsAreSound | packages/api/src/initiative-runtime.ts:51-118 | Over every run from the start: when a handler run that nothing stops finishes with the revision it began at still enabled, the next evaluation is due no later than the next threshold of each of the first 200 watches current when it began, and no later than before, whatever was dispatched, edited or snoozed meanwhile |
| InitiativeRuntime.DraftedExactlyWithDraft | packages/api/src/initiative-runtime.ts:80-108 | Over every run whose verdicts come from `evaluateActionBasis`, a stored notice says DRAFTED exactly when a draft was stored with it |
| InitiativeRuntime.BasisVerdict | packages/control/src/actions.ts:95-140 | An allowing verdict always names a packet and a policy decision; only a denial can come without them |
| InitiativeRuntime.DispatchSettles | packages/api/src/initiative-runtime.ts:36-50 | After a dispatch that acted, any dispatches on the same input before the next run, whatever revision each had read, change nothing |
| InitiativeRuntime.StaleJobsDoNothing | packages/api/src/initiative-runtime.ts:56 | At any time after an edit a job for a revision before it starts no run, and a run it had started stores no notice and moves no due time |
| InitiativeRuntime.EarliestIsEarliest | packages/api/src/initiative-runtime.ts:60-63 | The accumulated wake-up is the least of the candidates' next thresholds and one of them |
| InitiativeRuntime.InitiativeStore.Handle | packages/api/src/initiative-runtime.ts:51-118 | An undisturbed run considers the first 200 current watches in order, stores exactly the notices the checks admit, keeps notices distinct and drafts grounded, and lowers the due time to the earliest next threshold; a disabled or stale run changes nothing |
| InitiativeRuntime.InitiativeStore.Consider | packages/api/src/initiative-runtime.ts:61-92 | One watch: stores at most its one notice and folds its next threshold into the wake-up |
| InitiativeRuntime.InitiativeStore.StoreNotice | packages/api/src/initiative-runtime.ts:82-113 | Prepared under the settings read, stored under the settings in force, with a draft only where both allow it |
| InitiativeSituation.StateIsTimeless | packages/api/src/initiative-situation.ts:8-37 | With packet and watch fixed, a candidate stays one and only its threshold and wake-up move with time: digest, sources, settledness and deadline do not |
| InitiativeSituation.WakeUpIsExact | packages/api/src/initiative-situation.ts:25-36 | The threshold is constant on [now, nextThreshold), differs from then on, and without a next threshold never changes |
| InitiativeSituation.EnteringTheWindowIsUnannounced | packages/api/src/initiative-situation.ts:25-26 | A watch that is no candidate now becomes one later exactly when it has a deadline more than 48 hours away; no wake-up announces it |
| InitiativeSituation.ThresholdWindows | packages/api/src/initiative-situation.ts:25-31 | Each threshold is one window around the deadline, open from 48 hours before it, with at most 200 sources, the watch's own among them |
| InitiativeSituation.SettledSupport | packages/api/src/initiative-situation.ts:32-33 | A settled candidate rests only on accepted, undisputed selections of frames without conflicts in a complete packet |
| InitiativeRuntime.JobsAreFenced | packages/api/src/initiative-runtime.ts:36-50 | Over every run each queued job was enqueued by one dispatch, alone, for the revision then enabled and read by it, because a run was due or the input had changed |
| InitiativeTime.NextInitiativeRun | packages/api/src/initiative-time.ts:5-24 | For any zone whatsoever: the run of the earliest of three local dates whose run is still to come, or the error exactly when none of them has one |
| InitiativeTime.RunIsUnique | packages/api/src/initiative-time.ts:13-19 | A local date has at most one run: its first scanned minute on the date at or after the configured time |
| InitiativeTime.AnswersAgree | packages/api/src/initiative-time.ts:5-24 | The specification of the next run has one answer |
| InitiativeTime.NextRunIsOnALaterDate | packages/api/src/initiative-time.ts:19-21 | The run scheduled from a run is later and on a strictly later local date, across repeated hours and skipped minutes |
| InitiativeTime.NoDayRunsTwice | packages/api/src/initiative-time.ts:5-24 | Scheduling over and over gives strictly increasing instants on strictly increasing local dates |
| Clock.StampOrder | src/kernel/clock.ts:33-60 | For all instants in years 0000 to 9999, the order and equality of stamps as texts are the order and equality of time |
| Clock.RecognizerIsExact | src/kernel/clock.ts:68-77 | With any parser that inverts the renderer, a text is a recorded instant exactly when it is the rendering of some instant |
| Clock.ShapeOfRendering | src/kernel/clock.ts:33-58 | A rendering has the recorded shape exactly when its year has four digits |
| Clock.FormatIsExact | src/kernel/clock.ts:44-60 | A source is stamped exactly when its truncation has a four-digit year, with the spelling of that instant, and refused as unrepresentable exactly beyond the widest instant |
| Clock.TruncationNeverInFuture | src/kernel/clock.ts:50-53 | A stamp is never later than its source exactly when the source is not a negative fraction |
| Clock.TruncationGoesForwardBelowZero | src/kernel/clock.ts:50-53 | Half a millisecond before the epoch is stamped as the epoch |
| Calendar.InstantRoundTrip | src/kernel/clock.ts:53 | Calendar fields determine the instant: Gregorian dates of section 21.4.1 of ECMA-262 invert |
| Calendar.FieldsOrder | src/kernel/clock.ts:53 | Earlier instants have lexicographically smaller calendar fields |
| Calendar.InstantOrder | src/kernel/clock.ts:53 | Lexicographically smaller calendar fields name earlier instants |
| Calendar.YearUnique | src/kernel/clock.ts:53 | Every day lies in exactly one Gregorian year |
| Calendar.YearLength | src/kernel/clock.ts:53 | The day numbers of consecutive years differ by 366 exactly in leap years |
| FixedWidth.RenderOrder | src/kernel/clock.ts:33-53 | Fixed-width rendering turns the order of fields into the order of texts |
| FixedWidth.RenderMatches | src/kernel/clock.ts:33-58 | A rendering of fields that fit matches its shape, and its fields read back |
| Clock.LenientParseInverts | src/kernel/clock.ts:72-76 | The assumption on parsers can be met, by one that shifts impossible dates |
| CanonicalJson.PrintIsCanonical | src/kernel/evidence.ts:64-76 | Two well-formed values have equal canonical text exactly when they are equal with objects read as maps |
| CanonicalJson.PrintUnique | src/kernel/evidence.ts:64-76 | Printed text decomposes uniquely: equal texts followed by anything that ends a value come from the same value and the same remainder, at every nesting depth |
| CanonicalJson.SamePrints | src/kernel/evidence.ts:71-75 | Values equal up to key order print equally |
| CanonicalJson.SortSorts | src/kernel/evidence.ts:72-73 | Distinct keys are printed in strictly ascending code unit order |
| CanonicalJson.SortedIsUnique | src/kernel/evidence.ts:72-73 | A set of keys has one ascending enumeration |
| CanonicalJson.QuoteBodyUnique | src/kernel/evidence.ts:65-67 | Quoted strings are uniquely decodable, escapes and surrogates included |
| CanonicalJson.EscapeUnique | src/kernel/evidence.ts:65-67 | No escaped unit is a prefix of another's escape |
| CanonicalJson.IntegerUnique | src/kernel/evidence.ts:65-67 | Decimal integers are uniquely decodable in context |
| CanonicalJson.DedupeKeyInjective | src/kernel/evidence.ts:195-203 | Two records share a dedupe key exactly when their uniqueness tuples are equal |
| CanonicalJson.ScopedKeyInjective | src/kernel/evidence.ts:244-246 | Idempotency keys of different scopes or spellings never collide |
| CanonicalJson.SlotKeyIsOrderIndependent | src/kernel/identities.ts:190-201 | Two slots share a lookup key exactly when they agree in every dimension, qualifiers read as a map |
| CanonicalJson.PrintIsPaired | src/kernel/evidence.ts:64-76 | Printed text has surrogates in pairs only, at every nesting depth |
| CanonicalJson.PrintedBytesAreCanonical | src/kernel/evidence.ts:78-87 | Structured payloads give the same bytes to hash exactly when they are the same value |
| CanonicalJson.ContentIsCanonicalUpToRawText | src/kernel/evidence.ts:78-87 | Across raw bytes, raw text and structured payloads, two contents hash alike exactly when: the same structured value; texts that differ at most in unpaired surrogates; a text that spells a payload out; or bytes that encode the other |
| CanonicalJson.RawTextSpellsPayload | src/kernel/evidence.ts:78-82 | The text [] and the empty array hash equally though they differ |
| CanonicalJson.LoneSurrogateHashesAsReplacement | src/kernel/evidence.ts:80 | A lone surrogate and the replacement character hash equally though they differ |
| Utf8.Utf8IsOneToOne | src/kernel/evidence.ts:80-82 | Two texts have the same UTF-8 bytes exactly when they agree once every unpaired surrogate is replaced |
| Utf8.EncodeUnique | src/kernel/evidence.ts:80-82 | No character's bytes begin another's |
| EvidenceLedger.CallsKeepValid | src/kernel/evidence.ts:205-350 | Any sequence of calls, with hooks calling back to any depth, keeps ids, tuples and bindings unique, every binding and anchor rooted in a stored record of its scope, and only appends |
| EvidenceLedger.KeysAreWriteOnce | src/kernel/evidence.ts:254-261 | A key once answered with a record is answered with it for ever, and the repeat changes nothing |
| EvidenceLedger.TuplesNameOneRecord | src/kernel/evidence.ts:263-276 | A stored tuple names its first record for ever; a repeat stores nothing, runs no hook and at most binds its new key |
| EvidenceLedger.KnownInsideItsHook | src/kernel/evidence.ts:254-303 | At every point of its own hook, whatever the hook has called to any depth, a record answers to its tuple and key, and ingesting it again there answers it, stores nothing and runs no hook |
| EvidenceLedger.AnsweredIsBound | src/kernel/evidence.ts:249-305 | After any ingest the returned record is stored and the key it came with names it, whatever the hook did |
| EvidenceLedger.KeyOrderIsImmaterial | src/kernel/evidence.ts:64-87 | Two ingests of one external item that no bound key answers, with any hooks and any calls between, get one record exactly when their contents hash alike; for structured payloads, exactly when they are the same JSON value |
| EvidenceLedger.ReadsStayInScope | src/kernel/evidence.ts:224-228 | A scoped read finds a record exactly when the scope holds one with that id, and returns no other scope's |
| EvidenceLedger.InScopeMembers | src/kernel/evidence.ts:311-313 | A scope's listing holds exactly the records of that scope |
| EvidenceLedger.ScopesStayApart | src/kernel/evidence.ts:205-313 | Over any calls with hooks to any depth a scope's listing only grows at its end, and does not change while nothing is ingested into that scope |
| EvidenceLedger.ScopesKeepReading | src/kernel/evidence.ts:215-222 | Adding a record to the scope index keeps every listing and lookup equal to a scan of the list |
| EvidenceLedger.TuplesKeepReading | src/kernel/evidence.ts:298 | Adding a dedupe entry keeps every tuple lookup equal to a scan |
| EvidenceLedger.KeysKeepReading | src/kernel/evidence.ts:249-252 | Adding a binding keeps every key lookup equal to a scan |
| EvidenceLedger.AnchorsKeepReading | src/kernel/evidence.ts:300 | A fresh record starts with no anchors and leaves every other anchor list as it was |
| EvidenceLedger.EvidenceLedger.IngestOne | src/kernel/evidence.ts:254-305 | Over the five maps: the abstract list becomes exactly what the specification says, and the record it answers is returned |
| EvidenceLedger.EvidenceLedger.PersistFresh | src/kernel/evidence.ts:278-300 | All five maps take the fresh record before any hook runs |
| EvidenceLedger.EvidenceLedger.RunHook | src/kernel/evidence.ts:230-242 | The hook's calls act on the ledger one after another, re-entrant ingests included |
| EvidenceLedger.EvidenceLedger.RememberIdempotencyKey | src/kernel/evidence.ts:249-252 | Binds an unbound key and nothing else |
| EvidenceLedger.EvidenceLedger.AddSourceAnchor | src/kernel/evidence.ts:315-338 | Refused exactly for unknown evidence, and otherwise appended under the record's own scope |
| EvidenceLedger.EvidenceLedger.Resolve | src/kernel/evidence.ts:224-228 | The two-map lookup equals a scan of the list |
| EvidenceLedger.EvidenceLedger.ListEvidence | src/kernel/evidence.ts:311-313 | The listing equals the scope's records in ingest order |
| EvidenceLedger.EvidenceLedger.ListSourceAnchors | src/kernel/evidence.ts:340-347 | The listing equals the record's anchors in order, and is empty for an invisible record |
| Ingest.RunsKeepEvidence | packages/api/src/evidence.ts:149-183 | Over every sequence of submissions and imports: one item, one private location and one body per identity, every accepted key bound to one item of its owner, and nothing undone |
| Ingest.ReachedStoresAreValid | packages/api/src/evidence.ts:149-183 | Every store made from the empty one by submissions and imports is well formed and extended by whatever follows |
| Ingest.AcceptedKeysNameOneItem | packages/api/src/evidence.ts:155-164 | An accepted key names its item for ever. A later submission under it is answered that item exactly when its tuple is written as the item is stored, is refused otherwise, and changes nothing; so a submission can be repeated exactly when its connector is written in lower case |
| Ingest.UpperCaseConnectorCannotBeRepeated | packages/api/src/evidence.ts:155-156 | A submission with a connector in upper case is accepted, and the same submission again is refused as a conflict |
| Ingest.RefusedExactlyOnKeyReuse | packages/api/src/evidence.ts:155-167 | The only refusal is a key accepted before, for a different identity or for one whose connector is now written otherwise than stored, and it leaves everything as it was |
| Ingest.OneItemExactlyPerTuple | packages/api/src/evidence.ts:159-164 | Two accepted submissions are one item exactly when their tuples agree, in whatever case each writes its connector |
| Ingest.SameContentIsOneItem | packages/api/src/evidence.ts:58-62 | Submissions of equal tuples share an item exactly when their contents are the same JSON value |
| Ingest.ReimportChangesNothing | packages/api/src/evidence.ts:350-376 | Importing the same rows again at any later time changes items, receipts, locations and anchors not at all; it answers the same items, none new, exactly when connectors are written in lower case, and is refused otherwise |
| Ingest.ImportsConflictExactly | packages/api/src/evidence.ts:350-379 | As long as every key was derived from a tuple, an import is refused exactly when some row writes its connector in upper case under a key in use in the store or by an earlier row |
| Ingest.ImportKeyInjective | packages/api/src/evidence.ts:377-379 | Two imports derive the same retry key exactly when their tuples are equal |
| Ingest.WithAnchorsAdds | packages/api/src/evidence.ts:321-329 | Writing anchors adds exactly the named ones and leaves those there as they were |
| Ingest.PresentAnchorsStay | packages/api/src/evidence.ts:321-329 | Writing anchors already there changes nothing |
| Ingest.ConstraintsAgree | packages/api/src/evidence.ts:159-167 | From a well-formed store the two uniqueness constraints stop exactly the known tuples, and a receipt already there names the stored item, so the later refusals cannot occur |
| Ingest.EvidenceStore.Submit | packages/api/src/evidence.ts:149-183 | The insert, select, receipt and compare sequence comes to the simple specification; any refusal rolls everything back |
| Ingest.EvidenceStore.InsertItem | packages/api/src/evidence.ts:159-161 | Inserts exactly when neither constraint is met |
| Ingest.EvidenceStore.WriteAnchors | packages/api/src/evidence.ts:321-329 | The loop adds exactly the specified anchors |
| Ingest.EvidenceStore.ImportSource | packages/api/src/evidence.ts:350-376 | The import loop files every row or, on a refusal, none |
| Assessments.RunsKeepHistory | packages/belief/src/assessments.ts:53-78 | Over every run of verdicts each history tiles recorded time |
| Assessments.OneLiveRow | packages/belief/src/assessments.ts:81-88 | Every assessed proposition has exactly one live row |
| Assessments.WindowsTileTime | packages/belief/src/assessments.ts:91-98 | From the first verdict on exactly one row is in force at every instant, and none before |
| Assessments.PastAnswersAreStable | packages/belief/src/assessments.ts:47-52 | However many verdicts on whatever propositions are recorded after an instant, what was believed at it stays the one row it was, but for when that row was superseded |
| Assessments.RowsAreAppendOnly | packages/belief/src/assessments.ts:62-74 | Over every run of verdicts no row is lost, moved or rewritten: a closed row never changes again and an open one only by having its window closed |
| Assessments.RecordedHistory | packages/belief/src/assessments.ts:62-74 | A verdict closes the last window of its own history, opens the next, and touches no other history |
| Assessments.RecordKeepsTiled | packages/belief/src/assessments.ts:62-74 | With non-decreasing times every history stays without gap or overlap |
| Assessments.CompleteRunsReachTheLeastSet | packages/belief/src/assessments.ts:189-227 | Reassessment run until nothing moves withdraws the least set closed under the per-row rule and leaves every other verdict unchanged |
| Assessments.BatchingDoesNotMatter | packages/belief/src/assessments.ts:191-198 | Complete runs agree whatever candidate batches they used |
| Assessments.RepeatingSettles | packages/belief/src/assessments.ts:189-227 | Repeating the unscoped reassessment settles within as many rounds as there are derived propositions standing |
| Assessments.CyclesStandAlone | packages/belief/src/assessments.ts:199-209 | A support cycle with no dead outside cause never moves, in any run |
| Assessments.PerRowRuleAgreesExactly | packages/belief/src/assessments.ts:179-209 | The per-row rule agrees with the all-inputs reading exactly when a proposition does not have both a dead and a live derivation |
| Assessments.SecondDerivationDoesNotProtect | packages/belief/src/assessments.ts:195-209 | A concrete proposition with one dead and one live derivation is withdrawn |
| Assessments.AssessmentStore.RecordVerdict | packages/belief/src/assessments.ts:53-78 | Closes the live row and inserts the new one, or changes nothing when a table constraint refuses; the live verdict of this proposition alone changes |
| Assessments.AssessmentStore.Reassess | packages/belief/src/assessments.ts:189-227 | Withdraws exactly the propositions the query selects, one new row each, or nothing at all when one write is refused |
| Assessments.AssessmentStore.WithdrawAll | packages/belief/src/assessments.ts:218-225 | The writing loop withdraws each id once |
| Assessments.AssessmentStore.SelectIds | packages/belief/src/assessments.ts:194-216 | Selects each qualifying proposition once |
| Lineage.RunsKeepLineage | packages/api/src/lineage.ts:141-172 | Over every run of proposals, commits and creations the graph stays well formed, no id is reused, reshaped or reactivated, no change set is edited and no key bound twice |
| Lineage.ReachedStoresAreValid | packages/api/src/lineage.ts:141-172 | Every point of every run from active objects and no lineage is well formed |
| Lineage.LineageIsAcyclic | packages/api/src/lineage.ts:141-146 | Lineage has no cycle, and following it ends within as many steps as there are edges |
| Lineage.EndsAreActive | packages/api/src/lineage.ts:141-146 | The objects from which nothing leads on are exactly the active ones |
| Lineage.OldIdsResolve | packages/api/src/lineage.ts:141-146 | Every id ever given out leads to some active object, and every walk that can go no further has reached one |
| Lineage.MergesResolveToOne | packages/api/src/lineage.ts:141-146 | When only merges lie on one walk to an active object it is the only walk, so the old id names exactly one live object |
| Lineage.PlannedMergeApplies | packages/api/src/lineage.ts:259-291 | A merge plan committed against the objects it was made for applies exactly when a hint was given or the oldest named object is spelled as stored. Then exactly the named objects other than the survivor are retired, each leading to the survivor, which is the hinted, the oldest or a new active object; nothing else changes and no other lineage is written. Otherwise the oldest is merged into itself and the commit refuses the self-reference |
| Lineage.PlannedSplitApplies | packages/api/src/lineage.ts:322-339 | A planned split is refused at commit only for a repeated partition name, and otherwise retires exactly the parent into that many fresh active objects of its shape, one edge each |
| Lineage.FreshMergeIsApplied | packages/api/src/lineage.ts:147-172 | A first merge request the governor allows is answered with results and applied as planned exactly when a hint was given or the oldest named object is spelled as stored; otherwise it is refused and no object or lineage changes |
| Lineage.UnrecognisedIsRefusedForEver | packages/api/src/lineage.ts:141-172 | A merge planned with its oldest object spelled otherwise, and no hint, binds its key to a change set that never commits: whatever happens afterwards, no request under that key is answered with results or changes an object or any lineage |
| Lineage.OtherSpellingMergesIntoItself | packages/api/src/lineage.ts:281-286 | Two active frames, the older named in another spelling and no hint: planned, merged into itself by its plan, refused at commit; in the stored spelling the same request is applied |
| Lineage.RetriesReplay | packages/api/src/lineage.ts:141-172 | Once answered with results, a key of the same kind is answered with them for ever and changes nothing, whatever the retry says and whatever happened between; the other kind is refused |
| Lineage.RetriesNeverReplan | packages/api/src/lineage.ts:154-171 | A key once proposed keeps its first plan: after any later steps a retry of the same kind commits the stored operations, and its own wishes are not looked at |
| Lineage.MergeKeepsGraph | packages/api/src/lineage.ts:283-287 | One applied merge keeps every edge older than the edges that follow it and explains the retired id by one successor |
| Lineage.SplitKeepsGraph | packages/api/src/lineage.ts:326-338 | One applied split retires its parent into fresh active children and keeps the graph well formed |
| Lineage.LineageStore.Plan | packages/api/src/lineage.ts:259-291 | The planner's checks in their order, rows found under any spelling and counted by id, then the survivor and one merge per name that is not the survivor's text; splits likewise |
| Lineage.LineageStore.MergeOperations | packages/api/src/lineage.ts:283-288 | The loop pushes, in order, one merge for each name that differs as a text from the survivor's |
| Lineage.LineageStore.Propose | packages/api/src/lineage.ts:158-165 | Records a change set once per key and answers the one the key names |
| Lineage.LineageStore.Commit | packages/api/src/lineage.ts:167 | Applies every operation or none, settles once, and answers a settled change set as it did |
| Lineage.LineageStore.CommitOnce | packages/api/src/lineage.ts:147-172 | Finds, plans only for a new key, proposes and commits: state and answer are those of the specification |
| IdentityWalk.ResolveIdentity | packages/memory/src/lineage.ts:258-292 | The breadth-first walk, row by row and at most 32 rounds, answers what its specification lists, and nothing exactly for an unknown id |
| IdentityWalk.AnswersAreRightExactly | packages/memory/src/lineage.ts:258-292 | For every graph: the walk answers exactly the active objects lineage leads to, however ids sort, if and only if lineage from the id is outward and every active object it leads to is fewer than 32 steps away |
| IdentityWalk.AnswersAreActiveExactly | packages/memory/src/lineage.ts:258-287 | For every graph: the walk answers active objects only, however ids sort, if and only if every retired object in reach leads one step farther out and, while a round remains, is entered from nearer objects only |
| IdentityWalk.ActiveAnswersAreTheNearOnes | packages/memory/src/lineage.ts:262-287 | For every graph and order: an active object is answered exactly when some walk of fewer than 32 edges reaches it |
| IdentityWalk.RetiredIsAnsweredWhenStuck | packages/memory/src/lineage.ts:283-286 | For every graph and order: a retired object is answered exactly when at some visit all its successors had been seen already |
| IdentityWalk.UnmeetingWalksAreAnsweredRight | packages/api/src/lineage.ts:190-208 | Where no two walks from the id meet the answer holds active objects only, and where in addition none is 32 long it is right |
| IdentityWalk.RejoinedAnswersDependOnOrder | packages/memory/src/lineage.ts:283-286 | In a store reached by one split and one merge, the old id is answered with a retired object beside the active one when ids sort as created, and rightly in the other order |
| IdentityWalk.LongChainsResolveToNothing | packages/memory/src/lineage.ts:262 | Of objects merged one into the next by a run of change sets from the empty store, the survivor is answered while there are fewer than 32 merges, and nothing from 32 on though lineage leads to it |
| IdentityWalk.WithinIsWalkable | packages/memory/src/lineage.ts:262-288 | The objects within so many rounds are exactly those some walk of at most that many edges reaches |
| Claims.RunConserves | src/wrapper/claims.ts:231-343 | Over every run from the empty store ids stay unique and every version is twice the item's releases, plus one while held |
| Claims.HeldIffOdd | src/wrapper/claims.ts:303-324 | In any run an item is held exactly when its version is odd |
| Claims.ReleasesOnlyGrow | src/wrapper/claims.ts:332-340 | Release records are only appended |
| Claims.ClaimOutcome | src/wrapper/claims.ts:286-313 | Refused exactly when the holder is live at the check, changing nothing; otherwise taken at the next version, with one audit record when a dead holder was replaced, other items untouched |
| Claims.SweepStep | src/wrapper/claims.ts:384-391 | The stale snapshot's item is still what the store holds, so one round clears exactly that item |
| Claims.LoopIsOneSweep | src/wrapper/claims.ts:384-391 | Releasing item after item from a store that changes under the snapshot comes to one simultaneous sweep of the snapshot |
| Claims.SecondBootChangesNothing | src/wrapper/claims.ts:376-380 | A second boot at the same clock changes nothing and releases nothing |
| Claims.BootReportIsExact | src/wrapper/claims.ts:381-392 | Released and retained are exactly the held items with dead and live holders, with one release record per released id in order |
| Claims.ClaimStore.PutSession | src/wrapper/claims.ts:256-271 | The session is found under its id, every other id reads as before, ids stay unique, and work items and releases are untouched |
| Claims.ClaimStore.Release | src/wrapper/claims.ts:315-343 | Clears a held item at the next version and appends one record; an unheld item is returned unchanged |
| Claims.ClaimStore.Claim | src/wrapper/claims.ts:286-313 | Conflict exactly when the holder is live at the check; the new state is the specification's |
| Claims.ClaimStore.Boot | src/wrapper/claims.ts:380-398 | The imperative loop releases exactly the dead claims and reports released and retained in order |
| Redaction.RedactionIsIdempotent | src/kernel/redaction.ts:80-93 | Redacting twice is redacting once |
| Redaction.NoKeySurvives | src/kernel/redaction.ts:57-61 | No position of the output matches the sk- rule |
| Redaction.RemovedBodiesLeaveNoTrace | src/kernel/redaction.ts:7-13 | Any other bodies, of any content and length their rules take, give the same output: the unmatched text and the kept prefixes alone determine it |
| Redaction.PiecesAndBodiesAreTheText | src/kernel/redaction.ts:27-47 | Unmatched units, kept prefixes and removed bodies together are the whole text |
| Redaction.MatchAtIsComplete | src/kernel/redaction.ts:48-64 | However the pattern's repetitions and optional quote are split, a match at a point is the greedy one the scanner finds |
| Redaction.LeadStopsBeforeLaterDelimiter | src/kernel/redaction.ts:27-47 | No match's fixed part reaches over the delimiter of a later match, so one match cannot hide in another's prefix |
| Redaction.SamePiecesSameOutput | src/kernel/redaction.ts:80-93 | The scan of any text with the same pieces makes the same decisions |
| Redaction.CleanTextIsUntouched | src/kernel/redaction.ts:18-20 | Text in which nothing matches comes back as it was |
| AuditPaging.PagingNeverMissesOrRepeats | packages/api/src/audit.ts:53-90 | Following the handler's cursors to the end, whatever is appended meanwhile under whatever times: newest first, no event twice, no selected event of the first log missed, an event listed exactly when it was there as the walk came past its place, and at most one page more than the events there are |
| AuditPaging.PagingIsCompleteAndStable | packages/api/src/audit.ts:53-90 | Where arrivals are newer, the pages together are exactly the selected events of the first log, each once and newest first, in at most one page more than those |
| AuditPaging.PageIsItsSpan | packages/api/src/audit.ts:68-83 | A page holds exactly the selected events of the log between the cursor it continues from and the one it hands out, in order, and is full when it hands one out |
| AuditPaging.PagesAreSlices | packages/api/src/audit.ts:71-83 | Where arrivals are newer, the k-th page is the k-th slice of the listing as of the first read, with a cursor exactly when more remains |
| AuditPaging.CursorIgnoresNewerEvents | packages/api/src/audit.ts:68-74 | A cursor continues its listing right after its row even after newer events arrive |
| AuditPaging.NewestIsTheLogInOrder | packages/api/src/audit.ts:74 | The listing holds every event once, strictly descending by time and id |
| AuditPaging.AuditLog.List | packages/api/src/audit.ts:53-90 | The page of the log as it was, one row read beyond the limit, and the read itself appended |
| AuditPaging.AuditLog.Conditions | packages/api/src/audit.ts:56-72 | The pushed conditions hold together exactly for the events the query selects before the cursor |
| WorkerPool.NeverTooMany | packages/api/src/performance.ts:21-29 | At every point of every interleaving no more operations have begun than asked for and no more are in flight than the smaller limit |
| WorkerPool.SettledRunsAreComplete | packages/api/src/performance.ts:21-33 | When all workers have settled, none failed exactly when the asked number of operations ran and each left a sample |
| WorkerPool.P95IsNearestRank | packages/api/src/performance.ts:40 | The rank is in range, at least 95% of samples are at or under P95 and fewer than 95% strictly under it |
| WorkerPool.SortSorts | packages/api/src/performance.ts:40 | Sorting keeps the samples and orders them |
| WorkerPool.MeasurementStore.RecordLoadRun | packages/api/src/performance.ts:11-52 | Invalid limits and failing operations record nothing; otherwise one complete measurement per scenario is recorded |
| WorkerPool.MeasurementStore.Measure | packages/api/src/performance.ts:19-33 | The scenarios in turn, ended by the first failure |

## Left out

- Canonicalization.Canonicalize: what the classifier and the entity, instance and time resolvers answer is an input, and the claims, roles and slots they write are not modelled.
- Canonicalization.FullyResolvedExactly: a due phrase counts as placed when the resolver places it; the pattern for self-contained instants is inside that answer.
- Processing.CrashRefinement: extraction, proposing, validating and committing are taken as idempotent per key; `last_error`, timestamps and the payload checks at the head of `handle` are not modelled.
- Processing.DispatchedOnce: the queue's leases, attempts and other kinds of job are not modelled; a reclaimed lease appears as another worker waiting for the lock.
- InitiativeRuntime.NoticesNeverRepeat: the attention decision, the policy verdict, the capability grant and source visibility are answers of ports, so no attention budget is proved; the runtime's own purpose filter and sensitivity ceiling are not modelled.
- InitiativeRuntime.InitiativeStore.Handle: covers a run during which nobody else writes; interference is covered by the event system of `StepKeepsInv`. The owner check at the head of `handle` is not modelled.
- InitiativeTime.NextInitiativeRun: the zone and local-time format checks before the scan are not modelled; dates are day numbers and a local time is a minute of the day.
- Clock.FormatIsExact: the source value is an exact real; the clock object and the kernel-wide clock add nothing to it.
- CanonicalJson.PrintIsCanonical: numbers are safe integers, so fractions, exponents, negative zero and `undefined` are not modelled.
- EvidenceLedger.KeyOrderIsImmaterial: freezing and cloning of returned objects have no counterpart among values.
- EvidenceLedger.EvidenceLedger.RunHook: a hook is the list of calls it makes; that its exceptions and promises are swallowed is not modelled.
- Ingest.RunsKeepEvidence: row visibility rules, erasure, triage and audit rows are not modelled, and a transaction's two locks are its atomicity.
- Ingest.SameContentIsOneItem: the parser of connector payloads is an input of the import.
- Assessments.PastAnswersAreStable: verdicts with equal transaction times are ordered by insertion, not by id.
- Lineage.PlannedSplitApplies: claim and alias assignments, which can also refuse a split at commit, are not modelled, nor are the propositions and slots a merge carries along.
- Lineage.RetriesReplay: projection rebuilds, the recorded memory operation and the response body built around a commit are not modelled.
- Lineage.OldIdsResolve: states what the graph guarantees, which `resolveIdentity` reads back only under the conditions proved in `IdentityWalk`; the other readers in packages/memory/src/lineage.ts are not modelled.
- IdentityWalk.ResolveIdentity: answers about the present; its `knowledgeTime`, which reads past lifecycles, and the lineage records returned beside the answer are not modelled.
- Redaction.NoKeySurvives: the type check on the argument and the `lastIndex` reset have no counterpart; the pattern's backtracking is replaced by a scan shown to be its only outcome.
- WorkerPool.P95IsNearestRank: the rank is exact arithmetic, not floating point.
- React pages, HTTP routing, authentication, row security, object storage, key management and telemetry: plumbing around these mechanisms.
- packages/belief/src/admission.ts, packages/belief/src/delta-conflicts.ts and packages/api/src/metrics.ts: finite tables and filters that would add only easy members.
- The review, control, decision, correction and connector endpoints: orchestration over packages outside this model.
