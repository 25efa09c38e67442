# Verification of the memory runtime

The project models five parts of the runtime and proves what they are for.

- **Residency** (`Listing`, `Pages`, `ClockRing`, `Residents`, `Estimators`, `Admission`, `Tiers`,
  `AdmissionOutcome`, `TierLaws`, `Hierarchy`): the page cache. `ClockRing` is the sweep as the ring the hand walks, with its
  declarative specification; `Tiers` is the whole hierarchy as a value with each operation as a step on it; class
  `Residency.Hierarchy` keeps the runtime's own fields, counters and loops and is proved against those steps. Its
  ghost history (`installed`, `tainted`) states what "no stale body is served" means.
- **The record format** (`Text`, `Quoting`, `Records`, `Printing`, `Parsing`, `RoundTrip`, `ReadingBack`,
  `ParsingLaws`): printer and parser, with quoting defined down to the escape.
- **Coherence** (`Paths`, `Snapshots`, `Eligibility`, `Cascade`, `Transitions`, `Coherence`, `PathHistory`,
  `ScopeHistory`, `EpochHistory`, `Descriptors`, `EventLaws`, `RepairLaws`, `BindingLaws`): the sidecar that decides what may be reused. `Transitions` gives each
  event's effect as a function; class `Coherence.Candidate` walks its maps in arbitrary order, as the runtime does, and
  is proved to reach that function's result.
- **Derivation and indexing** (`WorkingStore`, `Derivation`, `StoreLaws`, `IndexStore`, `Maintenance`, `SemanticRead`): one event
  over three stores as a transaction, the rebuild from the ledger, the index kept in step by a queue and a worker, and
  the optimistic semantic read. Concurrency is a state machine whose moves are single locked sections, transactions
  and channel operations; every theorem is about all sequences of moves.
- **Embedding and faults** (`DocumentCache`, `SingleFlight`, `Resolver`): concurrent batches that share the
  computation of a key, and page faults over the cache.

The modules whose names end in `Laws` say of each step what it is accepted for and what it changes, from the state
before and after alone and without the functions that compute it, so that those functions rest on more than themselves.

Inputs the model takes as arguments: time and identity of events, failures of storage and compilation, observers,
lint's cross-record checks, rendering of failures, token counts, which characters count as printable, which file a hint
names. Every theorem holds for any choice of them.

Where code and comments differ the model follows the code. The removal arithmetic keeps the hand on its page when
another page goes, except from the last position, where it sends it to the front
(`Residents.RemovalMovesHandOnlyFromTheEnd`). The maintenance status is described as degraded
whenever the index is behind; `Maintenance.BehindHidesExactly` says exactly when it is not, and
`Maintenance.FirstEventCanHide` gets there. An accepted admission does not make the page resident
(`AdmissionOutcome.AcceptedPageGoes`). An active binding can be out of scope when an event's envelope names another
place: `ScopeHistory.EventInScopeExactly` and `ScopeHistory.RecordInScopeExactly` say exactly when, and
`ScopeHistory.CommandUsableExactly` what becomes of it.

## Model

| member | source | states |
|---|---|---|
| ClockRing.SweepEvictsShortestPrefix | internal/memory/hierarchy.go:1306-1356 | The sweep's victims are the shortest prefix of the order (visits needed, distance from the hand) after which the rest fits both caps; every shorter prefix does not. |
| ClockRing.SweepSettlesRing | internal/memory/hierarchy.go:1306-1356 | Closed form of the ring after a sweep: who stands where and how often each survivor was aged, from the last victim's position and need alone. |
| ClockRing.SweepFitsAndKeepsPins | internal/memory/hierarchy.go:1306-1356 | After the sweep the ring fits, and the pinned part has kept its count and its bytes. |
| ClockRing.VictimsComeFromRing | internal/memory/hierarchy.go:1321-1347 | Every victim was in the ring and none was pinned. |
| ClockRing.VisitBringsCloser | internal/memory/hierarchy.go:1312-1347 | A visit that evicts nothing brings every unpinned slot exactly one visit closer to its eviction. |
| ClockRing.DueWithinThreeRounds | internal/memory/hierarchy.go:1309-1311 | An unpinned slot is due within three rounds, so the bound of 3n+1 scans is never what ends a round. |
| ClockRing.NoVictimsMeansFits | internal/memory/hierarchy.go:1306-1310 | Nothing is evicted if and only if everything already fits. |
| Residents.SweptToIsUnique | internal/memory/hierarchy.go:1306-1356 | There is one resident tier a sweep can leave: order, hand, states and reference bits are determined. |
| Residents.RemovalMovesHandOnlyFromTheEnd | internal/memory/hierarchy.go:1395-1431 | Removing another page leaves the hand on its page exactly unless the hand stood on the last position, from where it is sent to the front. |
| Residents.RingWeighs | internal/memory/hierarchy.go:1358-1360 | The counters of pages, bytes and pins are what the ring walked by the hand weighs. |
| Residents.AdvanceIsVisit | internal/memory/hierarchy.go:1321-1347 | Ageing the entry under the hand and stepping on is one visit of the ring. |
| Residents.EvictIsVisit | internal/memory/hierarchy.go:1372-1431 | Removing the page under the hand, with the code's index arithmetic, is the visit that evicts it. |
| Tiers.SweptTierFits | internal/memory/hierarchy.go:1306-1356 | A swept tier is within every cap and each pinned page is still pinned. |
| Admission.FloorDecidesFeasibility | internal/memory/hierarchy.go:1260-1304 | The counter arithmetic of the preflight holds if and only if some set of unpinned victims makes room for the page under all four caps. |
| AdmissionOutcome.AdmittedExactlyWhenFeasible | internal/memory/hierarchy.go:1099-1128 | An admission is accepted if and only if the page has an id, is small enough, may take the identity, and some choice of unpinned victims makes room; the two capacity refusals are exactly the infeasible case. |
| AdmissionOutcome.AdmissionEvictsShortestPrefix | internal/memory/hierarchy.go:1122-1231 | After an accepted admission exactly the shortest sufficient prefix of the eviction order, the new page included in that order, is gone; the page stays if and only if it is not in that prefix; all pins stay. |
| AdmissionOutcome.AdmissionIsDetermined | internal/memory/hierarchy.go:1091-1231 | The whole hierarchy after an accepted admission, ghosts and clocks included, is determined. |
| AdmissionOutcome.AdmissionHasOutcome | internal/memory/hierarchy.go:1122-1231 | Every admission that is not refused has an outcome: the sweep reaches an end from the page in place, whatever the tiers. |
| AdmissionOutcome.AcceptedButEvicted | internal/memory/hierarchy.go:1170-1182 | Whatever a certain accepted admission leads to, its page is itself what the sweep evicts. |
| AdmissionOutcome.AcceptedPageGoes | internal/memory/hierarchy.go:1170-1182 | And that admission does lead somewhere: an outcome without the page exists. |
| Admission.PlacedCanBeSwept | internal/memory/hierarchy.go:1260-1304 | What the preflight accepted leaves a pinned floor the sweep can reach. |
| Admission.PlacedTotal | internal/memory/hierarchy.go:1129-1231 | Bytes, pinned bytes and pinned pages of the tier with the page in place, and whether the page is pinned. |
| Tiers.AdmittedValid | internal/memory/hierarchy.go:1091-1231 | An accepted admission keeps every cap and every representation fact of the tiers. |
| Tiers.AdmittedBodiesCurrent | internal/memory/hierarchy.go:1122-1231 | An accepted admission keeps every servable body the one its last admission installed. |
| Tiers.ReconciledOneValid | internal/memory/hierarchy.go:974-1022 | One reconciliation verdict keeps the tiers valid, whether it removes, clears or refreshes the page. |
| Tiers.ReconciledBodiesCurrent | internal/memory/hierarchy.go:986-1021 | A verdict never leaves a servable body on a resident it marked stale. |
| Tiers.WithEntryValid | internal/memory/hierarchy.go:405-467 | Pinning or unpinning a resident within the pinned caps keeps the tiers valid. |
| Estimators.RetiredConserves | internal/memory/hierarchy.go:1520-1639 | Closing shadows, as unused or censored, keeps observations equal to useful plus unused plus censored plus waiting. |
| Estimators.MarkedUsefulConserves | internal/memory/hierarchy.go:1500-1518 | Turning the waiting shadows of a page useful conserves observations. |
| Estimators.MarkedUsefulSettles | internal/memory/hierarchy.go:1500-1518 | After a real use of a page no shadow of exactly that page is still waiting. |
| Estimators.ObservedValid | internal/memory/hierarchy.go:1533-1572 | An observation, filed or refused, keeps conservation, the horizon and the shadow caps. |
| Estimators.GhostAddedValid | internal/memory/hierarchy.go:1454-1498 | A remembered eviction keeps the ghost caps and eviction ages in the past. |
| Estimators.GhostsTrimmedFit | internal/memory/hierarchy.go:1489-1498 | The ghosts kept are the newest suffix, and they fit. |
| Estimators.ShadowsTrimmedFit | internal/memory/hierarchy.go:1603-1615 | The shadows kept are the newest suffix, and they fit. |
| Pages.MetadataIsNoHeavier | internal/memory/hierarchy.go:923-932 | Clearing body, summary and references keeps the identity and never makes a page heavier. |
| Residency.Hierarchy.constructor | internal/memory/hierarchy.go:295-309 | An empty hierarchy satisfies the invariant. |
| Residency.Hierarchy.RemoveResident | internal/memory/hierarchy.go:1395-1421 | The resident leaves map, order, tier maps and counters; the hand moves by the code's rule. |
| Residency.Hierarchy.EvictAtClock | internal/memory/hierarchy.go:1372-1393 | The page under the hand leaves and becomes a ghost; the eviction clock moves. |
| Residency.Hierarchy.ScanAtClock | internal/memory/hierarchy.go:1321-1347 | One scan: evict if due, otherwise age and step on. |
| Residency.Hierarchy.EnforceResidentCapacity | internal/memory/hierarchy.go:1306-1356 | The nested sweep loops end without error in the one state the sweep specification names. |
| Residency.Hierarchy.PreflightCapacity | internal/memory/hierarchy.go:1260-1304 | Refuses exactly when the pins or the floor do not fit, from the counters alone, and changes nothing. |
| Residency.Hierarchy.AdmitLocked | internal/memory/hierarchy.go:1091-1231 | Returns the refusal of the specification; refused, nothing changes; accepted, the state is the one admitted to. |
| Residency.Hierarchy.AdmitDemand | internal/memory/hierarchy.go:341-358 | A demand moves both clocks and settles shadows even if it is then refused. |
| Residency.Hierarchy.AdmitCold | internal/memory/hierarchy.go:362-380 | A cold admission is checked before the clock moves and is never a use. |
| Residency.Hierarchy.PinPage | internal/memory/hierarchy.go:384-402 | A pinning admission, likewise, with the pinned caps. |
| Residency.Hierarchy.PinResident | internal/memory/hierarchy.go:405-437 | Pins a resident of the same identity if the pinned caps allow, and otherwise changes only the clock. |
| Residency.Hierarchy.Unpin | internal/memory/hierarchy.go:440-467 | Makes a pinned resident hot. |
| Residency.Hierarchy.PutLegacy | internal/memory/hierarchy.go:790-813 | The legacy inserts move the clock first and swallow a refusal. |
| Residency.Hierarchy.Use | internal/memory/hierarchy.go:472-486 | A hit if and only if the resident is servable; what is handed out was installed by the last admission of its id and nothing marked it stale since. |
| Residency.Hierarchy.LookupAndUseIfMaterialization | internal/memory/hierarchy.go:491-506 | A hit if and only if the resident is servable and its text is exactly the caller's; a miss moves only the clock. |
| Residency.Hierarchy.LookupAndUseIfCurrent | internal/memory/hierarchy.go:511-526 | A hit if and only if the resident is servable and is exactly the caller's page. |
| Residency.Hierarchy.UseResident | internal/memory/hierarchy.go:539-565 | Counts one use, settles shadows, and makes a cold page hot on its second use. |
| Residency.Hierarchy.Invalidate | internal/memory/hierarchy.go:576-594 | Refuses another identity; otherwise removes every trace of the id. |
| Residency.Hierarchy.Shootdown | internal/memory/hierarchy.go:599-629 | Removes resident, ghost and shadows of an id. |
| Residency.Hierarchy.PurgeAllGhosts | internal/memory/hierarchy.go:634-650 | All ghosts go, nothing else changes. |
| Residency.Hierarchy.CensorAllShadows | internal/memory/hierarchy.go:656-674 | All shadows are closed as censored. |
| Residency.Hierarchy.AdmitAuthoritativeDemand | internal/memory/hierarchy.go:679-712 | Clears other identities of the id first, even if the admission is then refused. |
| Residency.Hierarchy.Revalidate | internal/memory/hierarchy.go:715-746 | Reactivates the exact instance without its body. |
| Residency.Hierarchy.ObserveSemantic | internal/memory/hierarchy.go:754-786 | Files a bodyless observation; nothing becomes resident. |
| Residency.Hierarchy.Reconcile | internal/memory/hierarchy.go:949-1023 | Verdicts are applied in resident order to residents still of that identity, and exactly those judged stale are tainted. |
| Residency.Hierarchy.RecordAccess | internal/memory/hierarchy.go:1033-1050 | An access sets the reference bit and the count, without being a use. |
| Residency.Hierarchy.GetPage | internal/memory/hierarchy.go:816-826 | Found through the tier maps if and only if the page is resident, as the resident holds it. |
| Residency.Hierarchy.PutShadow | internal/memory/hierarchy.go:1533-1572 | Contradicting shadows are censored, then the observation is refreshed, appended and trimmed, or refused. |
| Residency.Hierarchy.AddGhost | internal/memory/hierarchy.go:1454-1474 | The eviction is remembered at its place and the oldest ghosts are trimmed. |
| RoundTrip.ParseUndoesPrint | internal/wsl/parser.go:13-85 | Parsing the printed text of any list of well-formed records gives that list. |
| ReadingBack.ReadsBackExactly | internal/wsl/parser.go:13-85 | A list of records comes back from its printed text if and only if every record in it is well formed, so no part of that condition can be spared. |
| ReadingBack.PrintThenParse | internal/wsl/serializer.go:10-118 | The same of the two programs: the builder's text, read by the line loop, is the list if and only if every record is well formed. |
| ReadingBack.ParsedIsPlain | internal/wsl/parser.go:87-116 | Whatever the text, each record read from it has a single-token id without an equals sign, attributes without blanks, a 64-bit exit status and no stale flag. |
| ReadingBack.RecordsAreReadAlone | internal/wsl/parser.go:13-85 | In the printed text of plain records, each record is read from its own lines alone, whatever stands around it. |
| ReadingBack.MissingStrengthIsSoft | internal/wsl/parser.go:253-266 | A constraint printed without a strength reads back as soft. |
| RoundTrip.FieldReadsBackExactly | internal/wsl/serializer.go:104-118 | A body field is read back from its line if and only if it is quoted or has no white space at an edge. |
| RoundTrip.UncleanEdgesAreLost | internal/wsl/parser.go:118-133 | A bare value with a blank edge is read back trimmed, never as it was. |
| RoundTrip.BuildReadsBack | internal/wsl/parser.go:135-251 | For each kind, building from the printed header and body gives the record. |
| RoundTrip.HeaderReadsBack | internal/wsl/parser.go:87-116 | A header of single tokens reads back as its kind, its id and its attributes. |
| RoundTrip.StrengthAttrs | internal/wsl/parser.go:253-266 | The bare strength token of a constraint is found again, beside the source. |
| RoundTrip.StaleIsLost | internal/wsl/serializer.go:70-78 | Two pages that differ only in the stale flag print the same, so the flag cannot be read back. |
| Quoting.UnquoteOfQuote | internal/wsl/parser.go:124-131 | Double quoting is undone by unquoting, for every string and any choice of printable characters. |
| Quoting.UnquoteOfBackquote | internal/wsl/serializer.go:108-113 | Back quotes keep a value that has no back quote and no carriage return. |
| Text.SplitLinesOfJoin | internal/wsl/parser.go:14 | Splitting lines that were each ended by a newline gives them back, and the rest. |
| Text.FieldsOfTokens | internal/wsl/parser.go:90 | The fields of a line of single-blank separated tokens are the tokens. |
| Text.AtoiOfItoa | internal/wsl/parser.go:166-172 | Every 64-bit exit status survives printing and parsing. |
| Printing.Serialize | internal/wsl/serializer.go:10-19 | The builder ends with the text of all records, a blank line between two. |
| Printing.WriteRecord | internal/wsl/serializer.go:21-95 | Writes exactly the lines of the record. |
| Printing.WriteBody | internal/wsl/serializer.go:104-118 | Writes nothing for an empty value, otherwise its line in one of the three quotings. |
| Parsing.Parse | internal/wsl/parser.go:13-85 | The line loop gives the records or the first error, with its line. |
| Parsing.ParseHeader | internal/wsl/parser.go:87-116 | The token loop gives the header. |
| Eligibility.EligibleIsLeastFixpoint | internal/coherence/state.go:804-858 | The recursion with the path on a stack is true exactly for the bindings of the least fixpoint, reached in as many rounds as there are bindings. |
| Eligibility.EligibleIffAllWalksSound | internal/coherence/state.go:804-858 | A binding is eligible if and only if every walk along references from it meets only locally eligible bindings whose references all resolve, and none twice. |
| Eligibility.StackGrows | internal/coherence/state.go:808-814 | The bindings not on the stack get fewer with every call, so the recursion ends. |
| Cascade.CascadesCombine | internal/coherence/state.go:416-425 | Cascading from some ids and then from others is cascading from all of them, in any order. |
| Cascade.CascadeCloses | internal/coherence/state.go:1091-1112 | After a cascade no live binding depends on a root or on anything it invalidated. |
| Cascade.ReachedIsLeast | internal/coherence/state.go:1091-1112 | What a cascade reaches is the least set closed under evidence and reference edges among live bindings. |
| Coherence.Candidate.MarkMatchingStale | internal/coherence/state.go:1067-1075 | Whatever order the map is walked in, exactly the active bindings hit become stale, one revision up. |
| Coherence.Candidate.MarkMatchingInvalidated | internal/coherence/state.go:1077-1089 | Exactly the live bindings hit are invalidated, and their ids returned. |
| Coherence.Candidate.CascadeInvalidation | internal/coherence/state.go:1091-1112 | The queue, with repeats and in any order, invalidates exactly the bindings reached from the target, each once. |
| Coherence.Candidate.ApplyEvent | internal/coherence/state.go:254-465 | The result of an event is a function of the snapshot and the event: no map order enters it; a refused event changes nothing. |
| Coherence.Candidate.ApplyRevalidation | internal/coherence/state.go:467-547 | Revalidation succeeds exactly under the compare-and-swap, evidence, path and reference conditions. |
| Coherence.Candidate.ApplyFileRenamed | internal/coherence/state.go:346-402 | New epochs go to the affected paths in sorted order, invalidated ones skipped, then only the destination is active. |
| Coherence.Candidate.ApplyPathInvalidated | internal/coherence/state.go:408-434 | The region of a path, the bindings over it and what depends on them are invalidated. |
| Coherence.Candidate.BindUpdates | internal/coherence/state.go:157-189 | Records are bound in order over the candidate, or the first failure is returned. |
| Coherence.State.Prepare | internal/coherence/state.go:138-154 | A candidate holds the transition of the event; the committed state is untouched. |
| Coherence.State.Commit | internal/coherence/state.go:201-214 | Installs the candidate if and only if the revision is still the one it was prepared at. |
| Coherence.State.CommitBoth | internal/coherence/state.go:201-214 | Of two candidates from one state the second is always refused. |
| Paths.SortNames | internal/coherence/state.go:366-370 | Sorting a set of names taken in any order gives its one sorted listing. |
| Paths.PathWithinTransitive | internal/coherence/state.go:1210-1212 | Containment of paths is transitive. |
| PathHistory.PathInvalidationIsTerminal | internal/coherence/state.go:311-445 | On every run an invalidated path keeps its state for ever, and every path known beneath it, then or later, is invalidated too. |
| PathHistory.ActiveMeansCurrent | internal/coherence/state.go:1134-1166 | In every reachable state an active binding was captured at the present epoch of each of its paths. |
| PathHistory.RunKeeps | internal/coherence/state.go:254-465 | The facts about paths and captures hold over runs from any state that has them. |
| PathHistory.CommittedKeeps | internal/coherence/state.go:220-239 | One committed event with everything bound after it keeps those facts. |
| PathHistory.InvalidatedRegionIsClosed | internal/coherence/state.go:408-428 | Invalidating the region of a path leaves no live path beneath a dead one. |
| PathHistory.RenamedKeeps | internal/coherence/state.go:346-402 | A rename neither revives an invalidated path nor leaves an active binding over a moved range. |
| ScopeHistory.RunInScope | internal/coherence/state.go:657-749 | If every event speaks of the place current at its time, every active branch-scoped binding matches the current branch, commit and epochs. |
| ScopeHistory.AppliedInScope | internal/coherence/state.go:254-465 | No event, by itself, leaves an active binding out of the current scope. |
| ScopeHistory.EventInScopeExactly | internal/coherence/state.go:657-678 | An event's binding starts active, and in scope if and only if its envelope is silent or current in what that kind of event is gated by: repository, for commands and files also branch and commit. |
| ScopeHistory.TransitionInScopeExactly | internal/coherence/state.go:139-154 | From a state in scope, a transition leaves every active binding in scope if and only if its event speaks so of the place current once it is applied. |
| ScopeHistory.RecordInScopeExactly | internal/coherence/state.go:680-749 | The binding of each kind of derived record starts in scope if and only if the event's envelope, a page's own branch or an avoidance's grounding speaks of the current place in all the binding is gated by. |
| ScopeHistory.CommandInScopeExactly | internal/coherence/state.go:657-678 | A command's binding is active from the start, and in scope if and only if its envelope speaks of the current place. |
| ScopeHistory.CommandUsableExactly | internal/coherence/state.go:804-874 | In a later state, a command's binding as it was bound is eligible if and only if the place it names is current there and each epoch captured is either unchanged or was captured as zero, before the place was ever entered. |
| ScopeHistory.PageInScopeExactly | internal/coherence/state.go:709-716 | A branch-scoped page record starts in scope if and only if it names no other branch. |
| EpochHistory.RunAdvances | internal/coherence/state.go:1158-1166 | On every run epochs never decrease, stay below the clock, and change only to values newer than all before (or the last one). |
| EpochHistory.NoEpochComesBack | internal/coherence/state.go:1158-1166 | A capture current at two points of a run was current at every point between them. |
| EpochHistory.BumpIsFresh | internal/coherence/state.go:1152-1166 | Before the clock is exhausted a bump exceeds every epoch handed out so far. |
| Descriptors.GenerationIsFaithful | internal/coherence/state.go:966-981 | Until the clock is exhausted, two captures of a binding have the same scalar generation if and only if no epoch that gates it changed. |
| Descriptors.GenerationFaithfulOverRuns | internal/coherence/state.go:966-981 | The same between the start and the end of any run. |
| Descriptors.ActiveExactly | internal/coherence/state.go:762-802 | A page descriptor is active if and only if all its references are usable and it matches its own eligible binding or, with none, refers to something and fits the scope. |
| Descriptors.ServedDescriptorIsCurrent | internal/coherence/state.go:762-802 | An active descriptor with a binding covers only paths at their present epoch, none stale, none under an invalidated path. |
| WorkingStore.WorkingState.ApplyUpdates | internal/wsl/store.go:79-115 | All of a batch goes in or nothing does; the store stays consistent and only evolves. |
| WorkingStore.WorkingState.Clone | internal/wsl/store.go:229-243 | A consistent store is cloned without loss. |
| WorkingStore.WorkingState.ApplyUpdate | internal/wsl/store.go:117-143 | One update: the checks in order, then the upsert and its evidence. |
| WorkingStore.BatchResult | internal/wsl/store.go:79-143 | A batch leaves under each id its last record with that update's evidence, and leaves every other id alone. |
| WorkingStore.DerivedBatchIsGrounded | internal/wsl/store.go:72-115 | Everything a derived batch wrote names its own, noted event as evidence. |
| WorkingStore.ApplyEachKeeps | internal/wsl/store.go:79-171 | Batches keep the order a duplicate-free listing and provenance inside the store; records keep their kind, failures their command and error, constraints their text. |
| WorkingStore.ApplyOneEvolves | internal/wsl/lint.go:78-112 | What lint accepts over an existing record keeps its kind and its immutable fields. |
| Derivation.Scheduler.AfterEvent | internal/scheduler/scheduler.go:71-104 | The three stores move together to the derived memory, or none of them moves. |
| Derivation.Scheduler.WithCandidate | internal/scheduler/scheduler.go:84-98 | While coherence is held, a refusal moves neither store, though it may use up ids. |
| Derivation.ReplayReachesTheLiveState | internal/harness/session.go:895-921 | After any mix of accepted and refused events the memory is what the accepted ones alone give, and the rebuild from those gives it again. |
| Derivation.EveryPrefixReplays | internal/harness/session.go:883-930 | At every event the rebuild stands where the session stood. |
| Derivation.Replay | internal/harness/session.go:892-921 | The rebuild with its own stores and counters: prepare, observe, bind, apply, commit. |
| Derivation.LiveKeeps | internal/scheduler/scheduler.go:71-104 | Every session keeps the coherence facts and the store consistent, only evolves it, and counts accepted events in the revision. |
| Derivation.EverySessionIsSound | internal/scheduler/scheduler.go:71-104 | The same from an empty session. |
| Derivation.DeriveIsCommitted | internal/coherence/state.go:220-239 | A derivation is a committed coherence transition with the records it bound. |
| Derivation.OnEvent | internal/observers/dispatcher.go:73-83 | Updates of all observers in order, each after the counters the one before left. |
| Derivation.AllocatorCheckpoint.Restore | internal/observers/dispatcher.go:62-70 | Counters go back to the checkpoint once, and not after a commit. |
| Derivation.IdsDiffer | internal/observers/observer.go:47-90 | Different counts name different ids of a prefix. |
| IndexStore.FoldedIsLatest | internal/indexer/apply.go:127-205 | Under each page id the index holds the page of the last event, up to the watermark, that has one. |
| IndexStore.ReapplyingIsNothing | internal/indexer/apply.go:127-145 | Applying an event the index already covers changes nothing. |
| IndexStore.Index.ApplyWithWatermark | internal/indexer/apply.go:21-78 | A transaction applies every page and the watermark or nothing; the watermark neither skips nor moves back. |
| IndexStore.IndexedLedger.RepairIndexFromLedger | internal/harness/session.go:883-930 | A repair keeps the index a fold of the ledger and, if it succeeds, reaches its end. |
| IndexStore.IndexedLedger.IndexAfterEvent | internal/harness/session.go:509-532 | After a synchronous append the index has caught up or an error is on record. |
| Maintenance.NothingIsStranded | internal/harness/session.go:964-1124 | In every interleaving of appends and worker, with any failures, the index is the fold up to its watermark; and with the worker asleep, no wake pending, no append under way and the index open, every event appended since opening is in it. |
| Maintenance.MoveKeeps | internal/harness/session.go:964-1124 | Each locked section of either side keeps the invariant behind that. |
| Maintenance.BehindHidesExactly | internal/harness/session.go:1175-1201 | In every reachable state whose index is behind, the status reads caught up if and only if nothing is queued, no repair is asked for, no error is on record, and either the worker stands between the two sections that end a failed pass or only an event not yet posted is missing and no rebuild is in flight. |
| Maintenance.BehindShows | internal/harness/session.go:1056-1092 | An index behind its posted events always shows a queue, a pending or a running repair, except between the two sections that end a failed pass. |
| Maintenance.ErrorShows | internal/harness/session.go:1134-1164 | An error on record keeps the status degraded through every move until the worker finds nothing left to do, so a retry hides nothing. |
| Maintenance.BehindCanHide | internal/harness/session.go:1067-1071 | From any sleeping worker with an event to post, an index behind and no error on record, an overflow and a repair that fails lead to an index still behind whose status reads caught up. |
| Maintenance.FirstEventCanHide | internal/harness/session.go:1067-1071 | The concrete run: a session opened empty, its first event, watermark zero, and a status that reads caught up. |
| Maintenance.MaintenanceState.FinishReconciling | internal/harness/session.go:1081-1090 | Exactly the units beyond the watermark stay queued, in order. |
| SemanticRead.CommitIsAtomic | internal/harness/session.go:1373-1603 | When a search commits, its pages list the index of the whole ledger and those it kept are the eligible ones, as one atomic look at that moment would give. |
| SemanticRead.CommitKeepsServedPages | internal/harness/session.go:1556-1570 | With coherence's own gate: a search that commits has kept exactly the pages of the whole ledger's index whose descriptors coherence serves at that moment. |
| SemanticRead.KeptExactly | internal/harness/session.go:1556-1570 | What is kept is exactly the eligible part of the listing. |
| SemanticRead.MoveKeeps | internal/harness/session.go:1498-1660 | Every step of search, append and index keeps the invariant behind that. |
| SingleFlight.ConcurrentBatches | internal/embedder/supervised.go:187-358 | However batches interleave: some call can always go on, a call that waits or has returned leads nothing unfinished, followers got exactly what their flight ended with, a claimed probe has the call that claimed it in the backend or about to record its success. |
| SingleFlight.NoDeadlock | internal/embedder/supervised.go:335-345 | As long as a call has not returned, some call can move. |
| SingleFlight.EndedOnce | internal/embedder/cache.go:99-116 | A flight is ended once, by its leader, with the leader's answer for that key, and stays so. |
| SingleFlight.MovesEnd | internal/embedder/supervised.go:254-357 | Every effective step brings the whole system nearer its end. |
| SingleFlight.AllReturned | internal/embedder/supervised.go:238-345 | When all calls have returned, every flight has ended and none is registered. |
| SingleFlight.WaitersLeadNothing | internal/embedder/supervised.go:335-345 | A call that waits for another owns no unfinished flight. |
| SingleFlight.BreakerKeeps | internal/embedder/supervised.go:525-574 | While the half-open probe is claimed, the call that claimed it has not come back with its outcome recorded; the circuit is closed below the threshold. |
| DocumentCaching.DocumentCache.GetOrBegin | internal/embedder/cache.go:77-97 | A stored vector, another call's flight, or a new flight to lead. |
| DocumentCaching.DocumentCache.FinishFlight | internal/embedder/cache.go:99-116 | Only the first finish counts: it clears the flight, stores a good vector and fixes the outcome. |
| DocumentCaching.DocumentCache.Evict | internal/embedder/cache.go:161-183 | Keeps as many entries as fit, none older, by time and then key, than one that went. |
| DocumentCaching.NewestIsUnique | internal/embedder/cache.go:161-183 | There is only one set of entries that can be kept. |
| Resolver.FaultResolver.ResolvePage | internal/faults/resolver.go:107-150 | An ineligible or inactive address is a miss that leaves the hierarchy alone.  An eligible record is served as its printed text, which parses back to it if it is well formed and fits, or, for a failure, as its detail or else its error, with or without a page cache; another id only as an eligible resident whose body no stale interval has touched. |
| Resolver.MatchingServesTheSame | internal/memory/hierarchy.go:1742-1758 | A resident that matches the current page serves the same text. |
| TierLaws.NewPageLaw | internal/memory/hierarchy.go:1130-1168 | A page that arrives needs three visits to be evicted exactly if a demand meets its own ghost or a legacy insert heats it, two for any other demand, one if it was only warmed, none if pinned; it enters last, with one real use exactly if demanded. |
| TierLaws.ResidentAgainLaw | internal/memory/hierarchy.go:1184-1231 | A resident admitted again keeps its place and takes the new page; a cold one goes hot exactly at its second real use, pins stay, legacy inserts heat or cool, a warming changes nothing else. |
| TierLaws.AdmissionAsideLaw | internal/memory/hierarchy.go:1133-1147 | No other resident changes; the eviction clock moves exactly on a refault or a second use, and a refault adds exactly the evictions since the page's own. |
| TierLaws.AdmissionGhostLaw | internal/memory/hierarchy.go:1122-1147 | The ghost of an admitted id survives exactly if the id was resident and is not replaced, or is the very page and was not demanded; other ghosts stay. |
| TierLaws.AdmissionShadowLaw | internal/memory/hierarchy.go:1122-1131 | Shadows of the id and another identity are censored when the page arrives, all of the id when it replaces a stale copy, none when it was there. |
| TierLaws.RefusalLaw | internal/memory/hierarchy.go:1099-1121 | The first thing wrong decides the refusal: no id, too large, another identity that may not be replaced. |
| TierLaws.UseLaw | internal/memory/hierarchy.go:539-565 | A use sets the reference bit, counts on entry and page, and makes a cold page hot exactly at its second real use; nothing else in the tiers moves. |
| TierLaws.DemandShadowLaw | internal/memory/hierarchy.go:1500-1518 | A real use closes exactly the shadows past the horizon as unused and turns exactly the waiting ones of that page useful. |
| TierLaws.ShootdownLaw | internal/memory/hierarchy.go:599-629 | Nothing of the id is left in residents, ghosts or shadows, waiting shadows count as censored, and nothing else is gone. |
| TierLaws.AuthorityLaw | internal/memory/hierarchy.go:690-705 | Exactly what carries the id and another identity is cleared from each tier. |
| TierLaws.ReconcileLaw | internal/memory/hierarchy.go:974-1022 | A verdict on a resident of that very identity removes it, or gives it the verdict's scope and staleness, clearing the body exactly when it stops being stale; the ghost goes with a cleared body; any other verdict changes nothing. |
| TierLaws.EntryStepLaw | internal/memory/hierarchy.go:405-467 | Pinned needs no visit ever, unpinned is hot and referenced, an access only counts, a cleared entry keeps its identity and loses text, references and staleness. |
| TierLaws.RememberLaw | internal/memory/hierarchy.go:1454-1498 | An eviction the ghosts can hold is remembered as the newest ghost, bodyless and with the clocks of that moment; only the oldest are forgotten. |
| TierLaws.ObserveLaw | internal/memory/hierarchy.go:1533-1572 | An observation is ignored when shadows are off, refused when too large, filed as the newest waiting shadow when new, and otherwise only takes the new page; contradictions are censored first. |
| TierLaws.ClearingLaw | internal/memory/hierarchy.go:634-674 | Purging and censoring empty one estimator, settle its account and touch nothing else. |
| TierLaws.CurrentLaw | internal/memory/hierarchy.go:1742-1758 | A resident is the caller's page exactly if contents agree and, unless the caller names none, the identity does too. |
| EventLaws.TaskStartLaw | internal/coherence/state.go:258-270 | Starting a task never fails; exactly what was bound to a task, to another repository, or to a place left behind goes stale, one revision up; the place is entered at fresh epochs. |
| EventLaws.BranchChangeLaw | internal/coherence/state.go:271-288 | Taken exactly from the current repository, branch and stated commit; exactly the bindings of the repository left behind go stale; the branch is entered at a fresh epoch. |
| EventLaws.CommitChangeLaw | internal/coherence/state.go:289-310 | Taken exactly from the current commit of the current branch; exactly the active paths seen at another commit and the bindings left behind go stale. |
| EventLaws.SnapshotLaw | internal/coherence/state.go:311-345 | Taken exactly with a wholly current envelope and nothing dead over the path; the path is active with the digest, at a new epoch exactly if it had none or the digest changed, and exactly then what is bound over it goes stale. |
| EventLaws.RenameLaw | internal/coherence/state.go:346-402 | Taken exactly on the current branch with nothing dead over either end; every known path of either range is stale at a new epoch, only the destination is active, with the new digest, and exactly what is bound over either range goes stale. |
| RepairLaws.InvalidationLaw | internal/coherence/state.go:403-458 | Taken exactly if the target is known and not invalid; all it names goes invalid for its reason, one revision up, nothing live depends on anything that was lost, and whatever else was lost hangs by a chain of live bindings from what it names; for a path, exactly the live region beneath it goes too, at new epochs. |
| RepairLaws.RevalidationLaw | internal/coherence/state.go:467-520 | Taken exactly if the evidence is eligible and the target is stale at exactly the expected revision, its digest agrees, and, for a binding, every path is known, active and under nothing dead and every reference eligible. |
| RepairLaws.RaceLaw | internal/coherence/state.go:486-501 | The stale-revision error is given exactly when the evidence is eligible and the target is stale at another revision. |
| RepairLaws.RevalidationEffect | internal/coherence/state.go:492-543 | Afterwards the target is active at the same revision, in the current place and at present epochs, with its provenance; nothing else changed. |
| BindingLaws.EventAddressLaw | internal/coherence/state.go:138-154 | An event that is taken binds exactly its own address: active, evidenced by itself, over the file it snapshots or hints at, with the epochs of now. |
| BindingLaws.RecordAddressLaw | internal/coherence/state.go:680-749 | A record is refused exactly if its references do not parse or its scope is unknown; its binding is evidenced by the event, has the record's references, file and scope, or takes over what an avoidance refers to, mark included. |
| BindingLaws.BatchLaw | internal/coherence/state.go:176-191 | Every address a batch names holds what its last record gets, and no other address changed. |
| BindingLaws.BatchRefusalLaw | internal/coherence/state.go:176-191 | A batch fails only by a record refused on the way, and is taken only if none was. |
| BindingLaws.TaskNameLaw | internal/coherence/state.go:161-175 | A task started without an identity takes the first its records bring, in the scope and on its own event. |
| BindingLaws.VerdictLaw | internal/coherence/state.go:762-802 | What is not served is answered by its own ineligible binding, else by the first reference that cannot be used and its first ineligible kind, else as stale; invalidated exactly if that binding is, and never at revision zero when stale. |
| BindingLaws.EligibleLaw | internal/coherence/state.go:808-858 | An eligible address is active, of the current place, over paths that are live and at the captured epochs, and all it refers to is bound and eligible under every kind; without references that is also enough. |
| BindingLaws.EvidenceLaw | internal/coherence/state.go:1049-1065 | Evidence is decided by the first kind it is bound under: eligible, and not revoked for security or policy. |
| BindingLaws.ServedLaw | internal/coherence/state.go:762-802 | A descriptor is served exactly if all it refers to is usable and it agrees with its own eligible binding in scope, paths, digest, place and newest gating epoch, or, having none, refers to something, is of the current place and paths, and is at their newest epoch. |
| SingleFlight.BackendAskedExactly | internal/embedder/supervised.go:525-574 | After any run the breaker counts exactly the failures since the last recorded success, and a call that leads a flight is let in exactly if these are below the threshold, or the cooldown is over and no probe is out, in which case it is the probe. |
| SingleFlight.BatchesAreServed | internal/embedder/supervised.go:225-358 | In every interleaving a call that returns without an error has a vector for exactly the keys it asked for, each cached from the start or what a flight of that key ended with. |
| SingleFlight.ReturnLaw | internal/embedder/supervised.go:232-356 | A waiting call ends with its flight's own error or vector, a leader with its backend's error, and a cached vector that does not validate is never handed out. |
| SingleFlight.CacheIsTrue | internal/embedder/supervised.go:326-334 | The cache only ever holds what was there or what a flight of that key ended with. |
| SingleFlight.FinishedIsStored | internal/embedder/cache.go:110-133 | A flight that ends with a vector leaves exactly it in the cache unless it is evicted at once; an error leaves the cache alone. |
| Maintenance.SleepsOnlyWhenDone | internal/harness/session.go:998-1032 | A worker asleep with no wake on the way has everything in the index, or the index is closed and the error that parked it is on record. |
| Maintenance.QueueIsBounded | internal/harness/session.go:978-987 | In every run the queue stays within its depth. |
| Maintenance.FailedPassLaw | internal/harness/session.go:1000-1116 | A pass that fails for anything but a gap ends with its error on record, and with a repair asked for unless a closed index refused a queued unit; a gap asks for a repair and records nothing. |
| ParsingLaws.KeyValueLaw | internal/wsl/parser.go:118-133 | A body line has no reading exactly without a colon or with quotes that do not close; otherwise it is the trimmed key and the value, unquoted if quoted. |
| ParsingLaws.BodyLineLaw | internal/wsl/parser.go:67-77 | A body line outside a record is refused at its own number; inside, it sets one key. |
| ParsingLaws.FinishLaw | internal/wsl/parser.go:25-66 | A blank line or a header finishes what was open, whose own line is blamed if it cannot be built. |
| ParsingLaws.HeaderLaw | internal/wsl/parser.go:87-116 | A header is refused exactly if its first word names no kind; its id is its second word exactly if that has no equals sign. |
| ParsingLaws.BuildLaw | internal/wsl/parser.go:135-251 | A record cannot be built exactly if it needs an id and has none or its exit is not a 64-bit decimal; defaults of exit, strength and a fault's fields. |
| ParsingLaws.CommentsDoNotMatter | internal/wsl/parser.go:46-48 | A comment between any two lines changes no record of the text and not whether it can be read. |
| ParsingLaws.BackquoteLaw | internal/wsl/parser.go:122-131 | A value in back quotes is read exactly if the last character is the only other one; returns are dropped. |
| ParsingLaws.EscapeLaw | internal/wsl/parser.go:122-131 | Byte escapes stand for characters below 0x80, the longer ones for every scalar value and nothing else. |
| StoreLaws.UpdateLaw | internal/wsl/store.go:117-143 | An update goes in exactly if it is an upsert of a record with noted evidence that rewrites neither kind nor evidence and lint agrees; it changes one address and its evidence. |
| StoreLaws.BatchGateLaw | internal/wsl/store.go:79-115 | A derived batch is refused whole for an avoidance that refers to nothing there yet, and takes only updates evidenced by its event. |
| StoreLaws.BatchIsInOrder | internal/wsl/store.go:97-115 | A batch is its first part and then the rest over what that leaves, failing where either does. |
| StoreLaws.ObserversInOrder | internal/observers/dispatcher.go:73-95 | Observers run in order, later ones see the ids earlier ones left, and the first failure ends it. |
| StoreLaws.DeriveLaw | internal/scheduler/scheduler.go:71-104 | An event goes in exactly if it is valid and all three stores agree on the observers' records under the event's id; then all three hold exactly that. |
| Resolver.BudgetLaw | internal/faults/resolver.go:265-275 | A text within budget by tokens or words is served whole; otherwise exactly its first words and a mark. |
| Resolver.OnlyActiveIsEligible | internal/coherence/state.go:551-560 | No address is served whose deciding binding, the record's before the page's, is not active. |

## Left out

- Aliasing of the tier maps: in the runtime they hold the residents' own page pointers, here the sets of their keys.
- Page fields that no decision reads (tier label, salience, times), the operation trace, metrics other than the shadow
  counters and the refault distance, the scratch levels L0 and L1, and the snapshot views.
- Wrap-around of 64-bit counters that only count operations (ticks, revisions, eviction ages); epochs and stale
  revisions, where the code saturates, do saturate here.
- Branches the proofs show dead: the sweep's "no eviction" error, a nil entry under the hand, a capacity error after an
  accepted preflight. `Residency.Hierarchy.EnforceResidentCapacity` proves they are not taken.
- Byte counts: page sizes here add up characters, where the runtime adds up bytes; no result depends on which.
- The index error kept beside the maintenance error, which gates semantic search and is cleared by the next success.
- Text that is not valid UTF-8, and byte escapes at or above 0x80 in quoted values.
- The sort of invalidated ids before the cascades: `Coherence.Candidate.CascadeFrom` is proved for any order.
- NUL-joined map keys are tuples, and paths arrive already clean, as event validation guarantees.
- Raw-evidence authorization and address status queries of the coherence state.
- Normalization of file hints and parsing of reference lists are arguments: a derived record arrives with the file it
  names, and with its references or without any when they do not parse.
- The work of the scheduler after its transaction (reconcile, shootdown, pre-admission, pin synchronization) as a
  sequence; the operations it calls are modelled.
- Index rows other than page and watermark, invalidating mutations (the compiler makes none), generations and cutover
  except as arbitrary moves of the index in `SemanticRead`.
- Ranking, token budgets and evidence materialization of semantic search: a search may give up at any step, and what it
  commits is stated for whatever it kept.
- Query embedding and self checks, which share the breaker but own no flight; contents of vectors; the canonical text
  and payload of documents.
- Raw-log, event and file-slice faults.
- HTTP, UI, CLI, artifact files, leases, SQL.
