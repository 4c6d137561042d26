# Verified models of the workflow broker

The broker keeps proposal ideas, delivery initiatives and work items in a project backend and exposes
workflows over them: review packets with digests, a projection checkpoint that records what still has to be
synchronised, paged reads of changing collections, an approve-then-apply reconciliation, a delivery taxonomy with
planning rules, and Markdown evidence that is validated on two routes. Each Dafny module below models one of these
and proves what it is meant to guarantee for all inputs, all runs or all interleavings. The backend is an abstract
store that other callers may change between any two calls. `dafny verify dfyconfig.toml` checks the project.

| module | what it models |
|---|---|
| JsText, Numbers | strings as UTF-16 code units, trimming, decimal numerals; the shortest decimal text of a number |
| CanonicalJson, CanonicalDecoding | the key-sorting JSON printer behind every digest, and its unique decodability |
| JsonReader, CanonicalReading | a reader of the JSON grammar (RFC 8259, sections 2 to 7) that knows nothing of the printer, and what it reads in printed text |
| ReviewPacket | validation and finalization of review packets |
| ProjectionTraversal, ProjectionState, ProjectionProtocol, ProjectionLosses | the two report traversals, the dirty-state file, the interleaved marks, syncs and clears, and exactly when an event can be lost |
| IntakeWalk | the keyset walk over intake targets |
| HistoryWindow | the bounded window of a history section and what its total counts |
| IdeaStore, IdeaReconcile, ReconcileRuns, ReconcileReports, IdeaLifecycle, IdeaListing | ideas and deliveries, reconciliation by approved digest, its whole runs under interference and what its report says of them, the operations on an idea as gates and later writes with both closeout paths, filtered paging |
| Markdown, MarkdownRender, MarkdownEdit | the section parser and the heading search, the renderer with its collapse of blank lines, and the editor that normalizes, splits, changes and renders a description |
| CompletionEvidence, CloseoutDescription | the evidence validators, the chain of edits a closeout makes, and the issues both routes find |
| DeliveryTaxonomy, DeliveryPlanning, PlanningRepair | subject prefixes and classification, planning states, and the sequential repair |
| Base64Url, RegisterCursor, RegisterWalk, RegisterSplit, DeliveryOverview | the anchored register cursor (RFC 4648, section 5), walks over the register whose source changes between requests and within them, and the exact cover of the overview |
| SourceIdentity | normalization of source identities, its termination, and the stored text |

Loops and updates in place are methods and classes here, as in the source: each is proved equal to a specification
function, and the lemmas are about that function. Protocols are step machines whose runs are sequences of steps.

## What turned out not to hold

Each with an input or run, and the exact condition under which the code does keep its promise.

- Blind writes: a patch that meets a lock conflict is sent again with a fresh lock version (src/openproject-client.js:2977-3049), so
  no write looks at the record it changes. Lifecycle: a triage, decision or consumption that passed its gate before a close and writes
  after it changes an implemented idea, and nothing else ever does (`IdeaLifecycle.ImplementedChangesOnlyLate`). A close writes to a record
  that still stands accepted exactly when no other status was the last one written since its own reading, and for a delivery that is still
  done exactly when nobody has undone it since the inspection (`IdeaLifecycle.CloseRestsOn`). `IdeaLifecycle.LateWritesHappen` is a run with
  a parked idea implemented, an implemented one moved and then reopened. Repair: a decommit leaves the backlog posture if and only if no
  field it leaves alone was changed since its check (`PlanningRepair.DecommitLeavesBacklog`), and an accepted state if and only if the item
  as it then stands takes the patch (`PlanningRepair.DecommitAccepted`, `PlanningRepair.LateDecommitRejected`).
- Second closeout path: the gate compares the backlink on one read and the client follows the backlink of another, so the delivery it
  closes for is the closed one exactly when the backlink was not moved away in between (`IdeaLifecycle.SourceClosesOnlyOwnIdea`).
- Reconciliation: an apply writes approved pairs only, if and only if no closed candidate's backlink was moved away between the listing
  and its close's reading (`ReconcileRuns.ApplyWritesApproved`, `IdeaReconcile.MovedBacklinkWritesAnotherPair`).
- Projection: two marks whose events are the same value, stamp included, can lose the second (`ProjectionLosses.SecondIsLost`); no run
  loses an event exactly when no two marked events are the same (`ProjectionLosses.NothingLostIffDifferent`).
- Markdown, parsing: after a lone carriage return, or a line or paragraph separator, the heading search starts a line and the parser does
  not (`Markdown.LoneReturnParts`); they agree exactly when every non-blank heading hidden that way is also the heading of a line
  (`Markdown.ParsedKeysAreFoundHeadings`).
- Markdown, rendering: three line feeds in a row inside a body come back as two, and exactly then the round trip changes a body
  (`MarkdownRender.BlankLinesLost`, `MarkdownRender.RenderThenParse`). The validators do not see the difference.
- Markdown, editing: each edit breaks a heading mark in mid-line onto a line of its own, so a body that was written by one edit is cut at
  its first such mark by the next (`MarkdownEdit.EditKeeps`, `CloseoutDescription.MarkBreaksOff`). The two routes of the completion evidence
  therefore find the same issues exactly when every section draws the same issues from what is left of it as from the whole
  (`CloseoutDescription.RoutesAgreeIff`); they do when no line of a body that is split again is a heading or holds a mark past its start
  (`CloseoutDescription.RoutesAgree`). The test evidence `- PASS: ## ran` is accepted as input and refused as written
  (`CloseoutDescription.MarkParts`).
- Finalization: a finalized packet is finalized again to itself at any time, but it is accepted as valid only when the time
  text holds no placeholder or scratch mark (`ReviewPacket.FinalizeAgain`).
- Completion evidence: an artifact attached without test evidence is written after the word `undefined`, which is then refused as a line of the
  section (`CloseoutDescription.ArtifactAlone`).
- Canonical text: an array holding only `undefined` prints like the empty array, and a non-finite number like `null`
  (`CanonicalDecoding.CollapsesBeyondJson`).
- Taxonomy: without a derived prefix, a subject that repeats a legacy prefix is accepted and changes again on a second resolution
  (`DeliveryTaxonomy.LegacyPrefixResolvesTwice`; exactly when in `DeliveryTaxonomy.TaxonomyFixpoint`).
- Repair: the client validates the former iteration when an update blanks it, so it lets a change through that leaves a rejected state
  exactly when the change blanks an iteration that a committed item needs (`PlanningRepair.WrittenStateAccepted`,
  `PlanningRepair.BlankIterationEscapes`). The repair route refuses a blank iteration; a delivery-change command `revise_work_item`, whose
  schema takes a null iteration (contracts/delivery-change/command.schema.json:72, 124), hands it on (src/delivery-change/service.js:313-319).
- Repair: a target that goes missing in mid-run makes the whole call answer "not found", or fail in the backend, although earlier repairs
  were written (`PlanningRepair.MissingAfterWrite`, `PlanningRepair.MissingTargetStops`).
- Register: the check of the anchor page and the read of the next page are two reads. A request hides exactly the roots between the two
  ends of its page when that end moved up, and repeats exactly those between them when it moved down (`RegisterSplit.BetweenTheEnds`);
  over a whole walk a root present throughout is listed once, plus once for each request that repeats it, less once for each that hides
  it (`RegisterSplit.SplitWalkCounts`, with `RegisterSplit.SplitReadSkips` and `RegisterSplit.SplitReadRepeats`).
- History: `total_records` counts a refinement record twice when the owner's record list repeats an entry beyond the first 200
  of its history (`HistoryWindow.TotalCountsDifferent`).
- Source identity: normalization without a surface never ends (`SourceIdentity.EndsIffSurface`).

## Model

| member | source | states |
|---|---|---|
| Numbers.NumberTextInjective | src/art-workflow-artifacts.js:310 | two finite numbers with the same shortest decimal text are the same number, through all four layouts (integral, pointed, fractional, scientific) |
| CanonicalDecoding.PrefixDecodes | src/art-workflow-artifacts.js:298-311 | printed values followed by any text that begins with a delimiter, or by nothing, are equal as texts only if the values are the same and the trailing texts are equal |
| CanonicalDecoding.TextDecides | src/art-workflow-artifacts.js:298-311 | two values print alike if and only if they are the same, objects being finite maps |
| CanonicalDecoding.PlainTextDecides | src/console-source-authority.js:241-252 | JSON values print alike if and only if they are equal up to the order of object members, at every depth |
| CanonicalDecoding.CollapsesBeyondJson | src/art-workflow-artifacts.js:298-311 | the two families of non-JSON values the printer confuses, by concrete input |
| CanonicalDecoding.DigestIdentifies | src/art-workflow-artifacts.js:313-315 | equal digests mean the same value |
| CanonicalReading.CanonicalTextReads | src/art-workflow-artifacts.js:298-311 | the printed text of any value without undefined is JSON text; read by the grammar it gives the value, non-finite numbers as null, and the keys of every object at every depth in strictly ascending order of their code units |
| CanonicalReading.JsonReadsBack | src/art-workflow-artifacts.js:298-311 | a JSON value is read back from its printed text as it is, but for each object's members standing in ascending key order |
| CanonicalReading.TextLessIsKeyBefore | src/art-workflow-artifacts.js:303-308 | the printer puts one key before another if and only if it is a proper prefix of it or has the smaller code unit at the first place where they differ |
| CanonicalReading.NumberRead | src/art-workflow-artifacts.js:310 | every printed number, in front of whatever does not go on with the numeral, is read back as that number |
| CanonicalReading.ExponentShown | src/art-workflow-artifacts.js:310 | a printed number has an exponent if and only if it is below 1e-6 or from 1e21 on |
| CanonicalReading.EscapedAsShort | src/art-workflow-artifacts.js:310 | a code unit is escaped only where it must be, in two units where that form exists and else in four lower-case digits |
| CanonicalReading.SurrogatesShown | src/art-workflow-artifacts.js:310 | a surrogate pair is printed as it stands, and a surrogate without its partner is escaped |
| ReviewPacket.CollectStringValues | src/art-workflow-artifacts.js:892-909 | the accumulator traversal appends exactly the strings of the value, in order, whatever was accumulated before |
| ReviewPacket.ValidateReviewPacket | src/art-workflow-artifacts.js:911-1031 | the pushed errors and warnings are, in order, those of the packet's header, records, texts and landing unit |
| ReviewPacket.ErrorsTell | src/art-workflow-artifacts.js:911-1031 | each of the thirteen errors is raised if and only if what it says holds of the packet's own properties: header, ids, evidence kind and what that kind requires, validations, and the marks in any string at any depth |
| ReviewPacket.ErrorsInOrder | src/art-workflow-artifacts.js:911-1031 | errors stand in the order of the checks, covered items by index, none twice |
| ReviewPacket.WarningsTell | src/art-workflow-artifacts.js:947-1009 | each warning is given if and only if what it says holds of the packet |
| ReviewPacket.TextErrorsMeanClean | src/art-workflow-artifacts.js:911-1031 | the check on the joined text finds nothing if and only if no single string of the packet, at any depth, holds a scratch path or placeholder |
| ReviewPacket.FinalizedVerifiesItself | src/art-workflow-artifacts.js:1360-1403 | a finalized packet carries the digest of itself with the digest nulled |
| ReviewPacket.FinalizedReads | src/art-workflow-artifacts.js:1360-1403 | every property of a finalized packet: stamp, status, the record of its validation, the digest of itself without one, and all else as given |
| ReviewPacket.FinalizeAgain | src/art-workflow-artifacts.js:1360-1403 | finalizing at the same time again returns the identical packet, and it validates exactly when the time text is free of marks |
| ReviewPacket.DigestIdentifies | src/art-workflow-artifacts.js:1386-1393 | finalized packets with equal digests agree in everything but the digest field |
| ProjectionTraversal.CollectProjectionReports | src/art-cli.js:543-563 | the pushing traversal appends exactly the reports of the tree in visiting order |
| ProjectionTraversal.CollectAffected | src/art-cli.js:608-639 | the second traversal appends exactly the identities its pure tree function yields |
| ProjectionTraversal.EverySiteListed | src/art-cli.js:543-569 | no demanding node of the tree is missed |
| ProjectionTraversal.SitesDistinct | src/art-cli.js:543-569 | and none is visited twice |
| ProjectionTraversal.TraversalsReadSites | src/art-cli.js:543-639 | both traversals read one and the same list of sites: the first the reports there, the second the identities in force there |
| ProjectionTraversal.InForceIsNearest | src/art-cli.js:590-639 | the identity in force at a node is that of its nearest identified enclosing container, or the one passed in when there is none |
| ProjectionTraversal.TraversalsAgree | src/art-cli.js:543-670 | a mark happens if and only if some node demands the external reconciler, and the ids added are exactly the nearest identified containers of such nodes |
| ProjectionTraversal.DemandsMeaning | src/art-cli.js:543-569 | a node demands the reconciler if and only if its own first `roadmap_version_projection` is an object whose status says `external_reconciler_required` |
| ProjectionTraversal.LocalIdMeaning | src/art-cli.js:571-606 | which work item a node names, and when none: its id or record reference as text or number, in order of precedence, the plain id only on what looks like a record |
| ProjectionState.NormalizeIdempotent | src/art-cli.js:474-498 | reading back a normalized state changes nothing |
| ProjectionState.NormalizeReads | src/art-cli.js:474-502 | a file is read with each non-empty id, as dirty if it says so or holds events, and without a blank stamp; a missing file is clean and empty |
| ProjectionState.DigestIdentifiesState | src/art-cli.js:518-522 | equal state digests mean equal states, up to member order inside report objects |
| ProjectionState.MarkedKeeps | src/art-cli.js:672-711 | a mark keeps every recorded event and id and adds its own, each id once |
| ProjectionState.MarkedWorkItems | src/art-cli.js:641-670 | a work item is inferred if and only if the request's path names it, the body's id or ids do, or it is the nearest container of a demanding report; each id once |
| ProjectionState.MarkedDeliveries | src/art-cli.js:641-670 | a delivery is inferred if and only if the request's path or the body names it; each id once |
| ProjectionState.PathIdMeaning | src/art-cli.js:645-653 | a path names an id if and only if the id is the collection's prefix and all digits after it at the first place where the collection is followed by one |
| ProjectionState.SummaryHolds | src/art-cli.js:683-689 | a recorded report holds five properties of the broker's report, the absent ones as null but for the status, and nothing else |
| ProjectionState.ProjectionStore.MarkIfRequired | src/art-cli.js:672-711 | marks if and only if a node demands it, and otherwise leaves the file; the new file holds the old events and one more, recorded for this request with its work items, deliveries and reports, and the old ids and exactly those the event names |
| ProjectionState.ProjectionStore.ClearIfUnchanged | src/art-cli.js:524-541 | clears if and only if the stored state still has the expected digest, and otherwise leaves the file as it was |
| ProjectionProtocol.SyncsFaithful | src/art-cli.js:3265-3409 | in every interleaving a running sync holds the digest of the state read at its own start, and checks quality only after its platform step passed |
| ProjectionProtocol.SyncBegins | src/art-cli.js:3265-3305 | a sync begins if and only if it is no dry run, the file is dirty or the sync forced, and a quality check has a target; it leaves the file as it was |
| ProjectionProtocol.Provenance | src/art-cli.js:672-711 | a stored event was there at the outset or was marked by a step of the run |
| ProjectionProtocol.NoRecordLost | src/art-cli.js:518-541 | in every interleaving, whatever the stamps, a marked event is stored, or an operator cleared after it, or its record was in the checkpoint of a sync that passed |
| ProjectionProtocol.NoEventLost | src/art-cli.js:3265-3409 | while no two marked events, and no marked event and an initial one, are the same value, each mark is stored, cleared by an operator, or was in the checkpoint of a sync that started after it and passed sync and any requested quality |
| ProjectionProtocol.RemovalIsJustified | src/art-cli.js:524-541 | the file disappears only by an operator or by a passing sync that found the very state of its start |
| ProjectionLosses.SameEventsSameDigest | src/art-cli.js:518-541 | a file holding one event has the same digest as one holding the other when the two events are the same value, so the digest check cannot tell a second mark from the first |
| ProjectionLosses.SecondIsLost | src/art-cli.js:672-711 | for any two well-formed events of a list that are the same value, a run that marks the list in order loses the second of them |
| ProjectionLosses.NothingLostIffDifferent | src/art-cli.js:3265-3409 | the runs that mark a given list of events, interleaved with syncs and clears in any way, all keep every mark if and only if no two of the events are the same |
| ProjectionLosses.DistinctStampsSuffice | src/art-cli.js:672-711 | distinct stamps are enough for that |
| IntakeWalk.CursorRoundTrip | src/delivery-history-reader.js:93-118 | every issued cursor is well formed and decodes to the id it was issued for |
| IntakeWalk.CursorMeaning | src/delivery-history-reader.js:63-64 | a text is a cursor for an id if and only if it is `after:` and a numeral of that id without leading zero |
| IntakeWalk.PageRefuses | src/delivery-history-reader.js:61-92 | each refusal comes if and only if it is the first of: page size or cursor wrong, more than 512 targets, an id out of range or twice |
| IntakeWalk.FilterTargets | src/delivery-history-reader.js:84-92 | the loop with the seen set accepts exactly valid distinct ids, and keeps exactly the candidates |
| IntakeWalk.ReadBatches | src/delivery-history-reader.js:99-116 | reading in batches of three files the same sources and issues as reading one by one, in page order |
| IntakeWalk.ReadIntake | src/delivery-history-reader.js:61-121 | the page, its next cursor and each refusal, for every input |
| IntakeWalk.FollowIsRead | src/delivery-history-reader.js:93-118 | a step of the walk is a page read with the printed cursor given out before: it files exactly the targets the step reports, and its next cursor is the one of the next step, or none exactly at the end |
| IntakeWalk.PageSplits | src/delivery-history-reader.js:99-116 | every target of the page is filed exactly once, as a source or as an issue |
| IntakeWalk.RemainingMeaning | src/delivery-history-reader.js:84-95 | what is left beyond a cursor is exactly the candidates with larger ids, increasing |
| IntakeWalk.WalkReports | src/delivery-history-reader.js:84-118 | over any sequence of changing collections: ids reported strictly increase, were on offer, and every id on offer throughout is reported once the walk has passed it or ended |
| IntakeWalk.StableWalk | src/delivery-history-reader.js:84-118 | on an unchanging collection a finished walk reports exactly the candidates |
| HistoryWindow.WindowAccounts | src/delivery-history-reader.js:168-176 | the section shows less than its total exactly when it says it is truncated, and is then full; beyond 200 history entries no further record is shown |
| HistoryWindow.AvailableIfValid | src/delivery-history-reader.js:168-172 | a section is unavailable if and only if one of the first 200 entries of its history is not valid; it never shows more than 200 |
| HistoryWindow.TotalCountsDifferent | src/delivery-history-reader.js:170-171 | the total is the number of different records if and only if no further record repeats a history entry beyond the window |
| IdeaStore.CloseMeaning | src/openproject-client.js:7202-7315 | a close that nobody interferes with changes at most one idea, from accepted to implemented, and exactly when backlink, origin and done delivery agree |
| IdeaStore.CloseTwice | src/openproject-client.js:7202-7315 | a second such close replays the same delivery and changes nothing |
| IdeaStore.RecordRefRoundTrip | src/openproject-client.js:655-676 | a printed record reference parses to its id |
| IdeaStore.RecordRefMeaning | src/openproject-client.js:655-676 | a text names a record if and only if it is the prefix and digits, with blanks around and nothing else |
| IdeaStore.IdeaRefMeaning | src/idea-model.js:123-130 | a text names an idea if and only if its prefix is followed by blanks and a numeral that is not zero, whatever comes after |
| IdeaReconcile.Scan | src/idea-service.js:956-1036 | the scan's items and candidates are those of the listed ideas and the answers the backend gave, in order; each answer is a failure or was read off the store at its own place in the history, one after the other |
| IdeaReconcile.CandidatesWereDone | src/idea-service.js:956-1036 | every candidate's delivery was done and pointed back to its idea when the scan asked |
| IdeaReconcile.Apply | src/idea-service.js:1063-1121 | the statuses written are exactly those of the successful closes, each of which had read its idea accepted and naming a delivery it then found done and pointing back; and each item is rewritten in its own place |
| IdeaReconcile.Reconcile | src/idea-service.js:948-1163 | an apply whose digest differs writes nothing; otherwise the report is tied to scan, candidates and writes |
| IdeaReconcile.EqualDigestsEqualPlans | src/idea-service.js:1038-1061 | equal plan digests mean the same pairs of idea and delivery, each as often |
| IdeaReconcile.EqualPlansEqualDigests | src/idea-service.js:1038-1061 | the digest does not depend on the listing order |
| ReconcileReports.PlanTextReads | src/idea-service.js:1038-1049 | the digest is of JSON text that lists the sorted pairs, each as an object with delivery_ref and idea_id in this order |
| IdeaReconcile.CandidatesAreEligibleItems | src/idea-service.js:956-1036 | candidates point in increasing order at exactly the items shown as eligible |
| ReconcileRuns.ClosedPairIsApproved | src/openproject-client.js:7237-7315 | the pair one close of an apply writes is approved if and only if the idea's backlink was not moved away between its listing and the close's reading; and the record still names the approved delivery at the write if and only if it was not moved up to then |
| ReconcileRuns.ApplyWritesApproved | src/idea-service.js:1038-1121 | every pair a whole apply with the dry run's digest writes was approved if and only if no closed candidate's backlink was moved away between the listing and its close's reading; and each is of a delivery found done for its idea during the apply |
| ReconcileRuns.QuietApply | src/idea-service.js:1038-1121 | an apply without interference since the listing, in which no close fails, writes exactly the approved pairs, each idea once |
| IdeaReconcile.FullApplyClosesAllApproved | src/idea-service.js:1063-1121 | when every close succeeds, each approved idea is closed exactly once |
| ReconcileRuns.ReplayAfterApply | src/idea-service.js:1038-1061 | after a fully successful apply, while nobody takes the implemented status from an approved idea, replaying its digest can match only an empty plan, whatever else was written since |
| IdeaReconcile.MovedBacklinkWritesAnotherPair | src/idea-service.js:1063-1086 | a concrete store in which a moved backlink makes the close answer another delivery than the one shown |
| IdeaReconcile.ReportConserves | src/idea-service.js:1123-1147 | one item per scanned idea in scan order; outcome counts plus eligible sum to scanned in a dry run and without eligible in an apply; no item stays eligible after an apply |
| ReconcileReports.ScanTells | src/idea-service.js:956-1036 | every scanned item says what the store showed at the moment its idea was asked about: no reference, a failed inspection, or the delivery that points back with the outcome its status calls for |
| ReconcileReports.ItemTells | src/idea-service.js:1063-1121 | an item whose close was tried says closed and implemented with the delivery that close wrote, already implemented where it read the idea implemented, or failed where it failed, with the store as it stood then; every other item says what the scan said |
| ReconcileReports.ReportTells | src/idea-service.js:1123-1147 | the report is pending if and only if some inspection or close failed, and it counts as implemented exactly as many as the run wrote |
| ReconcileReports.ItemSaysWhatWasWritten | src/idea-service.js:1063-1121 | with each idea listed once, an item says closed with a delivery if and only if the history holds this run's write of that pair |
| IdeaLifecycle.PendingFaithful | src/idea-service.js:435-946 | in every interleaving a pending operation passed its gate at its own start, and its stage remembers what it read; a consume about to create had found no delivery pointing back at the step it looked, and one about to link names the delivery it found or created |
| IdeaLifecycle.CreatesOnlyAfterLooking | src/openproject-client.js:7145-7190 | in every run a step of an operation changes the deliveries if and only if it is a consume's that saw a record without backlink and, when it looked, no delivery pointing back; it then adds one open delivery of that idea |
| IdeaLifecycle.LooksFirst | src/openproject-client.js:7145-7190 | for a record without backlink a consume goes on to create if and only if no delivery points to the idea when it looks, and to link a delivery if and only if that one does; the lookup is taken to answer as the deliveries stand |
| IdeaLifecycle.LinkRestsOn | src/openproject-client.js:7145-7200 | in every run each backlink written names, in canonical form, the delivery the record seen named and that pointed back, or the only one that pointed back when it looked, or the one created after none did |
| IdeaLifecycle.EndsAs | src/idea-service.js:435-946 | an operation is answered as written exactly when it wrote or its backlink already points back, as replayed exactly when a close finds an implemented record whose delivery is done, and otherwise as failed |
| IdeaLifecycle.Admitted | src/idea-service.js:435-946 | which statuses each gate lets through, and what it answers to the others |
| IdeaLifecycle.CloseRestsOn | src/openproject-client.js:7202-7315 | in every run, every close that writes had read its record, accepted and naming a delivery, after its gate, and then found that delivery done and pointing back; at the write the record still stands accepted, still has its backlink, and the delivery is still done, each if and only if it was not changed otherwise last in between |
| IdeaLifecycle.ImplementedChangesOnlyLate | src/openproject-client.js:6799-7315 | in every run a step changes an implemented record if and only if it is the write of a triage, decision or consumption whose gate was passed before the close |
| IdeaLifecycle.ImplementedStays | src/openproject-client.js:6799-7315 | from any step at which a record is implemented it stays as it is if and only if no such late write comes |
| IdeaLifecycle.LateWritesHappen | src/openproject-client.js:7145-7200 | one concrete run: a parked idea is implemented by a close that read it earlier, a late consumption moves the implemented idea to an open delivery, and a late triage reopens it |
| IdeaLifecycle.SourceClosesOnlyOwnIdea | src/delivery-service.js:479-642 | over all runs, the second closeout passes its gate only for an idea that names the closed delivery; the delivery it finds done is that one if and only if the backlink was not moved away between the gate and the client's reading, and the implemented record names it if and only if it was not moved up to the write |
| IdeaLifecycle.UndisturbedClose | src/openproject-client.js:7202-7315 | left to itself, a close in its three steps is the close of the store in one piece |
| IdeaLifecycle.AnsweredInThree | src/idea-service.js:435-946 | every operation that begins is pending or answered at every later step, and answered once it has had three turns of its own |
| IdeaLifecycle.AnswerKept | src/idea-service.js:435-946 | an answer stays, and an answered operation takes no further part |
| IdeaLifecycle.EveryRecordAccounted | src/idea-service.js:435-946 | in every run from new ideas, with gates and writes interleaved in any way, each record's status and backlink are accounted for by the operations that wrote them |
| IdeaLifecycle.ImplementedHistory | src/idea-service.js:435-946 | in every run from new ideas an implemented idea carries a delivery ref and was triaged, then accepted, then linked, then read by a close while it stood accepted, whose delivery was then found done, then closed on those grounds, and no other status was written since |
| IdeaListing.FetchMatching | src/idea-service.js:86-138 | the fetch-all loop ends and returns the matching items in backend order, for any backend length |
| IdeaListing.FilterMeaning | src/idea-service.js:96-99 | the filtered list holds each matching item exactly as often as the backend does, and nothing else |
| IdeaListing.FilterOrdered | src/idea-service.js:96-99 | matching items keep their order |
| IdeaListing.ListByStatus | src/idea-service.js:327-340 | the status branch answers the page of the filtered list |
| IdeaListing.PagesConcatenate | src/idea-service.js:63-84 | following next_offset from page 1 gives the whole list once, in the rounded-up number of pages, for any limit |
| IdeaListing.PreviousUndoesNext | src/idea-service.js:63-84 | previous_offset leads back from the page next_offset leads to, and the first page alone has none |
| Markdown.ReadMarkdownSections | src/delivery-narrative.js:92-120 | the line loop yields the sections of the text |
| Markdown.LastSectionWins | src/delivery-narrative.js:92-120 | of equal headings the last one counts, with the trimmed lines up to the next heading |
| Markdown.KeysAreHeadings | src/delivery-narrative.js:92-120 | the keys are exactly the non-blank headings of the normalized lines |
| Markdown.SearchByLines | src/delivery-narrative.js:82-90 | on every text the multiline search finds, line by line, the heading the line is or else the first one that starts inside it |
| Markdown.ParsedKeysAreFoundHeadings | src/delivery-narrative.js:82-120 | on every text the parsed sections are among the found headings, and the two agree if and only if every non-blank heading hidden inside a line, after a lone carriage return or a separator, is also the heading of a line |
| Markdown.SimpleHidesNothing | src/delivery-narrative.js:82-120 | a text whose line breaks are LF or CRLF hides no heading |
| Markdown.LoneReturnParts | src/delivery-narrative.js:82-120 | a text with a lone carriage return on which they differ |
| MarkdownRender.RenderThenParse | src/openproject-client.js:820-831 | for distinct headings and heading-free bodies, under any heading-free preamble, parsing the rendered description returns each body trimmed and collapsed, up to CRLF; it is the trimmed body itself if and only if that holds no three line feeds in a row |
| MarkdownRender.BlankLinesLost | src/openproject-client.js:829 | a body of two lines with two blank lines between them is read back with one |
| CompletionEvidence.ValidateCompletionSection | src/completion-evidence.js:218-272 | the line loop pushes exactly the issues of heading and body, in order |
| CompletionEvidence.SomeLine | src/completion-evidence.js:218-266 | a non-empty trimmed body always has a line to check, so the second emptiness check never decides |
| CompletionEvidence.NormalizedIssues | src/completion-evidence.js:218-272 | normalizing line breaks does not change the issues a section draws |
| CompletionEvidence.CollapsedIssues | src/completion-evidence.js:218-272 | nor does collapsing its blank lines |
| CompletionEvidence.ValidateCompletionSections | src/completion-evidence.js:274-311 | required sections, then optional ones, each with its own issues |
| CompletionEvidence.IssuesTell | src/completion-evidence.js:218-311 | an issue is raised if and only if it holds of the section bodies: a required heading missing, a blank body, a bulleted summary, an open CHECK or TODO as a whole word in any case of letters, a line without one of its heading's labels, or what the judge objects to in a bullet |
| MarkdownEdit.SplitMarkdownSections | src/openproject-client.js:769-818 | the line loop over the normalized text yields its preamble and sections |
| MarkdownEdit.ReplaceOrAppendMarkdownSection | src/openproject-client.js:889-918 | the section loop replaces the first section of the heading, drops further ones, or appends |
| MarkdownEdit.SplitIsQuiet | src/openproject-client.js:769-818 | in what splitting finds, of any text, no preamble or body holds a heading or a mark past the start of a line |
| MarkdownEdit.EditKeeps | src/openproject-client.js:889-918 | one edit of a text with stable headings leaves the heading what its new body settles to, and every other heading that the body does not bring along its bodies, settled |
| MarkdownEdit.RemovalKeeps | src/openproject-client.js:833-839 | a removal leaves the heading nothing and every other heading its bodies, settled |
| MarkdownEdit.ReadRendered | src/delivery-narrative.js:92-120 | reading a rendered text finds, for each heading no body brings along, its last body up to the first heading line |
| CloseoutDescription.ComposeCloseout | src/openproject-client.js:12553-12599 | the closeout's loop and calls yield the chain of edits |
| CloseoutDescription.CloseoutIssues | src/art-workflow-artifacts.js:424-440 | the description a closeout writes, from any text with stable headings and after clearing any headings away, draws exactly the issues of what is left of the bodies |
| CloseoutDescription.RoutesAgreeIff | src/art-workflow-artifacts.js:424-453 | both routes give the same issue list if and only if every section draws the same issues from what is left of its body as from the whole |
| CloseoutDescription.RoutesAgree | src/openproject-client.js:12553-12599 | both routes give the same issue list when no line of a body that is split again is a heading or holds a mark past its start, and the residual body holds no heading line |
| CloseoutDescription.MarkBreaksOff | src/openproject-client.js:772 | for any clear texts: of a body with a mark in mid-line what stands before it is left, and what follows becomes the heading of another section |
| CloseoutDescription.MarkParts | src/openproject-client.js:12566-12599 | test evidence `- PASS: ## ran` draws nothing as input and a format issue as written, whatever else the input holds |
| CloseoutDescription.ArtifactRead | src/completion-evidence.js:192-216 | with an attached artifact the tests section is never empty, and draws a format issue for exactly the lines of the evidence and of the artifact without a label; evidence left out counts as the word undefined |
| CloseoutDescription.ArtifactAlone | src/completion-evidence.js:201-203 | an artifact without test evidence draws a format issue for the line `undefined` |
| DeliveryTaxonomy.OnePrefix | src/delivery-taxonomy.js:78-138 | at most one known prefix matches a subject, in any case of letters, so detecting and stripping always speak of the same one |
| DeliveryTaxonomy.StripCarried | src/delivery-taxonomy.js:78-138 | stripping removes exactly the detected prefix, its colon and the surrounding white space |
| DeliveryTaxonomy.RenderedWithPrefix | src/delivery-taxonomy.js:100-138 | a subject rendered with a prefix carries exactly that prefix, and stripping undoes the rendering, even for an empty residue |
| DeliveryTaxonomy.ResolvedFacts | src/delivery-taxonomy.js:144-278 | an accepted resolution has a structural type, an allowed parent where enforced, and a classification exactly on the types that take one |
| DeliveryTaxonomy.ResolvesExactly | src/delivery-taxonomy.js:144-278 | a resolution gives a certain type, classification and subject if and only if: the type is known, its parent one of the ten allowed pairs where enforced, the classification the one given or said or else Business without contradiction, no foreign prefix is carried, and the subject is the residue under the derived prefix |
| DeliveryTaxonomy.RefusesExactly | src/delivery-taxonomy.js:144-278 | and each of the nine refusals comes if and only if it names the first thing that is wrong |
| DeliveryTaxonomy.TaxonomyFixpoint | src/delivery-taxonomy.js:223-278 | resolving an accepted output again returns it if and only if a prefix is derived, or the residue is non-empty and carries no known prefix |
| DeliveryTaxonomy.LegacyPrefixResolvesTwice | src/delivery-taxonomy.js:223-278 | for every legacy prefix: a Feature's subject that says it twice is accepted with one left, and resolving that output again is accepted with none |
| DeliveryPlanning.AcceptedStates | src/delivery-taxonomy.js:280-363 | the accepted states exactly, as a backlog half and a committed half; the check for the backlog label on committed work never decides |
| DeliveryPlanning.FaultsTell | src/delivery-taxonomy.js:280-363 | each of the seven faults is named if and only if it is the first the state has |
| DeliveryPlanning.DecommittedAccepted | src/delivery-taxonomy.js:280-363 | the backlog posture is accepted if and only if the type does not require a Target PI |
| DeliveryPlanning.ActiveAcceptedAnywhere | src/delivery-taxonomy.js:280-363 | a state accepted while active stays accepted under every status |
| DeliveryPlanning.IterationBelongsToOnePi | src/delivery-taxonomy.js:365-379 | an iteration that is not program-wide aligns with at most one Target PI whose name has no slash |
| PlanningRepair.RepairDeliveryPlan | src/delivery-service.js:2504-2684 | a run writes exactly a justified change for each repair of a prefix, all of them on success with the action counts summing to the total, whatever others write meanwhile; a refusal names the repair it stopped at and why |
| PlanningRepair.CountActions | src/delivery-service.js:399-413 | the three counters are the numbers of entries of each action and sum to all entries |
| PlanningRepair.ProblemTells | src/delivery-service.js:2540-2630 | each refusal of a repair is given if and only if it is the first of: another initiative, the epic, a terminal item, a decommit of a type that needs a PI, a decommit over open children |
| PlanningRepair.RefusalTells | src/openproject-client.js:9895-9925 | each refusal of the client that the planning fields decide is given if and only if it is the first that holds |
| PlanningRepair.WrittenStateAccepted | src/openproject-client.js:10380-10394 | a change the client lets through leaves an accepted state if and only if it does not blank an iteration that a committed item of a type needing one has; and it can do so only outside the execution contract |
| PlanningRepair.PatchGivesPreview | src/openproject-client.js:2977-3049 | the patch of an update gives the planning state that was checked if and only if nobody has meanwhile changed a field it leaves alone |
| PlanningRepair.DecommitLeavesBacklog | src/delivery-service.js:2602-2626 | a decommit that was let through leaves status new, no Target PI and the backlog label if and only if no field it leaves alone was changed since |
| PlanningRepair.RepairDoes | src/delivery-service.js:2585-2640 | a written repair does what it asks for (a decommit the backlog posture; otherwise each field given, trimmed, a Target PI cleared where told, every other field as checked) if and only if no field it leaves alone was changed since |
| PlanningRepair.PermittedWrites | src/openproject-client.js:9895-9925 | what the client lets through finishes nothing, blocks nothing anew, touches no epic, and leaves an iteration on whatever the execution contract asks one of |
| PlanningRepair.DecommitAccepted | src/delivery-service.js:2602-2626 | what a decommit leaves is accepted if and only if the item as it stands takes the patch: stated on the item now and the item it was checked on |
| PlanningRepair.LateDecommitRejected | src/delivery-service.js:2602-2626 | a parked feature that is committed after the check of a decommit ends with the backlog label on committed work, which the validator rejects |
| PlanningRepair.QuietRun | src/delivery-service.js:2515-2684 | in a run without interference the events are the repairs one by one, unnamed and terminal items are untouched, repaired items end accepted, and decommitted items end without open children |
| PlanningRepair.QuietRunDoes | src/delivery-service.js:2515-2684 | after a run without interference the last repair of each item has done what it asks for, field by field, to the item as the repairs before it had left it |
| PlanningRepair.BlankIterationEscapes | src/openproject-client.js:10381-10386 | blanking the iteration of a committed task that is not started passes the client and leaves a state the validator rejects |
| PlanningRepair.MissingAfterWrite | src/delivery-service.js:2555-2665 | a concrete run that has written its first repair when the target of the second, there at the start, is gone |
| PlanningRepair.MissingTargetStops | src/delivery-service.js:2555-2665 | a run that stops at a missing target reports no failure but one of the backend or the client's further refusals |
| Base64Url.RoundTrip | src/delivery-service.js:1119-1129 | decoding an encoded byte string returns it, for every length |
| Base64Url.GroupKeepsBits | src/delivery-service.js:1119-1129 | four symbols carry the 24 bits of their three bytes, first bits first |
| RegisterCursor.ReadPrinted | src/delivery-service.js:1119-1129 | the printed cursor is JSON text, and parsing it and reading its members gives its three fields back, whatever the anchor |
| RegisterCursor.IssuedIsAccepted | src/delivery-service.js:1117-1129 | every cursor with safe integers and an anchor of at most 512 plain ASCII characters, without quote, backslash or control, passes the service's own shape and 2048-character checks and decodes to itself |
| RegisterCursor.AcceptMeaning | src/delivery-service.js:1117-1121 | a presented text is taken for a cursor if and only if it is base64url of 1 to 2048 units whose bytes are JSON text of an object with just the keys anchor, offset and total, the last of each being a safe page number from 1, a safe total and a text of at most 512 units |
| RegisterWalk.AnchorFits | src/openproject-client.js:6836-6878 | the anchor of a page is digits and commas, at most 17 units a row, so it always fits its bound |
| RegisterWalk.AnchorDetermines | src/delivery-service.js:1123-1125 | equal anchors of pages with rows name the same ids in the same order |
| RegisterWalk.PageIssues | src/delivery-service.js:1126-1130 | a page gives out a cursor exactly when there is more, and that cursor is taken back as issued |
| RegisterWalk.RequestRefuses | src/delivery-service.js:1108-1131 | each refusal of a request comes if and only if it is the first: no cursor of ours, a page past the last number, a source that breaks its own order, a source changed since the cursor or between the two reads |
| RegisterWalk.WalkLists | src/delivery-service.js:1108-1131 | in particular, when the source changes between requests only, a walk that is never refused lists strictly increasing ids, and at its end has listed every package that was a root throughout |
| RegisterWalk.StillGoesOn | src/delivery-service.js:1108-1131 | on an unchanging source the next request succeeds exactly up to the client's last page number |
| RegisterWalk.StillWalk | src/delivery-service.js:1108-1131 | on an unchanging source a walk ends exactly at the rounded-up number of pages, one when empty, and has listed every root once, in order |
| RegisterWalk.StillWalkCompletes | src/delivery-service.js:1108-1131 | such a walk exists for every source up to the client's last page |
| RegisterSplit.BetweenTheEnds | src/delivery-service.js:1123-1128 | a request that checks one snapshot and reads another hides a root present in both if and only if its id lies between the ends of the checked page, the second included, when that end moved up, and repeats it if and only if it lies there when the end moved down |
| RegisterSplit.SplitWalkCounts | src/delivery-service.js:1108-1131 | over a source that changes in any way between and within requests, the number of times a finished walk lists a root present throughout, plus the requests that hide it, is one plus the requests that repeat it |
| RegisterSplit.SplitWalkLists | src/delivery-service.js:1108-1131 | over any such walk: only roots of what was read are listed; in strictly increasing order while no page's end moves down within a request; and at the end every lasting root that no request has hidden |
| RegisterSplit.SplitReadSkips | src/delivery-service.js:1123-1128 | a finished walk over concrete sources that never lists a root present throughout |
| RegisterSplit.SplitReadRepeats | src/delivery-service.js:1123-1128 | and one that lists it twice |
| DeliveryOverview.CheckRoots | src/delivery-service.js:1135-1148 | the loop with the seen set accepts exactly the targets with valid identity and distinct ids |
| DeliveryOverview.TakeInitiatives | src/delivery-service.js:1151-1163 | the loop over the shrinking map accepts exactly when each initiative matches an active root and none is met twice |
| DeliveryOverview.TakingCovers | src/delivery-service.js:1157-1163 | with equal counts, taking each without repetition and covering every active root are the same thing |
| DeliveryOverview.RefsPartition | src/delivery-service.js:1149-1169 | active and deferred references together are the references of the roots, each as often |
| DeliveryOverview.ListOverview | src/delivery-service.js:1133-1169 | the overview returns if and only if the targets are valid and the fetched initiatives cover the active roots exactly; each refusal in its own case |
| SourceIdentity.EndsIffSurface | src/idea-model.js:65-161 | normalization ends, after at most one legacy hop, if and only if the value is an object with a non-blank surface |
| SourceIdentity.NormalizeIdempotent | src/idea-model.js:65-161 | normalizing a normalized identity, however it was reached, returns it |
| SourceIdentity.NormalizedReads | src/idea-model.js:65-161 | a normalized identity holds its own parts, or, when it has none and a legacy reference is at hand, for each part the first non-blank of the reference's names for it, trimmed, with all else the reference holds kept as native |
| SourceIdentity.DeserializeEnds | src/idea-model.js:167-189 | reading a stored text ends if and only if the fallback surface is not blank or the text names its own |
| SourceIdentity.DeserializedReads | src/idea-model.js:167-189 | what a stored text is read as: the identity it is, or a legacy reference of the fallback surface, or, if it is no JSON text, a raw reference of that surface |
| SourceIdentity.StoredRoundTrip | src/idea-model.js:163-189 | reading back a stored identity gives the normalized one, whatever the fallback |
| SourceIdentity.StoredTextDecides | src/idea-model.js:37-165 | the stored text does not depend on member order, and is equal exactly for the same normalized identity |
| SourceIdentity.ParserExists | src/idea-model.js:175 | a JSON.parse that undoes the printer, as assumed of it, exists |

## Left out

- SHA-256 is an injective constructor, or an injective hash given as a parameter.
- src/delivery-art/canonical-json.js: its refusals (numbers that are not safe integers, lone surrogates) are not modelled; a refusal in the projection protocol only means that nothing is cleared.
- Values with `toJSON`, BigInt values and a member named `__proto__`.
- ProjectionState: ids that are not strings; the file system, its locking and file permissions. A mark's read and write are one step, as they are one synchronous section of one process; two processes that mark at once are not modelled.
- ProjectionProtocol: dry runs, status output and the platform subprocesses beyond their exit.
- IntakeWalk: the page, search and single-delivery modes of `readIntake`, and the owner reads themselves, which are a parameter.
- HistoryWindow: a history is given by ids and validity; sections' texts, events and the activity page are not modelled.
- IdeaStore: status texts are an enumeration; the trimming and lower-casing before a comparison is not modelled. A sign before a numeral that `parseInt` would accept is not modelled.
- IdeaReconcile: `localeCompare` is a parameter, any total order; audit events and closeout notes.
- PlanningRepair, IdeaReconcile: a write whose answer is lost on the way counts as not made by its caller; it is then one of the other writers' changes.
- IdeaListing: the backend does not change while all its pages are fetched.
- CompletionEvidence: the verdict on one changed-surface bullet, a cascade of regular expressions, is a parameter.
- DeliveryTaxonomy, DeliveryPlanning: letters are lower-cased as ASCII; `$` patterns in a Target PI, which `replaceAll` would expand, are not modelled. The description narrative headings are left out.
- PlanningRepair: of a work item only the planning fields; the client's remaining refusals (assignees, options, feature commitment, the other fields of the execution contract) are one refusal that may happen at any time.
- RegisterCursor.Accept: bytes above 0x7F are taken as one code unit each, although toString reads UTF-8; a cursor that holds such bytes is refused or never matches an anchor in either case.
- JsonReader: numerals are read as the decimals they write, without rounding to a double.
- RegisterWalk.WalkLists: each request sees one snapshot; RegisterSplit.SplitWalkLists and RegisterSplit.SplitWalkCounts are the statements without that. The overview a page passes through is modelled by itself in DeliveryOverview.
- CloseoutDescription.RoutesAgree: starts from a text whose sections have stable headings, not blank and without a mark; any other section is cut or merged anew by each edit. The completion note and the execution context, which a closeout may write afterwards, are not modelled.
- SourceIdentity.StoredTextDecides: holds for objects whose member names are not array indices; JavaScript moves such names to the front when src/idea-model.js:37-52 rebuilds an object.
- SourceIdentity: a legacy reference is an object or absent; JSON.parse is a parameter that undoes the printer.
- Work sessions, landing units, orchestration, refinement, scripts, src/app.js, network calls, authentication, audit, clocks and wording of messages: no part of this model.
- src/delivery-initiative-review.js, src/delivery-initiative-lineage.js, projections that rename fields and `parseExecutionContextSection`: each settled by reading one body.
