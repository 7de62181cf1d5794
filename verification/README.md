# Rolo: evidence, releases and contracts

Rolo keeps what it knows about a robot as immutable files and derives read models from them.
This project models the code that writes, guards and reads those files, and proves what the
design promises of it, over every input, every run and every interleaving of its steps.

- **Path search** (`Topology`, `TopologyWalks`, `PathSearch`, `TopologyPath`). The bounded
  breadth-first search over a robot topology, with its queue, visited set and parent pointers.
  It returns the shortlex-least walk; shortest, simple and canonical follow from that.
- **Topology diff** (`TopologyDiff`). Field-level changes between two snapshots, as a patch.
- **Jobs** (`Jobs`, `BootstrapDriver`, `BootstrapRace`, `JobLog`, `JobOutcomes`). The job store, the
  bootstrap driver with a crash before any of its writes, several drivers at once, the independent
  loader of job logs, and what a document shows of its log and of the execution it records.
- **Episodes.** `PublicText`, `EpisodeTypes`, `EpisodeValidation`, `EpisodeProjection` and
  `EpisodeGuarantees` hold the producer rules, the public rules and the projection between them;
  `EpisodeRules`, `PublicTextPattern`, `EpisodeContents` and `EpisodeStoreContents` say field by
  field what is valid, safe, shown, stored and read.
  `EpisodeStore`, `EpisodeHistory`, `EpisodeListing` and `EpisodeTimeline` hold the artifact
  store, its runs, the revision listing and the timeline pages. `EpisodeRace`,
  `EpisodeRaceHistory` and `EpisodeRaceListing` interleave several publishers.
- **Schemas and contracts** (`SchemaSubset`, `SchemaMeaning`, `SchemaChoices`, `SchemaEscapes`,
  `SchemaInclusion`, `ContractCatalog`, `ContractCompatibility`, `ContractContents`,
  `ContractPayloads`). The schema subset the runtime enforces, its meaning, which definitions make
  the check raise a TypeError, when one definition accepts all that another does, the contract
  catalog and the compatibility report.
- **Adapter releases** (`AdapterRelease`, `AdapterPublication`, `AdapterSafety`, `AdapterCrash`,
  `AdapterRuns`, `AdapterNaming`, `AdapterRecovery`, `AdapterContents`, `AdapterSample`).
  Publishing through a staging directory that lies beside the releases, file by file;
  verification; activation; any interleaving of these.
- **Invocations** (`InvocationAudit`, `InvocationProtocol`, `InvocationContents`). The checks, the
  run and the audit records of an adapter invocation.
- **Registration** (`ArtifactIngestion`). The two-file, idempotent registration of a summary.

`Ordering`, `Sequencing`, `Lookup` and `Optional` are shared helpers. `dafny verify dfyconfig.toml`
verifies the whole project (Dafny 4.11).

A state machine is written as a function `Next` on worlds and a function `After` on step
sequences; the methods of a class are proved against a function on its contents, and the
theorems are about those functions. Digests are datatype constructors, hence injective. JSON
text is identified with the value it encodes. Times are integers. `atomic_write_text` is one
step, a replacement or a creation if absent.

Some promises do not hold of the code as it stands. For each of these there is a lemma with the
run or the input that shows it, and where it can be said, the exact condition:

- the job store's revision check is made on read, so overlapping appends lose an event
  (`OverlappingAppendsLoseAnEvent`; exactly when: `WriteKeepsLogExactly`), and overlapping
  bootstrap calls both succeed (`OverlappingCallsBothSucceed`; exactly when:
  `BothSucceedExactly`);
- the publication write of an episode is no compare-and-swap, so a stalled publisher can move
  the current revision back (`InterleavingCanLoseHistory`; exactly when, per write:
  `WriteKeepsHistoryExactly`, over a whole run: `HistoryStaysExactly`);
- a crash between record and publication leaves a revision that only its own record can
  complete (`CrashedRevisionIsTaken`), and until then the listing refuses the episode; so it does
  after a rollback (`RollbackIsRefused`; exactly when, over all interleavings:
  `InterleavedRecordsAreContiguous`);
- a limitation that begins like the one the legacy adapter writes makes the listing show the
  current revision alone, whatever is missing below it (`MarkHidesMissingHistory`; exactly when:
  `ListedFromRecordsExactly`);
- `validate_schema_definition` does not look at bounds, so an accepted definition can raise a
  TypeError on a value (`TextualBoundEscapes`; exactly when: `ObjectEscapesExactly`), and such an
  output schema leaves an invocation without a terminal audit record (`TextualBoundLosesTheEnd`;
  exactly when: `CallsEndExactly`);
- the bounds a stream contract must declare are not tied to the type of their fields
  (`StreamPayloadIsBounded` gives the exact condition);
- compatible contract versions protect callers' field names only if the old schema is closed or
  the new one open (`CallersAreProtectedExactly`), and do not compare fields
  (`FieldTypesAreNotCompared`; whole payloads are kept exactly when: `PayloadsAreKeptExactly`,
  and by a test on the two schemas: `PayloadsAreKeptByTest`);
- a topology diff compares attributes with `==`, so a patch is one up to that equality
  (`BooleanForNumberIsNotReported`; exactly when: `DiffPatchesDocumentsExactly`);
- a release named after the staging directory of another can be overwritten or removed once it is
  published and active (`StagingNameCollides`; exactly when: `NamesDecideSafety`);
- a crash while staging blocks the release id (`CrashBlocksRepublishing`; exactly when:
  `CrashBlocksExactly`);
- a crash between the two files of a registration blocks the target (`CrashBetweenWritesIsFinal`;
  exactly when: `CrashOrphansExactly`, and among other writers `CrashAbandonsExactly`); so does a
  race on one idempotency key, without any crash (`SharedKeyAbandonsTarget`; exactly when, for the
  requests that come in: `KeysDecideLoss`).

## Model

| member | source | states |
|---|---|---|
| PathSearch.BuildAdjacency | src/rolo/topology_path_read_models.py:85-93 | every node's list is, as a multiset, one hop forward and one in reverse per edge at that node, in tie-break order |
| PathSearch.Search | src/rolo/topology_path_read_models.py:95-113 | the breadth-first search reaches the target exactly when a walk of at most `max_hops` hops exists, and the parent pointers then thread the least such walk |
| PathSearch.ExpandNode | src/rolo/topology_path_read_models.py:105-113 | expanding a node keeps the search invariant: known walks are least, and everything nearer is known |
| PathSearch.ExhaustedCovers | src/rolo/topology_path_read_models.py:101-113 | when the queue runs dry, every node within the bound has been discovered |
| PathSearch.FoundIsLeast | src/rolo/topology_path_read_models.py:105-112 | the first discovery of a node is by its shortlex-least walk |
| TopologyPath.WalkBack | src/rolo/topology_path_read_models.py:135-148 | following parents from the target terminates and gives the walk from the source, in order |
| TopologyPath.Weakest | src/rolo/topology_path_read_models.py:166-169 | the reported confidence is the least of all nodes and steps on the path |
| TopologyPath.ExplainTopologyPath | src/rolo/topology_path_read_models.py:54-194 | the whole answer: unknown ends, the zero-hop answer, not found exactly when no walk is within the bound, otherwise the least walk with its steps, confidence and integrity; more than twelve steps fail validation |
| TopologyPath.FoundPathIsShortestAndSimple | src/rolo/topology_path_read_models.py:95-182 | found exactly when the undirected distance is within the bound; then the hop count is the distance, each step shows a real edge in the right direction with its relation, state, confidence, integrity and evidence, steps chain, and no node repeats |
| TopologyPath.ExplanationIsHonest | src/rolo/topology_path_read_models.py:54-194 | the nodes are the topology's; the confidence is the least of the nodes and steps shown, and verified means all of them are; an answer without a path shows the topology's own confidence and integrity |
| TopologyPath.KeyErrorExactly | src/rolo/topology_path_read_models.py:61-91 | KeyError exactly for an end that is no node, or, between different ends, an edge that leads to none |
| TopologyPath.PathIsCanonical | src/rolo/topology_path_read_models.py:89-113 | the answer is the same for every bound at or above the distance and for every order of the edges and of the nodes, ids being distinct |
| TopologyPath.SwappingEndsKeepsDistance | src/rolo/topology_path_read_models.py:54-194 | swapping source and target keeps found and hop count |
| TopologyWalks.LeastWalkIsSimple | src/rolo/topology_path_read_models.py:101-113 | a least walk repeats no node: cutting a cycle would be shorter |
| TopologyWalks.LeastWalkIsUnique | src/rolo/topology_path_read_models.py:89-93 | with unique edge ids there is only one least walk, whatever the order of the edges |
| TopologyWalks.OppositeIsWalk | src/rolo/topology_path_read_models.py:89-91 | a walk read backwards is a walk of the same length |
| TopologyDiff.CollectChanges | src/rolo/topology_history_read_models.py:302-350 | the loop over sorted ids reports exactly the added, removed and changed items, with before, after and changed fields |
| TopologyDiff.BuildTopologyDiff | src/rolo/topology_history_read_models.py:288-372 | an unknown snapshot gives nothing; otherwise node and edge changes are complete before the cut, and the cut keeps the first 500 of each |
| TopologyDiff.NodeChangeNames | src/rolo/topology_history_read_models.py:277-329 | a changed node names each of its nine fields exactly if it differs, and no other name |
| TopologyDiff.EdgeChangeNames | src/rolo/topology_history_read_models.py:277-350 | a changed edge names each of its seven fields exactly if it differs, and no other name |
| TopologyDiff.ChangeShowsItems | src/rolo/topology_history_read_models.py:302-350 | added and removed items are shown as they are, and the names of a change are in order, once each |
| TopologyDiff.SameValueExactly | src/rolo/topology_history_read_models.py:277-285 | which attribute values compare equal, type by type |
| TopologyDiff.UnchangedNodesAreSame | src/rolo/topology_history_read_models.py:277-285 | two nodes of one id have no changed field exactly when they are equal up to the way a number among the attributes is written |
| TopologyDiff.UnchangedEdgesAreEqual | src/rolo/topology_history_read_models.py:277-285 | two edges of one id without a changed field are equal |
| TopologyDiff.DiffIsAPatch | src/rolo/topology_history_read_models.py:302-350 | applying the changes to the earlier items gives items that compare equal to the later ones |
| TopologyDiff.DiffPatchesDocumentsExactly | src/rolo/topology_history_read_models.py:277-350 | it gives the later documents themselves exactly when no two items of one id compare equal and are written differently |
| TopologyDiff.BooleanForNumberIsNotReported | src/rolo/topology_history_read_models.py:277-285 | an attribute going from 1 to true is not reported, and the patch keeps the 1 |
| TopologyDiff.CutDiffPatchesIffComplete | src/rolo/topology_history_read_models.py:356-369 | a cut list patches exactly when nothing was cut off |
| TopologyDiff.DiffIsUnique | src/rolo/topology_history_read_models.py:302-350 | the list of changes is determined by the two snapshots |
| TopologyDiff.DiffIsEmptyExactly | src/rolo/topology_history_read_models.py:302-350 | nothing is reported exactly when both snapshots hold the same ids with items that compare equal |
| TopologyDiff.SwappingSnapshotsMirrors | src/rolo/topology_history_read_models.py:302-350 | swapping the snapshots mirrors every change, added with removed, before with after; the mirrored changes undo the patch exactly |
| TopologyDiff.CountsBalance | src/rolo/topology_history_read_models.py:362-367 | added, removed and changed count the ids on one side only and the items that compare unequal; added minus removed is the difference in size |
| Jobs.JobStore.Create | src/rolo/jobs.py:107-116 | a new document for that operation and target, CREATED at revision 0, with no events, and no other document touched |
| Jobs.JobStore.AppendEvent | src/rolo/jobs.py:218-253 | appends one event of the given type, status, payload and time with the next sequence, and gives the job that status, revision and update time and nothing else; or changes nothing on a stale revision |
| Jobs.JobStore.SaveCheckpoint | src/rolo/jobs.py:255-282 | appends one checkpoint at the current revision, or changes nothing on a stale revision |
| Jobs.JobStore.FindCompletedBootstrap | src/rolo/jobs.py:173-195 | finds a succeeded job of that plan and target with its newest result exactly when the listing holds one |
| Jobs.CompletedExactly | src/rolo/jobs.py:173-195 | what counts as a completed bootstrap: operation, target, status, an event naming the plan, and the newest result |
| BootstrapDriver.RunBootstrapJob | src/rolo/jobs.py:304-378 | one call either returns a recorded success untouched or leaves a prefix of its own writes |
| BootstrapDriver.BootstrapSucceedsAtMostOnce | src/rolo/jobs.py:304-378 | over every run of calls with crashes, at most one job per plan and target succeeds, and it carries its result |
| BootstrapDriver.SuccessIsReturnedEverAfter | src/rolo/jobs.py:319-324 | once a job has succeeded, every later call returns it and its result without executing |
| BootstrapDriver.ReportedSuccessIsOnDisk | src/rolo/jobs.py:363-378 | a success that a call reports is recorded in the store |
| JobOutcomes.OutcomeIsRecorded | src/rolo/jobs.py:339-378 | a call that executed leaves SUCCEEDED exactly for a successful result, otherwise FAILED with the diagnostics or the error in the last event, and returns that job; an exception of another kind leaves it RUNNING |
| JobOutcomes.CrashedCallIsRunning | src/rolo/jobs.py:325-378 | a call cut short leaves its job CREATED or RUNNING |
| JobOutcomes.ScriptBegins | src/rolo/jobs.py:325-338 | the first documents: the start names plan and approval request, then the checkpoint that the authority is verified |
| JobOutcomes.ScriptEndsWithResult | src/rolo/jobs.py:363-378 | the last documents: the checkpoint with the result, then the event that tells whether it succeeded |
| BootstrapRace.OverlappingCallsBothSucceed | src/rolo/jobs.py:319-325 | a run of two drivers that overlap: both search first, both execute and both succeed |
| BootstrapRace.BothSucceedExactly | src/rolo/jobs.py:304-378 | in every run, of two drivers for one request that would succeed and have ended, both have succeeded if and only if neither read the file of a success for that request after its last write; the store is read file by file |
| BootstrapRace.SoloRunIsCall | src/rolo/jobs.py:304-378 | a driver that runs alone, reading the files in any order and stopping anywhere, does what one call does |
| JobLog.LoadJobRecords | src/rolo/approval_gate_read_models.py:136-168 | accepts the store exactly when every document is readable and its log is in order, and otherwise names the first document, in file-name order, for which this fails, with what is wrong in it |
| JobOutcomes.RefusedForOneReason | src/rolo/approval_gate_read_models.py:141-166 | a document that is not accepted has exactly one reason, which is true of it |
| JobLog.WritersKeepLogsLoadable | src/rolo/jobs.py:228-301 | however creations, reads and writes of several writers interleave, the loader accepts every document |
| JobLog.DriverLogsLoadable | src/rolo/jobs.py:304-378 | whole driver runs, crashing before any write, leave only documents the loader accepts |
| JobOutcomes.StatusFollowsLog | src/rolo/jobs.py:218-301 | over every interleaving of writers, the status and update time of a job are those of its last event |
| JobOutcomes.DriverStatusFollowsLog | src/rolo/jobs.py:304-378 | so they are over every run of bootstrap calls with crashes |
| JobLog.WriteKeepsLogExactly | src/rolo/jobs.py:218-301 | in every reachable system a write keeps every event and checkpoint on disk if and only if the file is still the one its writer read |
| JobLog.OverlappingAppendsLoseAnEvent | src/rolo/jobs.py:228-252 | two appends that expect the same revision can both go through, and the first event is lost |
| Sequencing.CheckOrder | src/rolo/episode_projection.py:233-241 | the one-pass loop accepts exactly lists whose sequences are unique and whose offsets never fall |
| EpisodeValidation.ValidateRecord | src/rolo/episode_projection.py:203-249 | the record checks accept exactly the declaratively valid records |
| EpisodeValidation.ValidateTimeline | src/rolo/episode_read_models.py:621-652 | the projection checks accept exactly the declaratively valid timelines, lanes included |
| EpisodeRules.ValidRecordExactly | src/rolo/episode_projection.py:203-249 | what a valid record is, on its fields: parent, times, the open and the closed states, distinct ids and sequences, offsets that never fall, and references that are there |
| EpisodeRules.ValidDetailGives | src/rolo/episode_read_models.py:350-390 | what a valid detail keeps: its state, times and counts, SECRET assets redacted, and findings with support and the authority of their kind |
| EpisodeRules.ValidDetailSupports | src/rolo/episode_read_models.py:376-390 | a finding names assets of the detail only, and a verified outcome physical ones |
| EpisodeRules.ValidTimelineGives | src/rolo/episode_read_models.py:621-652 | what a valid timeline keeps: its revision, count, order, lanes and references, and evidence for what claims more than DECLARED |
| PublicTextPattern.SafeTextExactly | src/rolo/episode_read_models.py:66-71 | text is safe exactly when no part of it is a host root, a drive root, the start of a URL or of a share |
| EpisodeProjection.Worst | src/rolo/episode_projection.py:317-327 | the worst synchronisation is one of the given and ranks above all |
| EpisodeProjection.ProjectAssets | src/rolo/episode_projection.py:334-378 | the asset loop gives the public assets, the usable ids and the notes, or stops at the first refused summary |
| EpisodeProjection.ProjectEvents | src/rolo/episode_projection.py:380-430 | the event loop gives the public timeline with unsupported events withheld, or stops at a refused one |
| EpisodeProjection.ProjectFindings | src/rolo/episode_projection.py:432-469 | the finding loop keeps exactly the supported findings, or stops at a refused one |
| EpisodeProjection.ProjectEpisodeRecord | src/rolo/episode_projection.py:330-520 | the loops and validators together compute the projection or refuse it |
| EpisodeContents.DetailShows | src/rolo/episode_projection.py:487-517 | task, state, outcome, verification, times, links, behaviour, immutability and clock domain are the record's, and each evidence reference is shown by its public id, once, in order |
| EpisodeContents.ClockShows | src/rolo/episode_projection.py:317-327 | the shown clock is the worst among the record's, its events' and its assets' |
| EpisodeContents.CoverageShows | src/rolo/episode_projection.py:476-486 | the shown coverage is the record's, or PARTIAL exactly when the clock is not synced, a finding lacks support or an asset is not available |
| EpisodeContents.AssetsShow | src/rolo/episode_projection.py:334-378 | each asset is shown field by field in order, a SECRET one without digest and reference |
| EpisodeContents.EventsShow | src/rolo/episode_projection.py:380-430 | each event is shown once by growing sequence, as its producer wrote it, or as the missing-evidence alert exactly when it claims more than DECLARED without support |
| EpisodeContents.FindingsShow | src/rolo/episode_projection.py:438-469 | exactly the findings with support are shown, in order, field by field, with the authority of their kind and the assets that can be shown |
| EpisodeContents.NotesShow | src/rolo/episode_projection.py:333-476 | the limitations are the record's own and, as far as there is room, a note for everything that is missing, and no others |
| EpisodeContents.LanesShow | src/rolo/episode_projection.py:512-512 | the available lanes are those of the shown events, once each, in the order of their names |
| EpisodeGuarantees.ProjectionSucceedsExactly | src/rolo/episode_projection.py:330-520 | a valid record projects exactly when a VERIFIED record has evidence, verified outcomes use no usable asset from outside the physical world, metrics of shown events are public and finite, and text is safe |
| EpisodeGuarantees.EventsNeverOverclaim | src/rolo/episode_projection.py:383-430 | every event beyond DECLARED has evidence or an available asset that is not SECRET |
| EpisodeGuarantees.FindingsNeverOverclaim | src/rolo/episode_projection.py:432-469 | every finding has evidence or such an asset and claims no more than its kind allows |
| EpisodeGuarantees.ProjectionSeesOnlyTheRedactedRecord | src/rolo/episode_projection.py:334-486 | the projection of a record is the projection of its redaction |
| EpisodeGuarantees.PrivateContentDoesNotShow | src/rolo/episode_projection.py:334-520 | records that differ only in what redaction removes have the same projection |
| EpisodeStore.EpisodeArtifacts.WriteCommittedRecord | src/rolo/episode_projection.py:523-551 | creates the record file, or finds the same content there, and never replaces another |
| EpisodeStore.EpisodeArtifacts.CheckRevision | src/rolo/episode_projection.py:561-582 | lets a first publication, the same one again or the successor of a committed parent through |
| EpisodeStore.EpisodeArtifacts.PublishRecord | src/rolo/episode_projection.py:554-590 | a call with a crash before or after the record write leaves the specified store and answer |
| EpisodeStoreContents.PublishExactly | src/rolo/episode_projection.py:523-610 | in any store, a record is published exactly if it projects, the publication there is this one or of the revision before with its record, and its place is free; what is stored and answered then, at each crash point |
| EpisodeStoreContents.ReadExactly | src/rolo/episode_read_models.py:1031-1059 | what a read of a revision gives in any store: the publication, the projection of the record, no revision, or an error |
| EpisodeHistory.ReadGivesCommittedProjection | src/rolo/episode_read_models.py:1031-1059 | in a consistent store every read gives the projection of the record committed under that revision |
| EpisodeHistory.RunKeepsConsistent | src/rolo/episode_projection.py:554-590 | every run keeps records valid and publications the projections of their records |
| EpisodeHistory.HistoryIsStable | src/rolo/episode_projection.py:523-610 | over every run with crashes, a revision once readable reads the same ever after |
| EpisodeHistory.PublishedStaysReadable | src/rolo/episode_read_models.py:1031-1059 | what a call published is what its revision reads as, ever after |
| EpisodeListing.ListRevisions | src/rolo/episode_read_models.py:1062-1170 | lists the current revision alone if a limitation of it bears the mark of the legacy adapter; otherwise lists exactly when the record files are 1 to current and at most 1000, newest first, each as its record and projection say |
| EpisodeStoreContents.IndependentItemShows | src/rolo/episode_read_models.py:1087-1110 | the single entry of an episode listed without its records |
| EpisodeListing.ListedFromRecordsExactly | src/rolo/episode_read_models.py:1083-1119 | the listing is taken from the record files exactly when no limitation of the current record begins with that mark |
| EpisodeListing.MarkHidesMissingHistory | src/rolo/episode_read_models.py:1083-1119 | a valid record with such a limitation is published and listed with one item and no parent, though revisions below it are missing |
| EpisodeListing.RunKeepsContiguous | src/rolo/episode_projection.py:561-590 | if unpublished episodes start at revision 1, records are 1 to current, or one more after a crash |
| EpisodeListing.CrashFreeRunIsExact | src/rolo/episode_projection.py:561-590 | without crashes the records are exactly 1 to current |
| EpisodeListing.RepublishingRecovers | src/rolo/episode_projection.py:538-590 | publishing the crashed record again reaches the uncrashed store |
| EpisodeListing.CrashedRevisionIsTaken | src/rolo/episode_projection.py:538-551 | after a crash no other content can take that revision |
| EpisodeRace.PublishersAgree | src/rolo/episode_projection.py:527-590 | however publishers interleave, one content at most is committed per revision, and all publications of a revision are its projection |
| EpisodeRace.WriteKeepsHistoryExactly | src/rolo/episode_projection.py:584-590 | a publication write keeps every readable revision readable exactly when the current revision is not beyond it |
| EpisodeRaceHistory.HistoryStaysExactly | src/rolo/episode_projection.py:558-590 | over any interleaving, all that can be read at some moment reads the same at every later one if and only if no publication write goes behind the revision current by then |
| EpisodeRace.StalledPublisherRollsBack | src/rolo/episode_projection.py:558-590 | a run of four publishers after which one write moves the current revision back |
| EpisodeRace.InterleavingCanLoseHistory | src/rolo/episode_projection.py:558-590 | stable history fails under interleaving, with concrete valid records |
| EpisodeRaceListing.SoloRunIsPublish | src/rolo/episode_projection.py:554-590 | the interleaved steps of one publisher alone, cut short or not, are one call |
| EpisodeRaceListing.InterleavedRecordsAreContiguous | src/rolo/episode_read_models.py:1088-1119 | if unpublished episodes start at revision 1, every interleaving leaves the records 1 to some number at or beyond the current revision; the listing from them is refused, but for its size, exactly when that number is beyond |
| EpisodeRaceListing.RollbackIsRefused | src/rolo/episode_projection.py:558-590 | a run of publishers after which the current revision is 2 and the records go on to 3 |
| EpisodeRaceListing.RepublishingCatchesUp | src/rolo/episode_projection.py:561-590 | publishing the record that follows the current revision again moves the current revision up to it |
| EpisodeTimeline.FindStart | src/rolo/episode_read_models.py:1207-1214 | the search over candidate offsets accepts exactly the cursors of this revision |
| EpisodeTimeline.ValidatePage | src/rolo/episode_read_models.py:596-609 | accepts exactly items of this revision in strictly growing sequence |
| EpisodeTimeline.BuildTimelinePage | src/rolo/episode_read_models.py:1189-1229 | the page, or no revision, a refusal or a bad cursor; the page validator never refuses what the store gives |
| EpisodeTimeline.PageExactly | src/rolo/episode_read_models.py:1189-1229 | one answer item by item: which events, how many, and whether a cursor to the next follows |
| EpisodeTimeline.WalkIsComplete | src/rolo/episode_read_models.py:1206-1229 | following the cursors ends and gives each event once, in strictly growing sequence, for every page size |
| EpisodeTimeline.PagesSurvivePublishing | src/rolo/episode_read_models.py:1198-1229 | pages asked for across later publishing are what they would have been before |
| SchemaMeaning.DefinitionAcceptedExactly | src/rolo/schema_subset.py:23-50 | the definition check accepts exactly well-formed definitions, at every depth |
| SchemaMeaning.DefinitionExactly | src/rolo/schema_subset.py:10-50 | one level of an accepted definition in terms of its keys, type, choices, properties, required names and items |
| SchemaMeaning.DefinitionFailsCleanly | src/rolo/schema_subset.py:23-50 | it fails with a ValueError unless a `type` or a required name is unhashable |
| SchemaMeaning.ValueCheckedExactly | src/rolo/schema_subset.py:53-96 | against an accepted definition with numeric bounds the value check ends in acceptance or ValueError, and accepts exactly what the definition means |
| SchemaMeaning.ObjectCheckedExactly | src/rolo/schema_subset.py:99-103 | the whole check accepts exactly well-formed object definitions with a value they admit, and never meets a missing key |
| SchemaChoices.SpellingsExactly | src/rolo/schema_subset.py:53-96 | for a listed choice: a recursive test on the choice alone decides whether some value that equals it is accepted, and whether some value that equals it raises a TypeError |
| SchemaEscapes.HarmlessExactly | src/rolo/schema_subset.py:53-96 | for an accepted definition, however nested, every value is accepted or refused with a ValueError if and only if every bound that a value can get as far as is a number |
| SchemaEscapes.ObjectEscapesExactly | src/rolo/schema_subset.py:99-103 | the whole check never raises a TypeError if and only if the definition check does not and an accepted object definition is harmless |
| SchemaEscapes.Offends | src/rolo/schema_subset.py:53-96 | for every other definition, a value on which the check fails with no ValueError |
| SchemaInclusion.InhabitedExactly | src/rolo/schema_subset.py:53-96 | a recursive test on a definition alone decides whether any value is accepted |
| SchemaInclusion.FitsExactly | src/rolo/schema_subset.py:53-96 | a recursive test on two definitions, type by type, is sound for one accepting all that the other does, and exact where neither lists choices |
| SchemaMeaning.TextualBoundEscapes | src/rolo/schema_subset.py:69-73 | an accepted object definition on which every integer sent raises a TypeError |
| ContractCatalog.RejectDuplicates | src/rolo/contract_catalog.py:243-289 | accepts exactly catalogs with distinct operations, live replacements and compensations, and reciprocal pairs |
| ContractContents.CatalogExactly | src/rolo/contract_catalog.py:243-289 | what an accepted catalog is, on the fields: which contract a replacement, a compensation and a partner may be |
| ContractContents.ContractExactly | src/rolo/contract_catalog.py:94-225 | what an accepted contract is: its lifecycle, risk, semantics, mode and schemas, by the names and bounds its schemas list |
| ContractCatalog.PairingIsAnInvolution | src/rolo/contract_catalog.py:172-225 | exactly the session controls are paired, each with one other contract of the opposite mode whose partner it is |
| ContractCatalog.StartsAndStopsAreAsMany | src/rolo/contract_catalog.py:243-289 | as many SESSION_START as SESSION_STOP contracts |
| ContractCatalog.ReplacementIsFinal | src/rolo/contract_catalog.py:249-255 | a replacement is never itself replaced |
| ContractCompatibility.StreamPayloadIsBounded | src/rolo/contract_catalog.py:181-196 | accepted payloads of a bounded stream carry its three bounds; they are numbers, positive and within the declared maximum and duration, exactly when the fields are typed as numbers |
| ContractCompatibility.CompatibilityIssues | src/rolo/contract_catalog.py:330-377 | reports every issue that holds, once, in order, with its names; nothing exactly when the versions are compatible |
| ContractContents.ReportExactly | src/rolo/contract_catalog.py:330-377 | when each message is reported, on the fields of both versions, and exactly which names it lists |
| ContractCompatibility.CompatibilityIsAPreorder | src/rolo/contract_catalog.py:330-377 | having no issues is reflexive and transitive |
| ContractCompatibility.CallersAreProtected | src/rolo/contract_catalog.py:360-369 | payloads accepted before have no missing and no unknown field after, if the old schema is closed or the new one open |
| ContractCompatibility.CallersAreProtectedExactly | src/rolo/schema_subset.py:79-89 | and only then |
| ContractCompatibility.FieldTypesAreNotCompared | src/rolo/contract_catalog.py:360-374 | compatible versions may differ in the type of a field, and then refuse what was accepted |
| ContractPayloads.PayloadsAreKeptExactly | src/rolo/contract_catalog.py:360-374 | compatible versions keep accepting every payload if and only if each field accepts all it accepted before, and an open old schema has an open successor with no new field |
| SchemaInclusion.PayloadsAreKeptByTest | src/rolo/contract_catalog.py:360-374 | that test decides whether a new input schema keeps every payload of the old one, where neither lists choices, and is sound for all |
| AdapterRelease.CheckFileBinding | src/rolo/adapter_runtime.py:295-306 | the published adapter files are exactly those the bundle declares, with digest and role |
| AdapterRelease.CheckCatalogBinding | src/rolo/adapter_runtime.py:307-333 | every bundled operation is bound in the catalog, and the catalog verifies no other |
| AdapterRelease.LoadVerifiedRelease | src/rolo/adapter_runtime.py:230-334 | loads exactly the releases that pass every manifest, hash, identity and binding check |
| AdapterContents.VerifiedExactly | src/rolo/adapter_runtime.py:230-334 | a release loads exactly if its manifest has the expected digest and identity, every pinned and listed file is there with its digest, the documents are about this robot, discovery and run, and bundle, manifest and catalog agree |
| AdapterContents.BundleValidExactly | src/rolo/adapter_runtime.py:263-265 | the rules of a bundle manifest: each path once, and one entry point, its package |
| AdapterContents.FilesAgreeExactly | src/rolo/adapter_runtime.py:295-306 | published and declared files agree path by path, with digest and role, a later file of a path replacing an earlier |
| AdapterContents.CatalogBindsExactly | src/rolo/adapter_runtime.py:307-333 | each bundled operation is verified in the catalog under its contract and adapter, and no other operation is |
| AdapterPublication.AdapterOutputs.Stage | src/rolo/adapter_runtime.py:891-949 | copies file by file into the staging directory and completes it with a manifest of the digests, or fails on the entry point, a path or a missing source; nothing else is touched |
| AdapterPublication.AdapterOutputs.PublishRelease | src/rolo/adapter_runtime.py:866-958 | refuses an id whose directory or staging directory is there; otherwise adds the whole release or nothing; a crash leaves the staging directory |
| AdapterContents.AssembleExactly | src/rolo/adapter_runtime.py:892-949 | staging succeeds exactly with one entry point that is the package, safe paths and all sources there; the tree is then the planned copies and the manifest |
| AdapterContents.PlanExactly | src/rolo/adapter_runtime.py:898-913 | which source goes to which path |
| AdapterContents.ManifestExactly | src/rolo/adapter_runtime.py:914-949 | what the written manifest says: ids, fingerprint, and every document and file by path and digest of its copy |
| AdapterContents.PublishExactly | src/rolo/adapter_runtime.py:880-958 | a call adds the whole tree exactly if the id is safe, neither directory is there and staging succeeds; otherwise nothing |
| AdapterPublication.AdapterOutputs.ActivateRelease | src/rolo/adapter_runtime.py:961-1004 | moves the current index or changes nothing, as the activation function says |
| AdapterPublication.AdapterOutputs.LoadCurrentRelease | src/rolo/adapter_runtime.py:373-398 | loads the release that the current index names, stale or current, or fails |
| AdapterContents.LoadCurrentExactly | src/rolo/adapter_runtime.py:373-398 | which index, directory, manifest digest and fingerprint make the current release load, as current or as stale |
| AdapterContents.SafeSegmentExactly | src/rolo/adapter_runtime.py:40-46 | the characters of an id |
| AdapterSafety.PublishedHashesHold | src/rolo/adapter_runtime.py:910-949 | everything a written manifest pins is there with the pinned content, and it carries the fingerprint it was published for |
| AdapterSafety.PublishedVerifiesExactly | src/rolo/adapter_runtime.py:230-334 | a published release verifies exactly when the documents that were copied belong together |
| AdapterSafety.ReplacedBundleNeverVerifies | src/rolo/adapter_runtime.py:898-913 | a release whose adapter file takes the place of the bundle manifest is published and never verifies |
| AdapterSafety.CurrentAlwaysLoads | src/rolo/adapter_runtime.py:373-398 | if no published id is the staging name of another: in every reachable state loading the current release passes every check, and it is current exactly when the latest fingerprint is the release's, otherwise stale |
| AdapterSafety.ReleasesAreCompleteAndImmutable | src/rolo/adapter_runtime.py:882-958 | on the same condition a release directory is complete when it appears, never changes, and its hashes hold |
| AdapterSafety.VerifiedIsForever | src/rolo/adapter_runtime.py:882-958 | on the same condition what verifies once, under whatever name it is asked for, verifies ever after as the same release |
| AdapterNaming.StagingNameCollides | src/rolo/adapter_runtime.py:884-957 | a run in which the release `r.staging` is published, activated and loads, and is then removed by the publisher of `r` |
| AdapterNaming.NamesDecideSafety | src/rolo/adapter_runtime.py:884-957 | over all interleavings of publications of given ids, releases stay and the current one loads if and only if no id is the staging name of another |
| AdapterSafety.ActivationSucceedsExactly | src/rolo/adapter_runtime.py:961-1004 | an activation succeeds exactly when the expected release is current, the release verifies and its fingerprint is the latest; then it is what loads |
| AdapterSafety.ExpectationIsUsedUp | src/rolo/adapter_runtime.py:974-981 | of two activations expecting the same release, with only publishing in between, the second finds its expectation met exactly when the first activated that very release again, and fails otherwise |
| AdapterRuns.SoloRunIsPublish | src/rolo/adapter_runtime.py:882-958 | the interleaved steps of one publisher alone, copying in any order, are one call of publish |
| AdapterCrash.CrashBlocksRepublishing | src/rolo/adapter_runtime.py:884-890 | after a crash past the staging directory, nobody ever works on that id again and its release never appears, over every later run |
| AdapterRecovery.BlockedExactly | src/rolo/adapter_runtime.py:882-958 | a release that is not there can still be published by some later run if and only if its staging directory is not an abandoned one |
| AdapterRecovery.CrashBlocksExactly | src/rolo/adapter_runtime.py:884-957 | in every reachable world, the crash of a publisher blocks its id for good if and only if the publisher had made the staging directory |
| InvocationAudit.AdapterRuntime.InvokeAdapter | src/rolo/adapter_runtime.py:401-618 | the events and the answer of a call are those of its script |
| InvocationContents.StartedExactly | src/rolo/adapter_runtime.py:420-503 | a call leaves any record exactly if a release is current, everything pinned agrees, the tool is verified and bound, the payload passes its input schema, and input rules, routing and authorisation pass |
| InvocationContents.RefusedAs | src/rolo/adapter_runtime.py:420-503 | the exception of a call that is not let through: the first check to fail decides |
| InvocationContents.EndsExactly | src/rolo/adapter_runtime.py:504-618 | the records and the answer for every ending of a run and every result check; a success returns the object that was printed |
| InvocationProtocol.ScriptFollowsProtocol | src/rolo/adapter_runtime.py:492-618 | a call leaves nothing, or authorisation, start, run and, unless it escapes, one end; success exactly when every result check passed |
| InvocationProtocol.ProtocolInTheTrace | src/rolo/adapter_runtime.py:492-618 | over all interleavings the adapter runs only after authorisation and STARTED of the same call, never twice, and a terminal record comes after all of these, never twice |
| InvocationProtocol.StartedCallsEndExactly | src/rolo/adapter_runtime.py:504-618 | a finished, started call has exactly one terminal record unless it is interrupted or a result check raises another kind of exception |
| InvocationProtocol.SucceededMeansChecked | src/rolo/adapter_runtime.py:585-617 | SUCCEEDED is audited only for a result that passed every check |
| InvocationProtocol.CallsEndExactly | src/rolo/adapter_runtime.py:585-606 | as long as the result rules raise ValueError or RuntimeError only: every admitted, uninterrupted call with this output schema leaves a terminal record, whatever its result, if and only if the definition check raises no TypeError and an accepted object definition is harmless |
| InvocationProtocol.AdmittedCall | src/rolo/adapter_runtime.py:401-503 | for every output schema and every object there is a published and activated release and an admitted call with that schema and result |
| InvocationProtocol.TextualBoundLosesTheEnd | src/rolo/adapter_runtime.py:589-606 | an output schema with a textual bound leaves a started call without a terminal record |
| InvocationProtocol.BindingChecksNeverFail | src/rolo/adapter_runtime.py:448-463 | for a verified release with distinct tools the binding checks of an invocation only repeat what loading made sure of |
| ArtifactIngestion.AnalysisArtifacts.RegisterArtifactAnalysis | src/rolo/artifact_ingestion.py:96-173 | a call with a crash at any of its writes leaves the specified files and answer |
| ArtifactIngestion.RegistrationDecided | src/rolo/artifact_ingestion.py:96-173 | the answer and the files of one call, check by check: target, robot, job, key, place |
| ArtifactIngestion.RegisteredIsAboutItsTarget | src/rolo/artifact_ingestion.py:103-118 | over every interleaving, a registration is about the robot of its target's profile and a job of that target, and records what its request said |
| ArtifactIngestion.RegistrationIntegrity | src/rolo/artifact_ingestion.py:119-173 | at every moment a registration has its summary on disk with its revision, and no target is registered twice |
| ArtifactIngestion.NothingIsReplaced | src/rolo/artifact_ingestion.py:164-172 | summaries and registrations are never changed |
| ArtifactIngestion.ReceiptsReplay | src/rolo/artifact_ingestion.py:119-133 | the same request later gets its stored receipt marked REPLAYED while target and job still identify, another request with that key never does |
| ArtifactIngestion.CrashBetweenWritesIsFinal | src/rolo/artifact_ingestion.py:135-172 | after a crash between the writes every request for that target conflicts |
| ArtifactIngestion.CrashOrphansExactly | src/rolo/artifact_ingestion.py:135-172 | of all crash points only the one between the writes orphans the summary of a new request |
| ArtifactIngestion.CrashAbandonsExactly | src/rolo/artifact_ingestion.py:119-172 | in every interleaving a crash loses its target exactly when it comes between the two writes |
| ArtifactIngestion.AbandonedForever | src/rolo/artifact_ingestion.py:135-172 | a summary nobody is about to register is never registered, however tries interleave |
| ArtifactIngestion.SharedKeyAbandonsTarget | src/rolo/artifact_ingestion.py:164-172 | two interleaved requests with one key and two targets leave one target abandoned |
| ArtifactIngestion.LastWriteAbandonsExactly | src/rolo/artifact_ingestion.py:165-172 | without a crash the last write loses its target exactly when its key has been taken meanwhile |
| ArtifactIngestion.KeysDecideLoss | src/rolo/artifact_ingestion.py:96-173 | over all interleavings of the requests that come in, no target is ever abandoned if and only if no two that can write share a key and differ in target |
| ArtifactIngestion.SoloRunIsRegister | src/rolo/artifact_ingestion.py:96-173 | the interleaved steps of one writer alone are one call |

## Left out

- The HTTP API, command line, console, terminal UI, MCP server and web pages: routing and presentation.
- Target fingerprints, `execute_bootstrap`, discovery reports and the adapter process: their answers are parameters of the model.
- Real hashing, JSON text, file locks, symbolic links and path resolution: digests are injective constructors, documents are values, paths are normalised sequences of segments, a locked section is one step.
- Job, event, checkpoint and invocation ids are random in the code; the model takes them as unused where a run needs it.
- The legacy publication adapter and independently published projections of episodes: a publication is always one that `publish_episode_record` wrote.
- Text length limits, and the patterns of identifiers other than event, asset and finding ids; the share-path alternative of the unsafe-text pattern knows ASCII white space only.
- Cutting the revision listing into pages, the episode collection and the cohort read models: filters, sorts and slices.
- Schema values and attributes that are not a number or infinite; schema values deeper than the interpreter's recursion limit; object keys that are not strings.
- SchemaSubset: what a definition of the wrong shape makes the value check do is one outcome, `Malformed`, since the definition check always comes first.
- ContractCatalog.ModeAccepted: an input schema that is not of type object is read through its `properties` and `required` as if these had the right shape.
- Contract texts that no rule looks at, the semantic version beyond its major number, and the rendering of command lines.
- AdapterPublication.AdapterOutputs.Stage: conflicts between a file and a directory of the same name.
- AdapterPublication.SafeKey: the ids `.` and `..`, which the code accepts and which name no directory of their own, are taken as ordinary names; path lengths, and file systems that fold case.
- ContractPayloads.PayloadsAreKeptExactly: input schemas that list whole payloads, or accept none.
- InvocationAudit.Admission: the authorisation's own records, the route selection and the mutation and content rules are single checks that pass or raise; an audit append always succeeds.
- ArtifactIngestion.Register: registration files that this code did not write, and their refusal as invalid.
- EpisodeGuarantees.ProjectionSeesOnlyTheRedactedRecord: the coverage of an episode still shows whether all assets, SECRET ones included, are available; the redaction keeps that much.
- CompatibilityIsAPreorder is about the verdict; the reports of two steps need not add up to the report of both.
- Jobs.Unreadable: a job file that is valid JSON but a list or null makes a load raise a TypeError, which the search does not catch; the model skips it like any other unreadable file. The job store never writes one, so only runs from a store that others have written to differ.
- TopologyDiff.SameValue: the floats 0.0 and -0.0, equal and written differently, are one number here.
- Job listing, paging and recovery; approval-gate summaries.
