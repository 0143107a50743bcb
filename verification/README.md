# QueryFabric verification

A model in Dafny of the parts of QueryFabric that carry guarantees over every input or every run, with
proofs of those guarantees. `dafny verify dfyconfig.toml` checks all of it.

* **Portable import.** `TabularCsv` is the CSV printer and the character-level parser, `NumberScanner` the
  integer and float scanners. `CsvRoundTrip` is what they promise together, `CsvMeaning` what JSON rows mean once
  written and read back, `CsvImage` which texts the parser accepts, `CsvRejections` why others are refused.
  `CanonicalJson` is the canonical printer, `JsonReader` a reader for its output, `CanonicalNames` the proof that
  canonical text is a faithful name, `CanonicalForm` which text it is, `CanonicalValues` the same under equality
  of float values. `ImportLedger` is one transactional import call; `ImportProtocol` is any number of such calls
  interleaved statement by statement, `ImportLaws` what every interleaving guarantees, `ImportContents` what the
  tables hold field by field, `ImportReplies` what each call is answered and why.
* **Query rewriting.** `QuerySyntax` is the mutually recursive syntax tree, `SelectionOverrides` the traversal
  and the WHERE override, `OverrideLaws` its algebra, `OverrideChanges` what it changes as a relation,
  `BooleanAnd` conjunctions in three-valued logic. `SyntaxTrees` is the syntax as a labelled tree with the counts
  any such tree has, `SyntaxProfiles` the counts construct by construct, `QueryBudget` the measurements.
* **Job queue.** `PriorityRunner` is the runner with its heap order, permits and running map, `DispatchOrder`
  its order over sequences of calls, `JobQueue` the actor and its worker tasks as interleaved steps, `JobLaws`
  what every run of them guarantees.
* **Cluster health.** `HealthMonitor` is the circuit breaker, the sweep and the cache, `CircuitLaws` what holds
  over runs of messages, `ProbeHistory` circuits and cache told by the probes sent, without phases.
* **SyQL and source maps.** `Syql` is the rewriting of SyQL to SQL, `SyqlMeaning` what it rewrites to, told by
  words and lines. `SourceMapping` is positions and spans, `SpanLaws` exactly when a span maps back, `SyqlLaws`
  the proof that the source map of every rewriting is true.
* **Smaller cores.** `SchemaSync` (migrations), `NameJoin` (joined names), `ProvenanceLog` (histories),
  `DataTypes` (common types and list inference). `Utf8`, `Decimal`, `Text`, `Sequences`, `StableSort` and
  `Wrappers` are shared.

Code that updates state in place is a class or a method with loops, proved equal to a specification on values;
the laws are lemmas about those specifications, and what an operation is for is told again in terms that do not
use its specification. Runs are sequences of states joined by events, so "every interleaving" is a statement
about every such sequence.

Where the code is more lenient than its comments, the code is followed and the difference is stated: the CSV
parser reads `"ab"cd` as one field and ignores a stray `""` behind the last record; a full 256-byte buffer
loses trailing separators of a joined name; list inference forgets a clash and starts over; a column of a
location counts characters while offsets count bytes; a panicking worker never deregisters its job; a digest
of free form makes import keys ambiguous; a repeated id loses a row its receipt counts; equal float zeros have
different canonical texts. In each case there is a lemma that shows it and, where the code promises more, a
lemma with the exact condition under which the promise holds.

## Model

| member | source | states |
|---|---|---|
| `CsvRoundTrip.WrittenDecodesExactly` | crates/queryfabric-portability/src/import.rs:312-373 | decoding what the printer wrote returns exactly its cells, row by row in schema order, if no name or value holds CR or LF, the first name does not begin with a BOM and the limits allow it; in every other case decoding fails |
| `CsvMeaning.JsonRowsComeBack` | crates/queryfabric-portability/src/import.rs:312-373 | JSON rows written and read back: where reading succeeds each cell means its value (true for true, a number as its text, a string as itself), and it succeeds exactly when nothing breaks a line, the first name has no BOM and the limits allow it |
| `CsvMeaning.WritesExactly` | crates/queryfabric-portability/src/import.rs:312-362 | writing succeeds exactly for a schema of the profile and at most 5,000,000 objects with exactly the columns' names, each value allowed in its column: a boolean under boolean, a number the type can read, a text the type can read |
| `CsvMeaning.RowMeans` | crates/queryfabric-portability/src/import.rs:327-357 | a row is written exactly when it is allowed, and then each of its cells means the value under the column's name |
| `CsvMeaning.CellTextMeans` | crates/queryfabric-portability/src/import.rs:561-584 | the text of a value means it, is valid exactly when the value is allowed, and is refused as null or as of the wrong type |
| `CsvRejections.WritingRefused` | crates/queryfabric-portability/src/import.rs:312-362 | writing is refused for the schema, else for too many rows, else for the first row that is not allowed and for the reason it is not |
| `CsvRejections.RejectionsHaveReasons` | crates/queryfabric-portability/src/import.rs:586-690 | a text that is refused reads up to some place as records and fields, and the error is true of what follows there |
| `CsvRejections.DecodingRefused` | crates/queryfabric-portability/src/import.rs:364-373 | decoding is refused for the schema, else for a byte order mark, else for bytes that encode no text, else as the text is |
| `CsvRejections.AcceptedBytesExactly` | crates/queryfabric-portability/src/import.rs:364-373 | the bytes accepted as a given table are exactly the encodings of its spellings, under an allowed schema and without a BOM |
| `CsvRoundTrip.WrittenCells` | crates/queryfabric-portability/src/import.rs:327-357 | the cell written at a row and column is the text of that row's value under that column's name |
| `CsvRoundTrip.AcceptedRowsFitSchema` | crates/queryfabric-portability/src/import.rs:364-373 | whatever bytes are accepted, every decoded row has one lexically valid cell per column and the row limit holds |
| `CsvRoundTrip.ReadField` | crates/queryfabric-portability/src/import.rs:586-690 | from a fresh field the parser reads an encoded field back as its value, or fails on a newline in it |
| `CsvRoundTrip.ReadPlain` | crates/queryfabric-portability/src/import.rs:586-690 | unquoted characters that are not special are appended one by one |
| `CsvRoundTrip.ReadQuoted` | crates/queryfabric-portability/src/import.rs:586-690 | inside quotes, doubled quotes and commas are read back up to the closing quote |
| `CsvRoundTrip.ReadFields` | crates/queryfabric-portability/src/import.rs:586-690 | reading encoded cells up to CRLF ends the record with exactly those cells |
| `CsvRoundTrip.TrailingQuotesAreIgnored` | crates/queryfabric-portability/src/import.rs:630-690 | a stray pair of quotes after the last CRLF is accepted and changes nothing |
| `CsvRoundTrip.PlainAfterQuoted` | crates/queryfabric-portability/src/import.rs:605-690 | plain characters right after a closing quote are read into the same field |
| `TabularCsv.WriteTabularCsv` | crates/queryfabric-portability/src/import.rs:312-362 | the printing loops produce the header and records of the table the rows stand for, or its first error |
| `TabularCsv.WriteRow` | crates/queryfabric-portability/src/import.rs:327-357 | one row is printed as its record, or fails as the row does |
| `TabularCsv.EncodeRow` | crates/queryfabric-portability/src/import.rs:318-325 | fields are encoded and joined by commas |
| `TabularCsv.ParseCsv` | crates/queryfabric-portability/src/import.rs:586-690 | the character loop over index, field, row and flags computes the state machine run over the whole text |
| `TabularCsv.DecodeTabularCsv` | crates/queryfabric-portability/src/import.rs:364-373 | schema check first, then the parser |
| `TabularCsv.ValidateSchema` | crates/queryfabric-portability/src/import.rs:525-547 | accepts exactly the right profile with between one and the maximum of columns, non-empty names of at most 256 bytes, all different |
| `TabularCsv.ValidateValues` | crates/queryfabric-portability/src/import.rs:692-715 | reports the first cell its column type does not allow, and none only if all are allowed |
| `TabularCsv.RowCells` | crates/queryfabric-portability/src/import.rs:327-357 | the cells of a row follow the schema's column order |
| `TabularCsv.TableRow` | crates/queryfabric-portability/src/import.rs:327-357 | row by row, the table holds what each JSON row is written as |
| `NumberScanner.ValidFloat` | crates/queryfabric-portability/src/import.rs:725-766 | the index-driven loops accept exactly the number production of section 6 of RFC 8259 with a finite value |
| `NumberScanner.SkipDigits` | crates/queryfabric-portability/src/import.rs:732-753 | stops at the first character from the start that is not a digit |
| `NumberScanner.GreedyParts` | crates/queryfabric-portability/src/import.rs:725-766 | a text is a number exactly when the greedy split into integer, fraction and exponent works |
| `NumberScanner.ValidIntegerExactly` | crates/queryfabric-portability/src/import.rs:717-723 | accepts exactly the printed 64-bit integers and -0 |
| `NumberScanner.PrintedIntegerIsValid` | crates/queryfabric-portability/src/import.rs:717-723 | every printed 64-bit integer is accepted and has its value |
| `Utf8.RoundTrip` | crates/queryfabric-portability/src/import.rs:594-595 | decoding encoded text gives the text back, for all Unicode scalar values |
| `Utf8.DecodedIsText` | crates/queryfabric-portability/src/import.rs:594-595 | bytes that decode are the encoding of what they decode to, so overlong forms and surrogates are refused |
| `Utf8.BomIsFirstChar` | crates/queryfabric-portability/src/import.rs:591-593 | bytes begin with the byte order mark exactly when the text begins with U+FEFF |
| `CsvImage.AcceptedTextsExactly` | crates/queryfabric-portability/src/import.rs:586-690 | the texts accepted as a given table are exactly the header and its rows with each field plain or a quoted part and plain characters behind it, followed by a pair of quotes or by nothing, when the cells are valid and the limit holds |
| `CsvImage.SpelledIsAccepted` | crates/queryfabric-portability/src/import.rs:586-690 | every such spelling of a table is accepted as that table |
| `CsvImage.AcceptedIsSpelled` | crates/queryfabric-portability/src/import.rs:586-690 | from any point on, what the parser accepts completes such a spelling |
| `CanonicalNames.CanonicalTextIsFaithful` | crates/queryfabric-portability/src/canonical.rs:20-60 | with numbers compared by their printed text, two values print to the same text if and only if they are equal up to the order of object keys |
| `CanonicalForm.CanonicalFormExactly` | crates/queryfabric-portability/src/canonical.rs:20-60 | the canonical value is the one value equal to the given one up to key order whose keys ascend byte by byte in every object at every depth |
| `CanonicalForm.CanonicalKeysAscend` | crates/queryfabric-portability/src/canonical.rs:43-57 | in canonical form the keys of each object, at every depth, ascend strictly by their UTF-8 bytes |
| `CanonicalForm.ByteOrderIsCodePointOrder` | crates/queryfabric-portability/src/canonical.rs:44-45 | sorting keys byte by byte sorts them by the code point in which they first differ |
| `CanonicalForm.EscapeIsShortest` | crates/queryfabric-portability/src/canonical.rs:31-34 | each character is written as itself or in the shortest escape that reads back as it, with lower-case digits |
| `CanonicalValues.EqualValuesPrintAlike` | crates/queryfabric-portability/src/canonical.rs:13-24 | under serde_json equality, values with one text are equal; all values equal to one have its text if and only if no float zero, 0.0 or -0.0, occurs in it |
| `CanonicalNames.ReadCanonical` | crates/queryfabric-portability/src/canonical.rs:20-60 | a reader recovers the sorted-key value from canonical text and leaves the following delimiter unread |
| `CanonicalNames.ReadPrinted` | crates/queryfabric-portability/src/canonical.rs:26-60 | the same for a value printed as it stands |
| `CanonicalNames.ReadEscaped` | crates/queryfabric-portability/src/canonical.rs:31-34 | every escape sequence is read back as its character by the rules of section 7 of RFC 8259 |
| `CanonicalNames.CanonicalFormIsFixed` | crates/queryfabric-portability/src/canonical.rs:43-57 | sorting keys twice is sorting them once |
| `CanonicalNames.SameSortsEqual` | crates/queryfabric-portability/src/canonical.rs:43-57 | values equal up to key order have one sorted form |
| `CanonicalNames.EqualSortsSame` | crates/queryfabric-portability/src/canonical.rs:43-57 | values with one sorted form are equal up to key order |
| `CanonicalNames.SortedIsSame` | crates/queryfabric-portability/src/canonical.rs:43-57 | sorting keys changes nothing but their order |
| `CanonicalJson.CanonicalJsonString` | crates/queryfabric-portability/src/canonical.rs:20-24 | returns the print of the canonical value, which CanonicalFormExactly singles out |
| `CanonicalJson.WriteCanonical` | crates/queryfabric-portability/src/canonical.rs:26-60 | appends the printed sorted-key form to the shared buffer |
| `CanonicalJson.WriteMembers` | crates/queryfabric-portability/src/canonical.rs:46-55 | appends the members in key order with their separators |
| `CanonicalJson.WriteArray` | crates/queryfabric-portability/src/canonical.rs:35-42 | appends the items in order with their separators |
| `ImportLedger.Database.ApplyImport` | crates/queryfabric-demo/src/db.rs:221-367 | the step-by-step transaction leaves the store and gives the reply of the specification, for every failure point |
| `ImportLedger.EarlyFailure` | crates/queryfabric-demo/src/db.rs:280-317 | a row that fails decides the fate of the whole call |
| `ImportLedger.KeyNamesTheImport` | crates/queryfabric-demo/src/db.rs:237 | stations being of one length, two requests agree in bundle, station and revision if and only if their keys and the lengths of their digests agree |
| `ImportLedger.TypedKeyNamesTheImport` | crates/queryfabric-demo/src/db.rs:237 | so with digests of the typed form one key means one import |
| `ImportLedger.KeysCollideExactly` | crates/queryfabric-demo/src/db.rs:237 | requests with digests of different length can share a key if and only if the longer is the shorter one, a colon and a UUID, and then nothing or another colon |
| `ImportLedger.FreeFormKeysCollide` | crates/queryfabric-demo/src/db.rs:237 | for every station two requests for different imports share a key, as the digest is any text |
| `ImportProtocol.RunKeepsInv` | crates/queryfabric-demo/src/db.rs:221-367 | every interleaving of begin, look, insert, seal, commit and drop steps keeps the protocol invariant |
| `ImportProtocol.StepKeepsInv` | crates/queryfabric-demo/src/db.rs:221-367 | each single step keeps it |
| `ImportContents.TablesHoldTheImports` | crates/queryfabric-demo/src/db.rs:280-365 | over every run the readings are the seed and then, commit by commit and in order, the rows whose generated id was free, each under its id with the station, timestamp, pm25, no2 and ozone of its own cells; receipts repeat the committed requests |
| `ImportContents.RowsAdded` | crates/queryfabric-demo/src/db.rs:280-317 | of the rows of a call exactly those with a free id are added, each with its own cells, and only readable ones for a known station |
| `ImportReplies.OneCallIsAnswered` | crates/queryfabric-demo/src/db.rs:221-367 | each answer of a call is given exactly under its condition: replay, conflict, injected failure, first failing row, taken receipt id, or a new receipt |
| `ImportReplies.AloneIsOneCall` | crates/queryfabric-demo/src/db.rs:221-367 | a transaction with no other beside it is answered as the call run in one go and would commit the same |
| `ImportReplies.AcceptedCallsAreCommitted` | crates/queryfabric-demo/src/db.rs:239-267 | every accepted call of a run is answered with the receipt of one commit, for the same plan, bundle, owner, mapping, revision and size |
| `ImportReplies.RefusalsHaveReasons` | crates/queryfabric-demo/src/db.rs:239-345 | every refusal in a run has its reason in the request or in the receipts |
| `ImportLaws.Serializable` | crates/queryfabric-demo/src/db.rs:221-367 | the store is always the one the committed imports make one after the other in commit order |
| `ImportLaws.OneReceiptPerImport` | crates/queryfabric-demo/src/db.rs:195-197 | two commits never have the same bundle, station and revision, and receipts are those of the commits |
| `ImportLaws.AcceptedCallsAgree` | crates/queryfabric-demo/src/db.rs:239-267 | all accepted calls with one key carry the same stored receipt, which at most one of them created |
| `ImportLaws.TablesOnlyGrow` | crates/queryfabric-demo/src/db.rs:239-366 | between any two moments of a run the tables only grow, by one receipt a commit, and without a commit nothing changes, whatever failed, was dropped or was replayed |
| `ImportLaws.CallsOverlap` | crates/queryfabric-demo/src/db.rs:221-367 | for any two imports with different keys and no rows there is a run in which both have begun before either commits and the later one commits first |
| `ImportLaws.ImportedRowsTotal` | crates/queryfabric-demo/src/db.rs:273-365 | imported rows plus rows dropped by ON CONFLICT total the row counts of the receipts |
| `ImportLaws.ImportedRowsMatchReceipts` | crates/queryfabric-demo/src/db.rs:273-365 | imported rows total exactly the receipts' row counts if and only if no generated id repeats |
| `ImportLaws.RepeatedIdLosesRow` | crates/queryfabric-demo/src/db.rs:300-365 | a run in which a repeated id loses a row that the receipt counts |
| `OverrideChanges.OverridesChangeExactly` | crates/queryfabric-opt/src/syntax.rs:508-546 | the rewritten query is the one that is the given query but for the selections of overridden SELECTs outside WHERE clauses |
| `OverrideLaws.OverridesCompose` | crates/queryfabric-opt/src/syntax.rs:460-471 | applying o1 and then o2 equals applying o1 overlaid by o2 once, on the whole mutually recursive tree |
| `OverrideLaws.OverridesAreIdempotent` | crates/queryfabric-opt/src/syntax.rs:460-471 | applying the same overrides twice is applying them once |
| `OverrideLaws.EmptyOverridesChangeNothing` | crates/queryfabric-opt/src/syntax.rs:69-471 | the empty map and the default traversal give back the query unchanged |
| `OverrideLaws.OverridesReplaceExactlyTheirSelections` | crates/queryfabric-opt/src/syntax.rs:508-546 | every reached SELECT whose id is overridden gets its override, and nothing else changes |
| `OverrideLaws.UnchangedExactlyWhenObeyed` | crates/queryfabric-opt/src/syntax.rs:508-546 | a query is left alone if and only if every overridden SELECT outside WHERE clauses already has its override, so overrides for ids inside WHERE clauses alone do nothing |
| `OverrideLaws.OverlayQuery` | crates/queryfabric-opt/src/syntax.rs:69-110 | the composition law on queries |
| `OverrideLaws.OverlaySelect` | crates/queryfabric-opt/src/syntax.rs:134-171 | the composition law on SELECTs |
| `OverrideLaws.OverlayKind` | crates/queryfabric-opt/src/syntax.rs:284-446 | the composition law on every kind of expression |
| `SelectionOverrides.TransformQuery` | crates/queryfabric-opt/src/syntax.rs:69-110 | a neutral transformer is the identity; an overriding one leaves every reached SELECT with its override |
| `SelectionOverrides.TransformSelect` | crates/queryfabric-opt/src/syntax.rs:134-171 | the same for SELECTs |
| `SelectionOverrides.TransformKind` | crates/queryfabric-opt/src/syntax.rs:284-446 | the same for every kind of expression |
| `BooleanAnd.FlattenRebuildPreservesMeaning` | crates/queryfabric-opt/src/syntax.rs:473-506 | rebuilding the flattened conjuncts is true, false or unknown exactly when the original is, under any leaf values |
| `BooleanAnd.FlattenOfRebuilt` | crates/queryfabric-opt/src/syntax.rs:473-506 | flattening a rebuilt list is the concatenation of flattening its items |
| `BooleanAnd.RebuildKeepsConjuncts` | crates/queryfabric-opt/src/syntax.rs:473-506 | flatten, rebuild, flatten gives the same conjuncts in the same order |
| `BooleanAnd.RebuiltIsLeftDeep` | crates/queryfabric-opt/src/syntax.rs:488-506 | down its left side the rebuilt conjunction joins the items from last to first, each joint an AND with its numbered id |
| `BooleanAnd.RebuildBooleanAnd` | crates/queryfabric-opt/src/syntax.rs:488-506 | the loop builds the left-deep conjunction of all items, and nothing from none |
| `BooleanAnd.Flatten` | crates/queryfabric-opt/src/syntax.rs:473-486 | no conjunct is itself an AND and there is at least one |
| `DispatchOrder.DrainIsStableSort` | crates/queryfabric-job-queue/src/priority.rs:30-39 | draining numbered entries is the stable sort by priority |
| `DispatchOrder.UninterruptedDrain` | crates/queryfabric-job-queue/src/priority.rs:94-122 | jobs submitted to an idle runner with enough permits come out stably sorted by priority |
| `DispatchOrder.DrainIsInOrder` | crates/queryfabric-job-queue/src/priority.rs:30-39 | repeatedly taking the top lists all pending entries by priority, then submission number |
| `DispatchOrder.OrderIsUnique` | crates/queryfabric-job-queue/src/priority.rs:30-39 | there is only one such listing |
| `DispatchOrder.CancelKeepsTheOrder` | crates/queryfabric-job-queue/src/priority.rs:124-144 | cancelling takes one job out of the order and moves no other |
| `DispatchOrder.CancelAnswersExactly` | crates/queryfabric-job-queue/src/priority.rs:124-144 | a cancel answers by where the job is, signals its token alone, and takes out that job and no other |
| `DispatchOrder.NoDispatch` | crates/queryfabric-job-queue/src/priority.rs:108-122 | nothing is dispatched exactly for want of a permit or a pending job; otherwise it is the first in order |
| `PriorityRunner.TopPrecedes` | crates/queryfabric-job-queue/src/priority.rs:30-39 | the heap's greatest entry is the one with the least priority and number |
| `PriorityRunner.PriorityRunner.Submit` | crates/queryfabric-job-queue/src/priority.rs:94-103 | numbers the entry and queues it, touching nothing else |
| `PriorityRunner.PriorityRunner.TryDispatch` | crates/queryfabric-job-queue/src/priority.rs:108-122 | takes a permit and the top entry and registers it, or gives the permit back |
| `PriorityRunner.PriorityRunner.Cancel` | crates/queryfabric-job-queue/src/priority.rs:124-144 | removes a pending job, signals a running one, or reports neither |
| `PriorityRunner.PriorityRunner.Finish` | crates/queryfabric-job-queue/src/priority.rs:146-150 | takes one job out of the running map |
| `JobQueue.RunKeepsInv` | crates/queryfabric-job-queue/src/actor.rs:207-350 | every interleaving of handlers and worker steps keeps the invariant |
| `JobLaws.PermitsAndJobsAreConserved` | crates/queryfabric-job-queue/src/actor.rs:251-315 | free permits plus live workers is constant, and each submission is exactly one of pending, removed, or dispatched once |
| `JobLaws.DispatchesAreInOrder` | crates/queryfabric-job-queue/src/actor.rs:246-254 | every dispatch of a run hands out the pending job that precedes all others |
| `JobLaws.AllPermitsCanBeUsed` | crates/queryfabric-job-queue/src/actor.rs:246-267 | for every number of permits there is a run after which that many workers are at work |
| `JobLaws.RunningJobsHaveWorkers` | crates/queryfabric-job-queue/src/actor.rs:269-296 | an id in the running map belongs to a live, unfinished worker if and only if its worker has not panicked |
| `JobLaws.RunningJobsAreDispatched` | crates/queryfabric-job-queue/src/actor.rs:246-315 | an entry of the running map names the job dispatched under its token, and its kind |
| `JobLaws.PanicsAreEvents` | crates/queryfabric-job-queue/src/actor.rs:23-29 | the panicked workers are those a panic event names |
| `JobLaws.PanicLeavesAGhost` | crates/queryfabric-job-queue/src/actor.rs:23-29 | a run after which no worker is left and yet the job of a panicked one is in the running map |
| `JobLaws.LeavesRunningExactly` | crates/queryfabric-job-queue/src/priority.rs:124-150 | a step takes an id out of the running map if and only if it cancels that id or is the last of a worker for it |
| `JobLaws.GhostStays` | crates/queryfabric-job-queue/src/actor.rs:23-29 | so over any run an id stays in the running map until one of these happens |
| `JobLaws.RunningJobsAreCancellable` | crates/queryfabric-job-queue/src/actor.rs:319-350 | with ids submitted once, every worker at work can be cancelled by id or already has been |
| `CircuitLaws.CircuitsAndCacheAgree` | crates/queryfabric-cluster/src/health_monitor.rs:245-404 | after any run of sweeps and resets no circuit is half-open, closed means below the threshold, open means at or above it with an opening time and cached unreachable |
| `ProbeHistory.CircuitsAreTheirProbes` | crates/queryfabric-cluster/src/health_monitor.rs:245-404 | after any messages a circuit is open exactly when the failures in a row reach the threshold, since the last of them, and the cache holds the last answer |
| `ProbeHistory.ProbesExactly` | crates/queryfabric-cluster/src/health_monitor.rs:269-286 | a sweep probes a cluster exactly when the threshold is not reached or a full cooldown has passed since the last recorded failure |
| `ProbeHistory.EndpointsExactly` | crates/queryfabric-cluster/src/routing.rs:171-188 | an endpoint is given exactly for a registered cluster that has one and last answered healthy or degraded |
| `CircuitLaws.EndpointsHaveClosedCircuits` | crates/queryfabric-cluster/src/routing.rs:171-188 | an endpoint is only given for a cluster whose circuit is closed |
| `CircuitLaws.ProbeRateBound` | crates/queryfabric-cluster/src/health_monitor.rs:92-127 | probes to an always failing cluster in any window number at most the threshold plus one per full cooldown |
| `CircuitLaws.ProbeRateBoundOverRuns` | crates/queryfabric-cluster/src/health_monitor.rs:245-404 | in any run of sweeps and resets the same bound holds for the probes sent to a cluster that never answers and is never reset, whatever happens to the others |
| `CircuitLaws.ProbesAreSpaced` | crates/queryfabric-cluster/src/health_monitor.rs:271-286 | past the first threshold probes, each waits a cooldown after the one before, though the sweep reads the clock twice |
| `CircuitLaws.ClustersAreIndependent` | crates/queryfabric-cluster/src/health_monitor.rs:252-362 | between resets a circuit depends on its own visits alone |
| `HealthMonitor.HealthMonitorActor.CheckAllClusters` | crates/queryfabric-cluster/src/health_monitor.rs:252-362 | the sweep's loops treat every listed cluster once, on its own, in circuits and cache |
| `HealthMonitor.HealthMonitorActor.ResetCircuitBreaker` | crates/queryfabric-cluster/src/health_monitor.rs:388-404 | closes the circuit if it was not closed and drops the cached health |
| `HealthMonitor.HealthMonitorActor.Triage` | crates/queryfabric-cluster/src/health_monitor.rs:269-286 | splits the clusters into those to probe and those to skip |
| `HealthMonitor.HealthMonitorActor.MarkSkipped` | crates/queryfabric-cluster/src/health_monitor.rs:348-362 | caches every skipped cluster as unreachable and touches no other |
| `HealthMonitor.CircuitState.RecordFailure` | crates/queryfabric-cluster/src/health_monitor.rs:121-127 | counts the failure and opens at the threshold |
| `HealthMonitor.CircuitState.MaybeTransitionToHalfOpen` | crates/queryfabric-cluster/src/health_monitor.rs:103-112 | goes half-open only after a full cooldown |
| `HealthMonitor.CircuitState.ShouldSkipProbe` | crates/queryfabric-cluster/src/health_monitor.rs:92-101 | skips exactly open circuits within their cooldown |
| `SyqlMeaning.RewritingMeans` | crates/queryfabric-dialect-syql/src/lib.rs:23-113 | for every input: explain says whether the first word is EXPLAIN; the trimmed lines but for blanks and directives, with the directives at the end taken off, are joined by single spaces, behind SELECT * exactly if they begin with FROM; each directive has its last value in lower case |
| `SyqlMeaning.LeadExplains` | crates/queryfabric-dialect-syql/src/lib.rs:115-133 | a text asks for an explanation exactly when its first word is EXPLAIN in any case |
| `SyqlMeaning.StripAllTakesOff` | crates/queryfabric-dialect-syql/src/lib.rs:58-68 | the loop takes directives off the end of the last line, emptied lines with them, until it ends in none |
| `SyqlMeaning.TrailingIsEnd` | crates/queryfabric-dialect-syql/src/lib.rs:135-147 | a trimmed text has a trailing directive exactly when it ends in one between spaces and a single word |
| `SyqlLaws.RewritingIsMapped` | crates/queryfabric-dialect-syql/src/lib.rs:23-113 | for every input the pieces tile the rewritten text, each copied piece repeats the bytes at its origin, and origins increase without overlap |
| `SyqlLaws.SyqlSpansMapBackExactly` | crates/queryfabric-dialect-syql/src/lib.rs:70-112 | for every input and span, what is reported on rewritten SyQL maps back soundly if and only if the reported bytes end on the copied piece the true ones end on |
| `SyqlLaws.AsciiSyqlSpansMapBack` | crates/queryfabric-dialect-syql/src/lib.rs:70-112 | so it does behind ASCII text |
| `SyqlLaws.WideCharLosesSpan` | crates/queryfabric-dialect-syql/src/lib.rs:70-112 | a two-byte character, a newline and another character: the span of the last is mapped to nothing although it was copied |
| `SyqlLaws.FragmentsArePlaced` | crates/queryfabric-dialect-syql/src/lib.rs:24-68 | the fragments left after both loops stand in the input where recorded, in order and apart |
| `SyqlLaws.StrippingStaysPlaced` | crates/queryfabric-dialect-syql/src/lib.rs:58-68 | the trailing-directive loop only shortens the last fragment or drops it, so every record stays true |
| `SyqlLaws.LinesStayPlaced` | crates/queryfabric-dialect-syql/src/lib.rs:28-56 | the line loop records every kept line at its true byte offset |
| `SyqlLaws.LeadInPlace` | crates/queryfabric-dialect-syql/src/lib.rs:115-133 | what follows EXPLAIN stands at the offset reported for it |
| `SyqlLaws.RenderingIsMapped` | crates/queryfabric-dialect-syql/src/lib.rs:70-104 | rendering keeps the pieces tiled and true as it goes |
| `SyqlLaws.LastDirectiveIsStripped` | crates/queryfabric-dialect-syql/src/lib.rs:135-147 | a directive written at the end is the one taken off, whatever stands before it |
| `SyqlLaws.DirectiveOnlySetsMetadata` | crates/queryfabric-dialect-syql/src/lib.rs:58-68 | a directive behind a query sets the metadata and leaves the query's fragments as they were |
| `SyqlLaws.FirstInlineDirectiveWins` | crates/queryfabric-dialect-syql/src/lib.rs:58-68 | of two equal directives on one line the first value is kept |
| `Syql.ParseSyql` | crates/queryfabric-dialect-syql/src/lib.rs:23-113 | the method's loops compute the specified rewriting and its source map |
| `Syql.CollectLines` | crates/queryfabric-dialect-syql/src/lib.rs:28-56 | the line loop with its running cursor computes the fragments and line directives |
| `Syql.StripTrailingDirectives` | crates/queryfabric-dialect-syql/src/lib.rs:58-68 | the loop computes the fixed point of taking directives off, and ends |
| `Syql.Render` | crates/queryfabric-dialect-syql/src/lib.rs:70-104 | the appending loop computes rewritten text and pieces |
| `Syql.LastBefore` | crates/queryfabric-dialect-syql/src/lib.rs:138 | finds the last occurrence, and none only if there is none |
| `SpanLaws.SpansMapBackExactly` | crates/queryfabric-dialect-sql/src/source_map.rs:46-81 | over true pieces with increasing origins the answer for a stretch of any text is sound if and only if the reported bytes and the true ones end on the same copied piece |
| `SpanLaws.ShiftedAnswerExactly` | crates/queryfabric-dialect-sql/src/source_map.rs:68-81 | the same for any range reported too far to the left |
| `SpanLaws.IdentityMapsSoundly` | crates/queryfabric-dialect-sql/src/source_map.rs:28-40 | the map of a text that was not rewritten answers soundly for every span of every text |
| `SourceMapping.SpansMapBackSoundly` | crates/queryfabric-dialect-sql/src/source_map.rs:56-81 | behind ASCII text, over tiled true pieces an answer is none exactly when the range was synthesised; otherwise it lies in the source and holds the source position of every copied byte |
| `SourceMapping.OffsetOfLocation` | crates/queryfabric-dialect-sql/src/source_map.rs:46-54 | line and column give back a character's byte position exactly when everything before it on its line is ASCII; otherwise they fall short |
| `SourceMapping.NothingExactlyWhenSynthesised` | crates/queryfabric-dialect-sql/src/source_map.rs:68-81 | no answer if and only if no byte of the range was copied |
| `SourceMapping.CoverHoldsAll` | crates/queryfabric-ir/src/diagnostics.rs:25-32 | the union holds every span put into it |
| `SourceMapping.CoverIsLeast` | crates/queryfabric-ir/src/diagnostics.rs:25-32 | no span that holds them all is smaller than the union |
| `SourceMapping.AnswerInsideSource` | crates/queryfabric-dialect-sql/src/source_map.rs:68-81 | an answer never reaches past the source |
| `SourceMapping.CopiedByteIsHeld` | crates/queryfabric-dialect-sql/src/source_map.rs:68-81 | an answer holds the source position of each copied byte, and the source has the same byte there |
| `SourceMapping.ComputeLineStarts` | crates/queryfabric-dialect-sql/src/source_map.rs:84-92 | the loop lists zero and the byte after every newline |
| `SourceMapping.LastLineStart` | crates/queryfabric-dialect-sql/src/source_map.rs:46-54 | the last line start before a character is the byte position where its line begins |
| `SourceMapping.ByteAtIsEncodedLength` | crates/queryfabric-dialect-sql/src/source_map.rs:86-90 | counted byte positions are those of the UTF-8 text |
| `SchemaSync.ResendingAppliesOnceInOrder` | crates/queryfabric-federation/src/schema.rs:58-109 | resending an increasing list over any run of failing hooks applies exactly the migrations between the first and the current version, once and in order |
| `SchemaSync.ErrorFreeSync` | crates/queryfabric-federation/src/schema.rs:58-109 | an error-free sync of any list applies exactly its strict left-to-right maxima above the stored version |
| `SchemaSync.WalkStopsExactly` | crates/queryfabric-federation/src/schema.rs:45-109 | of any list the strict maxima are taken in order up to the first that is no CREATE or ALTER or that the hook fails, and the error says which |
| `SchemaSync.OnlyAdmissibleIsApplied` | crates/queryfabric-federation/src/schema.rs:41-109 | over any run of syncs of any lists only statements that begin with CREATE or ALTER are ever applied |
| `SchemaSync.DdlAllowedExactly` | crates/queryfabric-federation/src/schema.rs:41-48 | the guard admits exactly the texts that begin, behind white space, with CREATE or ALTER and a space in any case |
| `SchemaSync.RepeatedSyncIsQuiet` | crates/queryfabric-federation/src/schema.rs:58-109 | repeating a sync that succeeded applies nothing |
| `SchemaSync.WalkAppliesBetween` | crates/queryfabric-federation/src/schema.rs:58-109 | one sync of an increasing list applies what lies between the versions before and after |
| `SchemaSync.Cluster.ApplySchemaSync` | crates/queryfabric-federation/src/schema.rs:58-109 | the loop leaves version, applied migrations and reply as specified |
| `QueryBudget.MeasureQuery` | crates/queryfabric-ir/src/budget.rs:124-145 | the numbers are those of the query as a labelled tree: its nodes, the nesting of its deepest node, its joins, and its CTEs with those counted again that the query of a CTE declares |
| `QueryBudget.MeasuredBounds` | crates/queryfabric-ir/src/budget.rs:124-155 | so the depth is below the nodes, and the CTEs reported lie between those there are and twice as many |
| `QueryBudget.MeasureExpr` | crates/queryfabric-ir/src/budget.rs:246-327 | measured from any depth, an expression is its profile measured from the root with that depth added to the nesting and nothing else changed |
| `QueryBudget.MeasureSetExpr` | crates/queryfabric-ir/src/budget.rs:157-201 | the same for set expressions |
| `QueryBudget.MeasureRelation` | crates/queryfabric-ir/src/budget.rs:216-244 | the same for relations |
| `SyntaxProfiles.QueryCounts` | crates/queryfabric-ir/src/budget.rs:124-155 | counted construct by construct, a query has the nodes, levels, joins and CTEs of its labelled tree |
| `SyntaxProfiles.KindCounts` | crates/queryfabric-ir/src/budget.rs:246-327 | the same for what an expression holds |
| `SyntaxProfiles.LevelsIsDepth` | crates/queryfabric-ir/src/budget.rs:124-327 | levels are one more than the greatest number of nesting nodes above any node |
| `QueryBudget.Check` | crates/queryfabric-ir/src/budget.rs:86-121 | reports the first exceeded dimension, and none if and only if all are within budget |
| `NameJoin.JoinedName` | crates/queryfabric-namespace-uuid/src/lib.rs:75-100 | the buffer path yields the joined bytes except exactly when a proper prefix joins to 256 bytes and all later parts are empty; then it yields that prefix |
| `NameJoin.FullBufferCollides` | crates/queryfabric-namespace-uuid/src/lib.rs:80-88 | so two different part lists can be given one name |
| `NameJoin.CoordsName` | crates/queryfabric-namespace-uuid/src/lib.rs:59-66 | the coordinates are hashed as their whole text |
| `NameJoin.CoordsFit` | crates/queryfabric-namespace-uuid/src/lib.rs:59-66 | that text is at most 104 of the 128 bytes |
| `NameJoin.CoordsAreJoined` | crates/queryfabric-namespace-uuid/src/lib.rs:59-100 | coordinates are named as their five numbers in decimal, joined as parts |
| `NameJoin.CoordTextIsInjective` | crates/queryfabric-namespace-uuid/src/lib.rs:59-66 | different coordinates have different texts |
| `ProvenanceLog.HistoriesJoin` | crates/queryfabric-provenance/src/store.rs:36-119 | the history over one window followed by the next equals the history over both |
| `ProvenanceLog.HistoryListsExactly` | crates/queryfabric-provenance/src/store.rs:36-119 | a history lists exactly the entries of the resource with the tag, actor and window asked for, each once, by time and then by order of appending |
| `ProvenanceLog.HistoryIsOrderedAndStable` | crates/queryfabric-provenance/src/store.rs:99-119 | histories are ordered by time and keep append order within an instant |
| `ProvenanceLog.VecProvenanceStore.Append` | crates/queryfabric-provenance/src/store.rs:90-97 | puts the entry behind all others |
| `ProvenanceLog.VecProvenanceStore.History` | crates/queryfabric-provenance/src/store.rs:99-119 | the filtering loop and sort compute the history of the stored log |
| `StableSort.StableOrderIsUnique` | crates/queryfabric-provenance/src/store.rs:116-117 | an ordered, stable rearrangement is the stable sort, whatever the algorithm |
| `DataTypes.ListInferenceOrderFreeExactly` | crates/queryfabric-ir/src/types.rs:181-193 | the type inferred for a list is the same for every order of its values if and only if the known element types have a common type, or no two of them agree and their number is even |
| `DataTypes.OrderFreeExactly` | crates/queryfabric-ir/src/types.rs:189-192 | the same for the reduction of types |
| `DataTypes.ListHoldsCommonType` | crates/queryfabric-ir/src/types.rs:181-193 | with a common type, that is what the list is inferred to hold |
| `DataTypes.InferenceIsPrincipal` | crates/queryfabric-ir/src/types.rs:165-193 | a value whose lists all have a common element type can be used at exactly the types no narrower than the one inferred for it |
| `DataTypes.InferenceIsSoundExactly` | crates/queryfabric-ir/src/types.rs:165-193 | a value can be used at the type inferred for it if and only if all its lists have a common element type |
| `DataTypes.ClashDependsOnOrder` | crates/queryfabric-ir/src/types.rs:189-192 | two numbers and a text infer numbers or nothing, depending on their order |
| `DataTypes.CommonTypeCommutes` | crates/queryfabric-ir/src/types.rs:38-54 | common type does not depend on the order of its arguments |
| `DataTypes.CommonTypeAssociates` | crates/queryfabric-ir/src/types.rs:38-54 | common type is associative with failure absorbing |
| `DataTypes.PairsAgree` | crates/queryfabric-ir/src/types.rs:38-54 | three types that agree pairwise agree together |

## Left out

- Library parsers: `f64`, `uuid` and RFC 3339 parsing are parameters (`Lexicon`, `Environment`) of every statement that needs them.
- JSON numbers: a number is its printed text, which serde_json produces; only numbers that fit the number production are printed. That of its texts only `0.0` and `-0.0` stand for equal numbers is how `f64` is printed and not proved here.
- `JsonReader` reads what the canonical printer writes, not all of JSON: surrogate-pair escapes are not read, since the printer never writes them.
- Error messages: errors are constructors with the data that tells them apart, not texts.
- CSV in the other direction: writing after decoding need not give the same bytes back; `CsvImage.AcceptedTextsExactly` says which texts stand for one table. A carriage return outside quotes that is not part of CRLF is an ordinary character to the parser and is modelled so.
- Import bundles: `validate_import_bundle`, `plan_tabular_import`, JSON depth limits and the digests of `import.rs` are not part of this model.
- `canonical_json_string_v2`, BLAKE3, version 5 and version 7 UUIDs: library behaviour; names are compared before they are hashed, and generated ids enter as inputs.
- PostgreSQL: statements read committed data, a commit is atomic, a dropped transaction rolls back, and a second inserter of a unique key waits for the first. Connections, roles, migrations and the query side of `db.rs` are not part of this model.
- Receipts: the resources, relation and policy a receipt also records are not compared by the code and are left out; the row and its JSON copy are one record, although the copy keeps the byte count unsigned.
- ImportLaws.ImportedRowsTotal: rows dropped by `ON CONFLICT` are counted separately, because nothing in the code rules out a repeated generated id; `ImportedRowsMatchReceipts` says exactly when there are none.
- ImportLedger.KeyNamesTheImport: stations have one length, as the text of every UUID does; the digest is any text, as `apply_import` does not check its form.
- Syntax transformers: the override map and the default traversal are modelled; other overridden hooks and transformers that fail are not.
- `PriorityRunner`: the binary heap is a set with a greatest element and the wrap-around of the 64-bit submission counter is not modelled; the shared map behind `RunnerHandle` belongs to the runner.
- `JobQueue`: storage, results, observers and metrics are left out, so nothing is said about final job status; nor is it claimed that free permits are always used, since a worker asks for the next dispatch while it still holds its own permit.
- JobLaws.RunningJobsAreCancellable: needs each job id to be submitted once, as the running map has one entry per id.
- `HealthMonitor`: clock readings and probe results are inputs, probes of one sweep are recorded in the order listed, and the wrap-around of the 32-bit failure counter is not modelled. Circuits are owned by the actor's map: one is taken out, changed in place and put back.
- CircuitLaws.ProbeRateBound: needs a cooldown of at least one tick of the clock.
- `resolve_locality`, the resource locator and the access tiers: correct by reading one loop or match.
- `Syql`: the SQL parser that receives the rewritten text, and the positions it reports, are not part of this model; a span is the pair of positions the tokenizer stands at before and after the text.
- SourceMapping.SpansMapBackSoundly: is stated for spans with only ASCII before them on their lines; `SpanLaws.SpansMapBackExactly` is the law for all of them.
- `SchemaSync`: host callbacks may fail but do not panic, and one sync runs at a time, as it does behind the cluster's actor.
- `QueryBudget`: measurements are unbounded integers; `for_parsed` and `with_parameters` only fill in two fields and are left out.
- `ProvenanceLog`: the mutex around the log and its poisoning are left out.
- `DataTypes`: field metadata is a map of texts, as only its equality matters.
- Network, storage, wire formats, the binder, the SQL emitters, the ClickHouse rewrite and cost estimates, user interfaces and metrics are left out.
