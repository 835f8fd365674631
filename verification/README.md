# HydraDB: a verified model of its cores

HydraDB keeps a property graph in a key-value store on object storage. This project models the parts
of it whose correctness is hardest to see from any one function, and proves what they promise:

- **Graph artifacts.** Builders turn edge rows into a compressed sparse matrix, write it as checksummed
  chunks and publish it under a manifest, while cleaners delete what was never published
  (`ArtifactProtocol`, `Csc`, `CscChunks`, with `BinaryCodec` and `TextCodec`), and the readers take
  what the writers write and nothing else (`ArtifactReads`, `ArtifactLoads`).
- **The indexer.** A fair sweep over all scopes with a durable cursor (`ScopeSweep`), a bounded cache of
  open reader handles (`ScopeCache`) that keeps the hot ones (`ScopeHeat`), change markers that are removed once their work is durable
  (`ChangePass`), and a queue of statistics builds (`StatisticsQueue`).
- **The Bolt connection.** Messages, pipelining, RESET in the middle of a fetch, and rows given out page
  by page: a state machine over the events a connection observes (`BoltMachine`), what holds in each of
  its runs (`BoltRuns`, `BoltFrames`, `BoltReplies`, `BoltCursors`), and the connection loop as it runs,
  updating its state in place, proved to go through exactly the machine's states (`BoltConnection`).
- **The storage layout.** Values encoded so that they sort (`PropertyKeys`), key printers (`Keys`), the
  printed keys and the order they are stored in (`KeyOrder`), prefix scans and the filter in front of them (`VertexScans`), snapshot reads over segments
  and tombstones (`SegmentReads`) in a store that holds rows of any other kind too (`StoreReads`), and the
  encoder of offline images (`OfflineImage`, `ImageKeys`).
- **Smaller pieces.** The bounded cache with tenant quotas (`BoundedCache`), the reference search
  (`Reachability`) and calendar arithmetic (`Calendar`).

`Formats` writes stored forms out once more; `Decoding` and `KeyReads` say of all texts
which are read, and as what. `Base` and `Ordered` hold shared
definitions. Where the source updates something in place, the model is
a class or a method with a loop; where several actors interleave, it is a state machine and the theorems
range over every sequence of its events.

## What the theorems rest on

- *Artifact protocol.* Each guarded batch is atomic: its `Absent` and `Equals` guards are checked and its
  writes made in one step. The artifact lock is exclusive and in-process; a builder holds it from
  preparing to publishing, a cleaner claims a marker only while it holds the lock and may lose the lock
  at any time after; claim tokens are never reused.
- *Scope sweep.* One indexer, and scope names that sort like the scopes. The theorems about several cycles
  speak of one listing of the registry, from whatever cursor is stored when it is made. Store errors and
  runs that finish in any order are events of the model; that no race over the cursor is lost is proved.
- *Scope cache.* Runs hold the gate of their scope for as long as they run. A run reads the access clock
  before it takes the cache's lock, so readings and uses interleave.
- *Change pass.* The directory's compare-and-swap is atomic; others may raise watermarks between any two
  of the pass's operations. Any operation may fail, and a write reported as failed may have been applied.
- *Bolt.* A run is driven by a script of what the connection observes: frames, completed fetches,
  deadlines found to have passed.

## What the code does not promise

Some natural expectations do not hold of the code; the model keeps the code's behaviour and the
theorems say what does hold.

- A build that rewrites parts of an epoch that is already published and then fails leaves them under the
  old manifest. The epoch's contents still match its manifest exactly when the parts rewritten have the
  bytes the manifest names (`ArtifactProtocol.FailedRebuildMatches`, at a failing run
  `ArtifactProtocol.RebuildBreaksContents`). When all builds of an epoch write
  the same records, a published epoch holds exactly those (`ArtifactProtocol.PublishedHasItsContents`).
- A cycle that runs the whole registry reports a sweep exactly when the cursor was not registered or stood
  at the registry's end (`ScopeSweep.WholeSliceReports`). From anywhere between, such cycles never report,
  however many they are (`ScopeSweep.NeverReports`, at a failing run `ScopeSweep.StuckSweep`).
- The first report after a listing speaks of the scopes behind the cursor. It means that every scope was run
  exactly when the cursor was not registered or stood at the listing's end (`ScopeSweep.FirstReportMeans`;
  from every other cursor `ScopeSweep.FirstReportSkips` gives a run that skips all scopes up to it).
- Not every frame is answered. A frame is lost exactly when it is malformed with another frame
  unanswered, or comes on top of more unanswered frames than the queue holds; RESET and GOODBYE never
  are (`BoltFrames.LostExactly`, at a failing input `BoltFrames.MalformedIsLost`).
- Not every cursor is given back. A cursor is forgotten exactly when the deadline has passed as a fetch
  with it starts, or a page with other columns hands it out; at failing inputs
  `BoltCursors.DeadlineForgets` and `BoltCursors.OtherColumnsForget`. A cursor whose fetch is interrupted is
  not given back either, whether or not the fetch had begun to use it. That happens exactly when RESET,
  GOODBYE, a malformed frame, a message that finds the queue full or the end of the channel comes during a
  fetch with it; at a failing input `BoltCursors.ResetInterrupts`. Both conditions are in
  `BoltCursors.NoCursorStays`.
- Not every frame that is kept is answered. Besides GOODBYE, a frame stays without a summary exactly when it
  is in hand or queued as GOODBYE or the end of the channel comes during a fetch, or is queued behind a logon
  that is refused (`BoltReplies.UnansweredExactly`, at failing inputs `BoltFrames.GoodbyeCutsPull`,
  `BoltReplies.GoodbyeCutsQueue` and `BoltReplies.RefusalCutsQueue`).
- A build's timestamp is not always an RFC 3339 date-time: it is one exactly up to the year 9999
  (`Calendar.FormatIsDateTime`, at a failing input `Calendar.TenThousandIsLong`).
- HELLO can be skipped. A message leads to authentication exactly when it is HELLO in negotiation,
  LOGOFF when ready, or RESET after a failure before any logon (`BoltRuns.LeadsToAuthentication`, at a
  failing input `BoltRuns.ResetSkipsHello`).

## Model

| member | source | states |
|---|---|---|
| ArtifactProtocol.CleanerStepEffect | src/engine.rs:895-1250 | every step of a cleaner changes the store only in ways its guards allow: it deletes parts of its epoch only while its token stands in the marker and no manifest is there, and only its own marker is released |
| ArtifactProtocol.BuilderStepEffect | src/engine.rs:672-860 | every step of a builder writes parts of its own epoch only, and puts the manifest only while no cleanup marker is there |
| ArtifactProtocol.NextKeepsInv | src/engine.rs:672-1250 | any event of any builder or cleaner keeps the protocol invariant: tokens are unique, a builder that writes has no marker against it and its written parts are there, published epochs are complete |
| ArtifactProtocol.RunKeepsInv | src/engine.rs:672-1250 | every run of every number of builders and cleaners keeps the invariant |
| ArtifactProtocol.PublishedHasAllParts | src/engine.rs:672-724 | in every reachable state each published manifest has all the parts it names |
| ArtifactProtocol.CleanerSparesPublished | src/engine.rs:1168-1250 | no cleaner, stale or not, touches a key of an epoch whose manifest is there |
| ArtifactProtocol.PublishedForever | src/engine.rs:895-1250 | once published, an epoch keeps its manifest and all its keys through every later run |
| ArtifactProtocol.ReplacedTokenIsInert | src/engine.rs:895-1166 | a cleaner whose token was replaced changes nothing in the store any more, whatever happens later |
| ArtifactProtocol.PublishedHasItsContents | src/engine.rs:811-860 | when all builds of an epoch agree, a published epoch holds exactly the records they write |
| ArtifactProtocol.FailedRebuildMatches | src/engine.rs:811-860 | without that agreement it need not: after a failed rebuild of a published epoch the contents match its manifest if and only if every part it flushed is unnamed or has the bytes named |
| ArtifactProtocol.RebuildBreaksContents | src/engine.rs:811-860 | a run of two builds from the empty store after which a published epoch does not match its manifest |
| ArtifactProtocol.UndisturbedBuildPublishes | src/engine.rs:672-724 | from any state with the lock free, a build nobody disturbs publishes all its records and frees the lock |
| ArtifactProtocol.UndisturbedCleanupRemoves | src/engine.rs:895-1166 | an undisturbed cleanup of an unpublished epoch leaves none of its keys and no other epoch changed |
| ArtifactProtocol.LockGoesBack | src/shard/lifecycle.rs:347-364 | in every reachable state the lock is with a builder exactly while that builder works, and with a cleaner only while it has a token |
| ArtifactProtocol.LockIsTried | src/shard/lifecycle.rs:347-364 | whoever asks for the lock gets it exactly if it is free, and gives up at once if it is not |
| ArtifactProtocol.BuilderGuards | src/engine.rs:672-724 | a builder goes on to write exactly if the marker it saw still stands, which it clears, or there was none; it publishes exactly if there is no marker; else, or if anything goes wrong before, it fails, the store as it was; either end frees the lock |
| ArtifactProtocol.CleanerGuards | src/engine.rs:895-990 | the manifest turns a cleaner away at its look, its recheck and its claim, without claim or lock; without one each step leads to the next |
| ArtifactProtocol.ReleasesOwn | src/engine.rs:1120-1166 | on its way out a cleaner takes exactly its own marker away |
| ArtifactProtocol.RefusedDeleteLeaves | src/engine.rs:1168-1250 | a delete is refused exactly when the manifest is there or the marker is not the cleaner's own; the cleaner then deletes nothing and leaves |
| Csc.MatrixRows.Push | src/engine.rs:214-217 | adds exactly the pushed pair to the pairs the rows stand for |
| Csc.MatrixRows.Normalize | src/engine.rs:219-228 | leaves the same pairs in normal form and counts the distinct ones, saturating |
| Csc.RetainNormalized | src/engine.rs:219-228 | the loop that sorts, dedups and drops rows computes the normal form and the number of distinct pairs |
| Csc.NormalizedKeepsPairs | src/engine.rs:219-228 | the normal form has strictly ascending non-empty rows and exactly the original pairs |
| Csc.MatrixVertices | src/engine.rs:286-295 | the dictionary is the ascending list of all sources and destinations |
| Csc.MatrixPointers | src/engine.rs:297-312 | pointers are the running degree sums; the only error is their overflow of 64 bits |
| Csc.RowIndices | src/engine.rs:323-343 | ordinals of a row's destinations, or an error exactly when one is missing from the dictionary, naming the first |
| Csc.MatrixIndices | src/engine.rs:314-343 | ordinals of all rows in vertex order, or an error exactly when some vertex's row has a missing destination, naming the first |
| Csc.MatrixToCsc | src/engine.rs:275-284 | the missing-destination error is never raised, and the result is the matrix of the rows unless an offset overflows |
| Csc.SumIsPairCount | src/engine.rs:297-312 | degrees of normal rows add up to the number of distinct pairs |
| Csc.Validate | src/engine.rs:1660-1689 | accepts exactly the well-formed matrices |
| Csc.CscIsWellFormed | src/engine.rs:275-343 | every built matrix passes the validator, its last pointer being the sum of degrees |
| Csc.MatrixReadsBack | src/engine.rs:275-343 | reading the pointer ranges back gives the row pairs, ascending, each exactly once |
| Csc.CscReadsBack | src/engine.rs:275-343 | the same for the matrix built from any normal rows |
| Csc.RowsStorePushes | src/engine.rs:214-343 | normalising pushed rows and building stores exactly the pushed pairs, and the last pointer is their number |
| Csc.BuildFromPushes | src/engine.rs:206-343 | for every sequence of pushes: the built matrix is valid, stores exactly the pushed pairs each once, and its last pointer equals the live edge count; it fails only past 64 bits |
| BinaryCodec.ListRoundTrip | src/engine.rs:1806-1855 | wherever a list of 64-bit numbers stands, decoding there gives the list and leaves the cursor right behind it |
| Formats.LowByteFirst | src/engine.rs:1806-1855 | numbers are stored in eight bytes, the low one first |
| CscChunks.ChunkRoundTrip | src/engine.rs:1607-1636 | decoding a chunk gives the values it was encoded from |
| CscChunks.ChunkRecordsCount | src/engine.rs:1564-1570 | the number of chunks written equals the count the manifest decoder expects |
| CscChunks.ArtifactSink.Put | src/engine.rs:811-835 | adds one record to the pending batch and flushes it at its limit |
| CscChunks.ArtifactSink.Flush | src/engine.rs:837-860 | writes the pending batch and keeps the sequence of emitted records |
| CscChunks.PutAllEmits | src/engine.rs:811-860 | batching neither loses, repeats nor reorders a record, and what is written on the way are full batches of 512 behind those there were |
| CscChunks.WriteField | src/engine.rs:1483-1510 | emits the chunks of one array in order |
| CscChunks.WriteCsc | src/engine.rs:1307-1367 | emits the records of a finished matrix and its manifest |
| CscChunks.ExtendChecksum | src/engine.rs:1691-1730 | extends a checksum value by value |
| CscChunks.StreamOne | src/engine.rs:1369-1481 | looks a destination up and streams its ordinal, or names it missing |
| CscChunks.StreamRows | src/engine.rs:1369-1481 | streams all rows in vertex order; no destination is ever missing |
| CscChunks.StreamedIsChunked | src/engine.rs:1369-1481 | for every array, streaming with a bounded buffer leaves the sink, chunk count and checksum that chunking it whole leaves |
| CscChunks.StreamIndices | src/engine.rs:1369-1481 | the streamed index array is the one the whole-matrix writer would write |
| CscChunks.WriteRows | src/engine.rs:1369-1481 | the streaming writer emits the same records in the same batches and the same manifest, checksum included, as the writer of the finished matrix; on overflow it writes nothing |
| CscChunks.ManifestRoundTrip | src/engine.rs:1512-1570 | the manifest decoder accepts and inverts every manifest with consistent chunk counts |
| CscChunks.LoadFromRecords | src/engine/matrix_cache.rs:293-320 | loading the chunks of one array in order reassembles it |
| CscChunks.LoadsWhatWasWritten | src/engine/matrix_cache.rs:224-320 | loading what was written for a valid matrix passes every check and gives that matrix |
| CscChunks.RowsLoadBack | src/engine/matrix_cache.rs:224-320 | from normalised rows through chunks, manifest and checksum to the same matrix again |
| CscChunks.WriteArtifact | src/engine.rs:1369-1481 | the whole way: streamed rows through flushed batches into the store, from which the loader returns exactly the matrix of the rows, whatever the store held |
| ArtifactLoads.LoadsExactly | src/engine/matrix_cache.rs:224-320 | from any store and any manifest text the loader returns a matrix if and only if the text is that of a manifest that names the artifact, the matrix's lengths and its checksum, the chunks it counts are stored as written and hold the matrix's arrays in order, and the matrix is well formed |
| ArtifactReads.ManifestReadsExactly | src/engine.rs:1530-1570 | of all texts, a manifest is read from exactly those that are its magic, names and nine 64-bit numbers with tabs between them and any number of line ends after them, with chunks of 65536 and chunk counts that fit the lengths |
| ArtifactReads.ChunkReadsExactly | src/engine.rs:1607-1636 | a chunk is written as magic, field name behind its length, chunk number, and values behind their number, and of all byte strings it is read from exactly that one: no other field, number, length or trailing byte passes |
| ArtifactLoads.ChecksumIsFnv | src/engine.rs:1691-1730 | the checksum is FNV-1a over the bytes of the three arrays, each behind its number, low byte first |
| ArtifactLoads.DamageShows | src/engine.rs:1691-1730 | two matrices whose arrays differ in a single byte never have the same checksum |
| ArtifactLoads.DamageIsRefused | src/engine/matrix_cache.rs:224-320 | under one manifest no store loads a matrix that is one byte off the one another store loads |
| Formats.FnvVector | src/engine.rs:1725-1730 | the mixing step gives the published FNV-1a value for the byte 97 |
| ScopeSweep.PassCheckpoint | src/bin/graph-indexer.rs:2199-2240 | the cursor is there to take at every checkpoint, no race over it is lost, it moves only past scopes whose runs have finished, and it stops exactly when the store fails |
| ScopeSweep.PassCheckpoints | src/bin/graph-indexer.rs:2196-2240 | exactly the checkpoints the contiguous prefix has reached are passed, up to the first the store fails |
| ScopeSweep.MarkCompleted | src/bin/graph-indexer.rs:2188-2194 | the prefix grows to the first run that has not finished |
| ScopeSweep.RunFairSlice | src/bin/graph-indexer.rs:2135-2246 | whatever order runs finish in, every cursor move is justified by finished runs, and how far it gets is determined: to the last checkpoint the finished scopes reach, or to the first the store fails |
| ScopeSweep.BuildSlice | src/bin/graph-indexer.rs:2024-2033 | the slice is the next scopes after the cursor, wrapping, each at most once |
| ScopeSweep.HotBudgetIsMost | src/bin/graph-indexer.rs:2012-2022 | the hot budget is the largest number that is at most a quarter of the cycle's, or one, at most the concurrency, and leaves something for the sweep |
| ScopeSweep.RunSlice | src/bin/graph-indexer.rs:2004-2095 | the slice after the cursor moves it exactly that far, past scopes whose runs finished and no others, and the sweep test answers whether the registry's end was passed |
| ScopeSweep.RunCycle | src/bin/graph-indexer.rs:1919-2101 | an empty registry counts as swept; otherwise a cycle refuses exactly a bad configuration, fails exactly when the cursor cannot be loaded, a run fails or the store does, and reports a sweep exactly when the cursor moved past the registry's end |
| ScopeSweep.CycleCovers | src/bin/graph-indexer.rs:1986-2101 | what has been finished up to the cursor, from any position on, grows with every cycle, and a report completes it |
| ScopeSweep.ReportCovers | src/bin/graph-indexer.rs:3470-3496 | a reporting cycle itself covers the registry from its start to the new cursor |
| ScopeSweep.CoverageSince | src/bin/graph-indexer.rs:1986-2101 | since the last report, or since the listing, everything up to the cursor has finished a run |
| ScopeSweep.ReportMeansFullSweep | src/bin/graph-indexer.rs:3470-3496 | while the registry stays the same, a full-sweep report means every scope finished a run since the previous report's cycle inclusive |
| ScopeSweep.FirstReportMeans | src/bin/graph-indexer.rs:1986-2101 | the first report after a listing means every scope behind the cursor finished a run, and every scope if the cursor was not registered or stood at the end |
| ScopeSweep.FirstReportSkips | src/bin/graph-indexer.rs:2084-2100 | from every other cursor there is a sweep whose first report comes although no scope up to the cursor was run |
| ScopeSweep.WholeSliceReports | src/bin/graph-indexer.rs:3470-3496 | the converse fails: a slice of the whole registry reports if and only if the cursor was not registered or stood at the end |
| ScopeSweep.HealthyMoves | src/bin/graph-indexer.rs:2135-2246 | without faults a cycle moves the cursor past its whole slice and reports exactly if that passes the end |
| ScopeSweep.NeverReports | src/bin/graph-indexer.rs:3470-3496 | from a cursor between the ends, cycles over the whole registry never report, however many: each finishes every scope and ends where it began |
| ScopeSweep.StuckSweep | src/bin/graph-indexer.rs:2012-2033 | such a run from an empty cursor: one hot scope in the first cycle and no sweep is ever reported |
| ScopeSweep.SweepIsFair | src/bin/graph-indexer.rs:2024-2033 | without faults every scope finishes a run within any ceil(scopes / budget) cycles in a row |
| ScopeSweep.Sweep | src/bin/graph-indexer.rs:1907-2101 | cycle after cycle over one listing, from any stored cursor, makes a run of the kind the theorems speak of, with exactly its reports |
| BoltRuns.EveryRunOk | src/client/bolt.rs:719-1173 | at every point of every run: Ready means authenticated with no result, Streaming authenticated with one, an idle connection has worked its queue off and its last word tells whether it has failed, and the rows given out are, in order, the rows fetched |
| BoltRuns.GiveOk | src/client/bolt.rs:1744-1881 | giving out rows keeps what was given out a prefix of the pages, gives out no more than the field `n` asks for, and ends short of it only when rows and cursor are exhausted |
| BoltRuns.RowsAccountedFor | src/client/bolt.rs:1025-1112 | over a whole connection every row message gives out at most the number in its field `n`, or all if that is absent, no integer or -1, going on where the one before it of the same statement ended; PULLs send exactly what they give out; has_more is false exactly when rows and cursor are exhausted, and is told by those messages alone |
| BoltRuns.RefusesExactly | src/client/bolt.rs:1910-1933 | a row message of a stream is refused exactly when it has a `qid` other than the integer -1, or an integer `n` that is neither -1 nor positive |
| BoltRuns.LeadsToAuthentication | src/client/bolt.rs:760-849 | which messages lead to authentication, as an if-and-only-if: RESET after a failure before any logon is one |
| BoltRuns.ResetSkipsHello | src/client/bolt.rs:763-771 | a client that fails and resets gets there without HELLO |
| BoltFrames.FramesAnswered | src/client/bolt.rs:719-1173 | at every point of every run the summaries sent answer, one each and in arrival order, the first frames not lost, and what is owed beyond them is exactly the message in hand and the queue |
| BoltFrames.LostExactly | src/client/bolt.rs:1688-1698 | a frame is lost if and only if the connection reads and it is malformed with another unanswered, or comes on top of more unanswered ones than the queue holds |
| BoltFrames.PacedKeepsAll | src/client/bolt.rs:1653-1703 | a client that sends nothing malformed and, RESET and GOODBYE aside, never gets that far ahead loses nothing, however long the run: an idle connection has sent as many summaries as frames came |
| BoltFrames.ClosesExactly | src/client/bolt.rs:830-833 | the connection says goodbye exactly when GOODBYE finds it idle and is cut short exactly when GOODBYE finds it fetching |
| BoltFrames.CutExactly | src/client/bolt.rs:1684-1687 | how every connection closes: cut short if and only if GOODBYE or the end of the channel comes during a fetch, with goodbye or with the channel if and only if those find it idle |
| BoltFrames.WholeAnswered | src/client/bolt.rs:714-1178 | over a whole connection every frame kept is answered in order but for those its closing names; a refused logon is the last answered |
| BoltFrames.MalformedIsLost | src/client/bolt.rs:1696-1698 | a run in which a malformed frame is lost |
| BoltFrames.GoodbyeCutsPull | src/client/bolt.rs:1684-1687 | a run in which the PULL in hand gets no answer |
| BoltReplies.UnansweredExactly | src/client/bolt.rs:802-833 | over a whole connection a kept frame gets no summary if and only if it is the GOODBYE, is in hand or queued as the client leaves during a fetch, or is queued behind a refused logon |
| BoltReplies.GoodbyeCutsQueue | src/client/bolt.rs:1684-1687 | a run in which a queued PULL gets no answer |
| BoltReplies.RefusalCutsQueue | src/client/bolt.rs:802-828 | a run in which a PULL behind a refused logon gets no answer |
| BoltReplies.ResetAnswered | src/client/bolt.rs:1673-1683 | at every point of every run a RESET is answered with IGNORED for each frame that waits and SUCCESS for itself, unless it comes before the client has logged on |
| BoltReplies.FailedIgnores | src/client/bolt.rs:761-779 | a failed connection answers everything but RESET and GOODBYE with IGNORED, or FAILURE if malformed, and stays failed |
| BoltReplies.FailureIgnoresQueue | src/client/bolt.rs:1019-1055 | when a fetch fails its message gets FAILURE and every message queued behind it IGNORED |
| BoltReplies.AnswersExactly | src/client/bolt.rs:760-976 | every message but GOODBYE and the row messages of a stream gets the one answer the table of states gives it, with the state and the result after it; only a refused logon closes |
| BoltReplies.RowMessageGives | src/client/bolt.rs:978-1122 | a row message that is not refused gives out up to the number in its field `n`, or all, from the start of the buffer |
| BoltReplies.GivesExactly | src/client/bolt.rs:1744-1881 | which rows it gives out of the buffer, whether it then ends, what has_more it tells and what is left, or the fetch it starts and with which cursor |
| BoltReplies.PullStops | src/client/bolt.rs:1744-1775 | a PULL that comes to a row it cannot send sends exactly the rows before it and fails |
| BoltReplies.PageGives | src/client/bolt.rs:1840-1875 | a page goes to the buffer with its cursor, and the message goes on with the rows it has left |
| BoltCursors.GiveCareful | src/client/bolt.rs:1744-1881 | giving out rows loses track of no cursor |
| BoltCursors.CursorsAccountedFor | src/client/bolt.rs:1744-1881 | at every point of every run a cursor handed out was fetched with, released, forgotten or interrupted once for each time, or is held, and it was dropped exactly if some event made it so |
| BoltCursors.NoCursorStays | src/client/bolt.rs:1175-1193 | a closed connection keeps no cursor; it has forgotten one if and only if the deadline passed as a fetch with it started or a page with other columns handed it out, and interrupted one if and only if a frame or the end of the channel stopped a fetch with it |
| BoltCursors.DeadlineForgets | src/client/bolt.rs:1823-1829 | a run in which the deadline makes the connection forget a cursor |
| BoltCursors.OtherColumnsForget | src/client/bolt.rs:1850-1857 | a run in which other columns do |
| BoltCursors.ResetInterrupts | src/client/bolt.rs:1665-1683 | a run in which RESET comes between a cursor's page and its next fetch, and nobody releases it |
| BoltConnection.Connection.ClearPending | src/client/bolt.rs:1181-1193 | releases the cursor held and forgets the result |
| BoltConnection.Connection.RespondTo | src/client/bolt.rs:760-976 | the branches of the loop that give out no rows do what the machine does with the message |
| BoltConnection.Connection.IgnoreQueued | src/client/bolt.rs:1675-1680 | one IGNORED for each queued message |
| BoltConnection.Connection.AnswerReset | src/client/bolt.rs:1673-1683 | a RESET during a fetch is answered after the message in hand and the queue |
| BoltConnection.Connection.AwaitPage | src/client/bolt.rs:1653-1703 | however frames interleave with the fetch, the wait takes the machine from event to event and ends where it does |
| BoltConnection.Connection.FetchPage | src/client/bolt.rs:1776-1875 | the cursor is taken, the deadline tested and the page taken in as the machine does |
| BoltConnection.Connection.ConsumeRecords | src/client/bolt.rs:1744-1881 | the loop over rows and pages gives out the machine's rows and ends for the machine's reason |
| BoltConnection.Connection.GiveRows | src/client/bolt.rs:978-1122 | a PULL or DISCARD is answered as the machine answers it, which `BoltRuns.RefusesExactly` and `BoltReplies.GivesExactly` say by its fields |
| BoltConnection.Connection.TakeStep | src/client/bolt.rs:729-1173 | one round of the loop, the queue first |
| BoltConnection.Connection.Serve | src/client/bolt.rs:719-1173 | the loop goes through the machine's states and closes as it does, for every script of events |
| BoltConnection.RunConnection | src/client/bolt.rs:714-1178 | the whole connection sends exactly what the machine sends and closes as it does, so every theorem about the machine's runs is one about the connection |
| BoundedCache.FindVictim | src/core/cache.rs:389-409 | the eviction candidate is the least recently accessed, ties by key |
| BoundedCache.EvictNext | src/core/cache.rs:364-409 | evicting the next candidate extends the evicted prefix of the eviction order |
| BoundedCache.EvictedAreOldest | src/core/cache.rs:364-409 | whatever was evicted was unpinned or everything left in reach was pinned and, among equals, was accessed before everything left, ties by key |
| BoundedCache.Cache.constructor | src/core/cache.rs:254-272 | an empty cache is consistent and within its limits |
| BoundedCache.Cache.DecrementTenant | src/core/cache.rs:418-426 | a tenant's count goes down and vanishes at zero |
| BoundedCache.Cache.Remove | src/core/cache.rs:411-416 | removes one entry and keeps counts and bytes equal to the sums over entries |
| BoundedCache.Cache.EvictOne | src/core/cache.rs:389-409 | evicts the oldest candidate or reports that there is none |
| BoundedCache.Cache.EvictPreferred | src/core/cache.rs:364-409 | a pinned entry goes only when no unpinned candidate is left |
| BoundedCache.Cache.EnforceTenantQuota | src/core/cache.rs:364-376 | terminates within the quota having evicted exactly a prefix of the tenant's eviction order, and nothing unless the quota was exceeded, then down to the quota and no further |
| BoundedCache.Cache.EnforceTotalLimit | src/core/cache.rs:378-387 | terminates within entry and byte limits having evicted exactly a prefix of the eviction order, and no more than needed |
| BoundedCache.Cache.Get | src/core/cache.rs:282-287 | returns only the last value inserted for its key and makes it the most recent |
| BoundedCache.Cache.GetLatestBy | src/core/cache.rs:289-301 | accesses the best-scoring accepted entry, last in key order among equals |
| BoundedCache.Cache.InsertSized | src/core/cache.rs:314-351 | keeps every limit and every count; the new entry is the most recent if it stays, and no other entry that stays changes; what is evicted is a prefix of the tenant's and then of the whole eviction order; the byte counter stays exact until resident bytes exceed a machine word |
| BoundedCache.Cache.Retain | src/core/cache.rs:353-362 | removes exactly the rejected entries and keeps all counts |
| ScopeCache.PromoteMoves | src/bin/graph-indexer.rs:455-513 | promoting a handle puts it in exactly one place and dooms the one it evicts |
| ScopeCache.StepMoves | src/bin/graph-indexer.rs:270-580 | no step loses a handle or puts it in two places |
| ScopeCache.StepKeepsRuns | src/bin/graph-indexer.rs:2263-2520 | every step keeps what runs rely on about the handles they hold |
| ScopeCache.StepFits | src/bin/graph-indexer.rs:323-513 | every step keeps the residents within the limit |
| ScopeCache.ReachedKeepsInv | src/bin/graph-indexer.rs:270-580 | every interleaving of runs keeps the cache invariant |
| ScopeCache.HandlesAccountedFor | src/bin/graph-indexer.rs:396-580 | in every reachable state residents are within the limit, no handle is closed twice, and once runs are over every handle opened is resident or closed exactly once |
| ScopeCache.HeldIsNeverClosed | src/bin/graph-indexer.rs:2385-2520 | a handle some run works with is never evicted, doomed or closed |
| ScopeCache.NoDuplicateOpens | src/bin/graph-indexer.rs:323-380 | with gates held no run opens a handle for a scope that already has one resident |
| ScopeHeat.EvictsColdest | src/bin/graph-indexer.rs:455-513 | a run takes another scope's handle out only when the cache is full and the run built with a handle that found no room; no other handle that nobody uses is colder, or as cold and used before |
| ScopeHeat.PromotedExactly | src/bin/graph-indexer.rs:455-513 | a handle that found no room but built becomes resident, hot, exactly if there is room or a handle nobody uses; else it is closed and nothing changes |
| ScopeHeat.AdmittedExactly | src/bin/graph-indexer.rs:323-380 | a handle just opened becomes resident, cold, exactly if there is room; nothing is evicted for it |
| ScopeHeat.FindsResident | src/bin/graph-indexer.rs:281-291 | a lookup finds the resident handle of its scope if there is one |
| ScopeHeat.FailedGoes | src/bin/graph-indexer.rs:442-535 | a failed run's handle is closed and no longer resident |
| ScopeHeat.IdleGoes | src/bin/graph-indexer.rs:396-411 | a handle that found no room and built nothing is closed, and nothing else changes |
| ScopeHeat.EmptyGoes | src/bin/graph-indexer.rs:537-580 | a scope found without data, or no longer registered and used by no run, is not kept, and its handle is closed |
| ScopeHeat.UsedExactly | src/bin/graph-indexer.rs:281-513 | a scope's time of use is the clock reading of the last event that used it: a hit, an admission or a promotion |
| ScopeHeat.ReadsLatest | src/bin/graph-indexer.rs:281-291 | a clock reading is later than every time of use and every reading before it |
| ScopeHeat.HotExactly | src/bin/graph-indexer.rs:396-440 | in every reachable state a resident scope is hot if and only if some run built with that very handle and fewer than two runs that found it resident have ended without a build since |
| PropertyKeys.HexEncode | src/codec.rs:744-752 | two lower-case digits per byte |
| PropertyKeys.HexDecode | src/codec.rs:754-783 | decodes text of either case, or rejects an odd length or a foreign character |
| PropertyKeys.HexRoundTrip | src/codec.rs:744-783 | decoding inverts encoding |
| PropertyKeys.HexOrder | src/codec.rs:744-752 | hexadecimal text before a slash sorts like its bytes, also when one string is a prefix of the other |
| PropertyKeys.DecodeInverts | src/codec.rs:615-670 | every value comes back from its key form bit for bit |
| PropertyKeys.KeysSortLikeValues | src/codec.rs:615-670 | encoded values before a separator and an id sort exactly by type tag, then value, then id: numbers numerically, floats by the totalOrder predicate of IEEE 754, strings by bytes |
| PropertyKeys.ValuesTotallyOrdered | src/codec.rs:735-742 | of two values of a type exactly one comes before the other, or they are the same |
| PropertyKeys.ValuesOrderTransitive | src/codec.rs:735-742 | the order of values is transitive |
| Formats.ValueForm | src/codec.rs:615-626 | the encoded text of every value: its tag, then twenty digits, sixteen hexadecimal digits with the sign bit flipped or all bits inverted, or the bytes |
| Decoding.DecodesExactly | src/codec.rs:628-670 | of all texts, those decoded to a value are just its stored form, give or take a plus sign, leading zeros and the case of hexadecimal digits |
| Decoding.ParsesExactly | src/codec.rs:628-670 | a text is read as a 64-bit number exactly if it is that number in so many digits, perhaps behind a plus sign |
| Decoding.UnHexExactly | src/codec.rs:754-783 | bytes are read from exactly the texts that are their hexadecimal digits in either case |
| Keys.PrintInjective | src/keys.rs:19-314 | different rows of a cell have different keys, within and across all families but query statistics |
| Keys.SplitPrint | src/keys.rs:19-314 | a printed key splits back into its parts: cell, family, names, encoded value, numbers |
| KeyOrder.PrintsComponents | src/keys.rs:19-314 | for every family but query statistics the printed key is that family's components written out, with slashes between them, and splits into them |
| KeyOrder.VertexPropertiesSort | src/keys.rs:230-251 | the stored keys of a vertex property sort exactly by type, then value in the order of its type, then vertex |
| KeyOrder.SeeksItsKey | src/keys.rs:249-262 | a seek built from a property's prefix and an entry's suffix is the entry's key |
| KeyOrder.EdgePropertiesSort | src/keys.rs:273-282 | the stored keys of an edge property sort exactly by type, value, source, destination |
| KeyOrder.RelationshipPropertiesSort | src/keys.rs:284-304 | the stored keys of a relationship property sort exactly by type, value, source, destination, relationship |
| VertexScans.PrefixMeansComponents | src/keys.rs:88-165 | textual prefixes ending in a separator mean prefixes of components |
| VertexScans.ScanSelects | src/keys.rs:88-165 | the scan prefix of a vertex selects exactly that vertex's keys of the family in that cell |
| VertexScans.PrefixLenExtends | src/prefix_filter.rs:27-53 | when the extractor takes a prefix of an input it takes the same prefix of every extension |
| VertexScans.ScanPrefixIsHashed | src/prefix_filter.rs:27-53 | the extractor takes a vertex scan's whole prefix |
| VertexScans.FilterKeepsMatches | src/prefix_filter.rs:27-53 | for every record of a vertex the filter hashes exactly the vertex's scan prefix, so it hides no match |
| VertexScans.PrefixLenExactly | src/prefix_filter.rs:27-53 | of any input whatever the extractor takes n characters if and only if they are a cell, one of the five families, an edge type and a vertex, each complete |
| SegmentReads.ReadSegmentKey | src/codec.rs:1659-1680 | parsing inverts printing of segment keys |
| SegmentReads.ReadTombstoneKey | src/codec.rs:1682-1702 | parsing inverts printing of tombstone keys |
| SegmentReads.ReadEdgeKey | src/codec.rs:1574-1603 | parsing inverts printing of edge keys |
| KeyReads.SegmentReadsExactly | src/codec.rs:1659-1680 | of all texts, a segment key is read from exactly those that are its cell, type, source and sequence in that shape, with any segment id |
| KeyReads.TombstoneReadsExactly | src/codec.rs:1682-1702 | the same for tombstone keys |
| KeyReads.EdgeReadsExactly | src/codec.rs:1574-1603 | the same for edge keys in their three shapes, incoming ones with the destination first |
| SegmentReads.SegmentKeysSort | src/keys.rs:92-100 | segment keys of a vertex sort exactly by sequence, then segment id |
| SegmentReads.ScanTombstones | src/codec.rs:70-97 | the loop computes the visible tombstone of each destination, or fails on a malformed key |
| SegmentReads.ScanSegments | src/codec.rs:99-119 | the loop with its early break computes the fold over segments |
| SegmentReads.SegmentsMean | src/codec.rs:99-119 | stopping at the first segment past the epoch misses nothing |
| SegmentReads.OutNeighbors | src/codec.rs:10-32 | the neighbour scan merges edge records and segments |
| StoreReads.OtherFamiliesAreForeign | src/keys.rs:19-314 | a key is outside every vertex scan and edge lookup exactly when its family is none of edges, segments, tombstones and relationships |
| StoreReads.ScanFinds | src/keys.rs:68-129 | in a store with rows of any other kind, a prefix scan returns exactly the vertex's entries, in order |
| StoreReads.SegmentEdgesMean | src/codec.rs:70-119 | in such a store the segment scan gives for each destination the largest sequence at most the epoch and above its visible tombstone, and no other destination |
| StoreReads.RecordsAgree | src/codec.rs:10-53 | in such a store the record scan finds an edge exactly when the point lookup of its key does, and exactly when it is stored |
| StoreReads.LookupAgreesWithScan | src/codec.rs:10-119 | in such a store a vertex is in the neighbour scan exactly when the point lookup finds an epoch for it |
| StoreReads.LookupAnswers | src/codec.rs:34-53 | which epoch it finds, for every n: the epoch asked for if the edge record is stored, else n if and only if n is the greatest sequence of a segment that shows the edge, at most that epoch and above its visible tombstone, and none if no segment does |
| StoreReads.NeighborsMean | src/codec.rs:10-32 | the neighbours are exactly the destinations of edge records and those some segment shows at the epoch |
| StoreReads.ScanFailsExactly | src/codec.rs:70-119 | over any store at all the segment scan fails if and only if some tombstone of the vertex is unreadable or a segment reached before the first one past the epoch is |
| OfflineImage.NewEncoder | src/offline_image.rs:54-68 | exactly the cells that are valid key components get an encoder, and it has counted nothing |
| OfflineImage.Encoder.AddEdge | src/offline_image.rs:107-248 | the first relationship between two vertices adds the edge, and degrees stay the numbers of distinct edges |
| OfflineImage.Encoder.AddProperties | src/offline_image.rs:107-248 | one index row per property, and the merge pointer of the identity |
| OfflineImage.Encoder.Take | src/offline_image.rs:107-248 | the rows emitted are exactly what the relationship adds to the image |
| OfflineImage.Encoder.AddRelationship | src/offline_image.rs:107-248 | accepts exactly the acceptable relationships; a rejected one changes nothing, and the error tells which test it failed |
| OfflineImage.Encoder.FinishRows | src/offline_image.rs:358-396 | the final rows have distinct keys and are exactly the counters and pointers of the accepted relationships |
| OfflineImage.AddVertex | src/offline_image.rs:70-104 | accepts exactly valid labels and property names; a row is emitted if and only if it is the vertex itself with its record, an entry of one of its labels, or one of a property with its value |
| OfflineImage.VertexImageMeans | src/offline_image.rs:70-104 | the vertex rows of an image are those its vertices call for, whatever their order |
| OfflineImage.AllRowsMean | src/offline_image.rs:107-248 | which rows the encoder emits, said without the order of emission |
| OfflineImage.ImageHasNoTwins | src/keys.rs:64-314 | for distinct vertex and relationship ids all rows of the image have pairwise different keys |
| ImageKeys.ImagePrintsApart | src/keys.rs:64-314 | for whatever vertices and relationships the encoder takes, with distinct 64-bit ids, every key of the whole image can be printed and no two rows print alike |
| OfflineImage.CountersMatchRows | src/offline_image.rs:358-396 | degrees equal the structural edge rows per endpoint and relationship counts the relationship rows per pair |
| OfflineImage.PointerNamesIts | src/offline_image.rs:358-396 | the merge pointers of an image are exactly one for each relationship, under its identity, and it names that relationship |
| OfflineImage.LastIdIsGreatest | src/offline_image.rs:358-396 | the last relationship id of an image is the greatest taken, and there is none exactly when all ids are zero |
| OfflineImage.OrderDoesNotMatter | src/offline_image.rs:107-248 | submitting the relationships in another order gives the same rows |
| Reachability.Round | src/engine.rs:611-633 | one round finds the neighbours of the frontier not reached before |
| Reachability.Explore | src/engine.rs:611-633 | the rounds, with their early exit, reach the ball of the given radius |
| Reachability.BallIsReach | src/engine.rs:611-633 | the ball is what walks of at most that length reach |
| Reachability.NaiveReachable | src/engine.rs:611-633 | ascending, and exactly the vertices other than the root that some walk of at most `hops` edges reaches |
| ChangePass.Directory.CoveredSequence | src/engine/scope_directory.rs:237-249 | reads the durable watermark and fails exactly when the store does |
| ChangePass.Directory.TryRaise | src/engine/scope_directory.rs:253-297 | one compare-and-swap: success means the watermark has reached the sequence, undisturbed it succeeds, and no watermark is set but by others or to that sequence |
| ChangePass.Directory.Acknowledge | src/engine/scope_directory.rs:253-297 | success means a durable watermark at or above the sequence; no watermark ever goes down or is set past what others set and the sequence; undisturbed it succeeds |
| ChangePass.Directory.Delete | src/engine/scope_directory.rs:141-160 | succeeds exactly when the store does, and removes the marker unless the store failed before it |
| ChangePass.Directory.Clear | src/engine/scope_directory.rs:141-160 | removes only the given markers, and all of them if it succeeds |
| ChangePass.ReadWatermarks | src/bin/graph-indexer.rs:1856-1891 | every watermark known is durable, every cell the markers name is known at least as far as it was covered, and it fails exactly when the store does |
| ChangePass.MaximumHints | src/bin/graph-indexer.rs:1893-1905 | covers every complete marker, with sequences some marker names |
| ChangePass.AcknowledgeAll | src/bin/graph-indexer.rs:1657-1854 | what is counted as acknowledged is durable, also when an acknowledgement fails |
| ChangePass.Settle | src/bin/graph-indexer.rs:1657-1854 | after a failure-free run the markers chosen to go are justified, and without faults none is left out |
| ChangePass.Choose | src/bin/graph-indexer.rs:1670-1800 | all markers already covered and all markers the run settles, each justified; it succeeds undisturbed when the run did or all markers are covered, and with a failed run only if all of them are |
| ChangePass.ProcessScope | src/bin/graph-indexer.rs:1657-1854 | before and after every operation the store is safe: a removed marker with cell and sequence has a watermark at or above it, a bare one followed a failure-free run; watermarks rise only to what others set or the run covers; covered markers and, on success, those the run settles are gone; a failed run is reported unless all its markers are covered |
| ChangePass.RunPass | src/bin/graph-indexer.rs:1657-1854 | the same at every point of a whole pass, wherever it stops; covered markers go and, if it reports no failure or is undisturbed, so does every marker its runs settle; undisturbed it reports a failure if and only if some run failed whose markers were not all covered; no watermark is set past what others set and failure-free runs cover |
| StatisticsQueue.Position | src/bin/graph-indexer.rs:2998-3027 | the first key in arrival order that is wanted |
| StatisticsQueue.Queue.constructor | src/bin/graph-indexer.rs:2962-2970 | an empty queue is valid |
| StatisticsQueue.Queue.Push | src/bin/graph-indexer.rs:2974-2993 | a key is listed once; a hint is never demoted and a request never replaced |
| StatisticsQueue.Queue.Pop | src/bin/graph-indexer.rs:2998-3027 | the earliest eligible hinted key, failing that the earliest eligible key; it was built by no task, none is eligible if nothing comes back, and neither `expect` fails |
| StatisticsQueue.Queue.Finish | src/bin/graph-indexer.rs:3029-3031 | ends the build of that key alone |
| StatisticsQueue.WithoutLists | src/bin/graph-indexer.rs:2998-3027 | taking a key out leaves the others listed exactly once in the same order |
| Calendar.YearFound | crates/telemetry/build.rs:150-155 | the division formula finds the year of the era a day is in |
| Calendar.CivilCounts | crates/telemetry/build.rs:146-163 | for every day the result is a valid Gregorian date whose day count from the epoch is that day |
| Calendar.DayNumberInjective | crates/telemetry/build.rs:146-163 | no two dates have the same day count |
| Calendar.ConsecutiveDays | crates/telemetry/build.rs:146-163 | the next day is computed as the next date |
| Calendar.FormatIsDateTime | crates/telemetry/build.rs:146-171 | for every timestamp the fields of the text add up to it; the text fits the date-time grammar of section 5.6 of RFC 3339 if and only if the year is at most 9999, a later year taking more digits |
| Calendar.TenThousandIsLong | crates/telemetry/build.rs:146-171 | a timestamp whose text does not fit |

## Left out

- SlateDB, the object store and Tokio: the store is a map, a sequence of entries or a class with atomic operations.
- TLS, sockets, timeouts other than the statement deadline, write errors, authentication and HTTP.
- How many rows a fetch of the Bolt connection asks the service for: pages of any size are taken.
- Tracing, metrics, telemetry and environment parsing.
- Garbage collection of artifacts before an epoch (`delete_graph_artifacts_before`), which deletes published epochs on purpose.
- Matrix tiles and the 32-bit compact form of the matrix.
- The values of records are abstract in `ArtifactProtocol`; their bytes are modelled in `CscChunks`.
- Byte form of segment values and edge records: `SegmentReads` has them as values of a datatype.
- Keys are ASCII, so characters stand for bytes; the UTF-8 test on decoded strings is not modelled.
- The record form of property values and its round trip.
- Query statistics rows of the offline image, and the order of its final rows.
- Tenants and keys of the bounded cache are numbers; its metrics are not modelled.
- The scope cache is modelled on values, as a state machine over the steps between two awaits, because runs interleave; its covered-sequence bookkeeping and close errors are not modelled.
- The Bolt connection is one object; the source lends parts of it to the functions it calls.
- BoltConnection.Connection.RespondTo: what services decide (credentials, whether a statement prepares, whether routing succeeds) is part of the message.
- Keys.PrintInjective: query statistics keys are not among the families; in `StoreReads` their rows are foreign.
- ScopeSweep.RunCycle: listing the registry, which the code does again after each report, is not modelled.
- ChangePass.RunPass: scopes are processed one after another in any order; markers that others add meanwhile are not modelled, watermarks that others raise are.
- Runs of hot scopes in a cycle: they only take up budget.
- BoundedCache.Cache.InsertSized: once resident bytes have exceeded a machine word the saturated counter is no longer claimed to be exact.
- Collisions of the checksum between matrices that differ in more than one byte.
- GraphBLAS kernels and memory trimming.
- Configuration, the database cache wrapper, create-only writes, and Cypher and GQL.
