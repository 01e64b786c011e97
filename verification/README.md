# Whisper-to-Mimir conversion: a verified model

This project models the offline converter that turns Graphite Whisper archives
into Prometheus/Mimir TSDB blocks, in Dafny, and proves that it loses,
duplicates and reorders nothing. `dafny verify dfyconfig.toml` checks all of it.

The conversion has two passes. Pass 1 merges the archives of each Whisper file
into one series, cuts it at midnight UTC and appends each day's samples to that
day's log; a progress log makes it resumable. Pass 2 turns each day's log into
a block with the TSDB block builder, which sorts more series than fit in memory
by spilling sorted runs and merging them with a heap.

| module | what it models |
|---|---|
| `RunMerge` | the binary heap of lazily peeked files that merges sorted runs, imperatively |
| `SymbolsBatch`, `SeriesBatch` | the two external sorts: symbols are deduplicated, duplicate series are an error |
| `Chunks` | cutting samples into chunks of 120 |
| `Blocks`, `IndexFill` | a finished block, its writers, and how its index is filled |
| `Builders`, `Views` | the block builder, and what it holds as a value |
| `InMemory`, `CreateBlock` | the simple in-memory construction the builder is compared with |
| `ConcurrentAdd`, `BuilderRun` | interleaved calls of AddSeriesWithSamples, one locked section at a time; the builder's code as such a run |
| `LogFormat`, `UsTables` | the byte format of the logs, and the class that reads and writes them |
| `LogRecords`, `LogRecovery`, `LogSessions` | torn records, recovery after a crash, and many sessions on one file |
| `Whisper`, `WhisperFacts` | merging archives by retention windows in 32-bit arithmetic |
| `Days` | samples from points, split at midnight UTC |
| `Names`, `Labels`, `SeriesOrder` | labels from dotted names, their order, and that of series |
| `Convert` | what pass 1 makes of one file |
| `Pass1`, `SameNames` | the append-then-record protocol as a transition system with workers, crashes and restarts; files that share a name |
| `Pass1Code` | the code of its workers |
| `Pass1Files` | the same protocol on files of bytes, torn by crashes |
| `DayLogs`, `MetricsIndex`, `CustomLabels` | the logs' values, their index by labels, and labels added to all series |
| `Pass2`, `BlockDates` | one day's log to one block; which days get one |
| `Pipeline`, `AllDays` | both passes together, for one day and for all |
| `DateRange`, `Paths`, `Cursor` | the date range collector, dividing paths among workers, the sample cursor |
| `Bytes`, `Orders`, `Wrappers` | byte strings and their order, sorting, Option and Result |

The main results build on each other. `RunHeap.Advance` makes the two merges
sorts; those make `FinishBlock` produce the one block with the accepted content
(`IsBlock`), which `BuilderRefinesCreateBlock` identifies with the in-memory
path for every interleaving, and `BuildBothWays` for the code itself. The log
theorems say what reopening, indexing and reading find on a file cut at any
byte. `Pass1.CompletedRunsAgree` says that interruptions do not matter,
`Pass1Files.FileRunRefines` that this holds of the files, bytes and all,
`Pipeline.ConvertClosedDay` leads from those bytes to a day's block, and
`AllDays.SuggestedBlocksHoldArchives` from the archives through the suggested
dates to the values and times in the blocks of all days.

Where the code does not do what its comments or its purpose suggest, the model
follows the code and the exact condition is proved:

- Starting pass 1 over without resuming still reads the old progress log
  (`Pass1.RestartWithoutResuming`, with a concrete loss in
  `Pass1.SecondRunLosesMetric`).
- A torn value whose zero-padded part unmarshals is taken for a record
  (`LogRecovery.RecoveryAfterTornAppend`, concretely
  `LogRecovery.TornValuePasses`), the next session then writes into it
  (`LogSessions.SessionAfterAcceptedTear`), and the index counts any torn value
  (`LogRecovery.IndexAgreesUnlessValueTorn`).
- Stale bytes behind the records can be read as one or make reopening panic
  (`LogRecovery.RecoveryOverStaleBytes`, concretely
  `LogRecovery.StaleTextPanics`); in every other case files and protocol agree
  (`Pass1Files.RestartRefinesIff`).
- The fast path to a sentinel reports failure after a successful seek, so every
  reopening scans (`UsTables.UsTable.SeekSentinel`).
- A record with an empty key reads as a sentinel
  (`LogRecovery.ReadsBackIffNoEmptyKey`).
- The addition of a timestamp and a retention can wrap around, and then the
  newest points are dropped (`WhisperFacts.NewestPointsKeptIff`, concretely
  `WhisperFacts.NewestWrapsAround`).
- The comment at whisper.go:131 has points kept if the finer boundary is zero;
  the code then drops all of them (`WhisperFacts.ZeroBoundaryIff`, concretely
  `WhisperFacts.ZeroBoundaryLosesPoint`).
- Names that differ in empty nodes at the end share their labels
  (`Names.SameLabelsIff`, concretely `Names.TrailingDotIsLost`), and pass 2 fails
  on a day with samples under both (`Pipeline.ConvertDay`).
- Files can share a name, as a/b.wsp and a.b.wsp do; interruptions then decide
  whose samples are kept unless they are the same (`SameNames.RunsAgreeIff`).
- A negative value length can send the index around for ever
  (`UsTables.UsTable.Index`, concretely `LogFormat.IndexCanBeEndless`).
- A value over 1 GiB is written whole and read cut short
  (`LogRecords.LongValueIsCut`).
- The builder leaves out a series without samples, CreateBlock does not
  (`BuilderRun.BuildWholeBothWays`).
- The comparator of pass 2 is not the order of all label sets, but it is on
  labels of names (`Names.ComparatorMissesPrefixes`).
- A recorded end of MaxInt64 + 1 wraps around (`Views.BlockStatistics`,
  concretely `CreateBlock.EndWrapsAround`).
- main.go:262 passes the resume flag for blocks where pass 2 expects the
  overwrite flag (`BlockDates.ResumingIsInverted`, concretely
  `BlockDates.FinishedDateIsRedone`).
- With more workers than paths nobody gets any
  (`Paths.PathsForWorker`), although the comment speaks of some.
- A series with an empty label set is reported as a duplicate
  (`SeriesBatch.DrainedToDuplicate`).
- The series batcher is given the symbols' batch size
  (`Builders.Builder.constructor`); no result depends on it.

## Model

| member | source | states |
|---|---|---|
| `Pipeline.ConvertDay` | pkg/graphite/convert/whisperconverter/pass2.go:87-138 | Both passes together: on the log of any completed pass 1 run, closed and with any stale bytes behind its sentinel, pass 2 fails exactly if custom labels clash or two different names with samples that day differ in empty nodes at the end only, makes a block exactly if some metric has samples that day, and the block, read back, is strictly ordered by labels and holds exactly those metrics, each cut into full chunks of exactly its samples of that day |
| `Convert.ConvertFile` | pkg/graphite/convert/whisperconverter/pass1.go:105-123 | A file becomes its name, the labels of the name and the day split of its merged points; it has no blocks only if reading fails or yields no points |
| `Convert.PointsRise` | pkg/graphite/convert/whisperconverter/whisper.go:57-168 | Converted samples of a file pass 1 does convert, with growing retentions and one point per timestamp, are positive and strictly increasing |
| `Convert.BlocksAreDays` | pkg/graphite/convert/whisperconverter/whisper.go:173-197 | A converted file has a block for a day if and only if it has samples on it, and the block is exactly those samples |
| `Convert.ConversionIsUnique` | pkg/graphite/convert/whisperconverter/pass1.go:105-123 | A file pass 1 does convert has one conversion: however ties are sorted, every run makes the same labels, points and blocks of it, which is what resuming by name relies on |
| `Convert.DaySplitIsUnique` | pkg/graphite/convert/whisperconverter/whisper.go:173-197 | There is one way to split samples into non-empty one-day blocks that differ in day from their neighbours |
| `Convert.ReadIsUnique` | pkg/graphite/convert/whisperconverter/whisper.go:57-149 | Growing retentions and distinct timestamps leave reading one outcome |
| `Pipeline.ClosedLogLeads` | pkg/graphite/convert/whisperconverter/pass2.go:96-128 | The bytes of a closed day log, whatever follows them, lead from each name through the index to the last series appended under it, custom labels added |
| `Pipeline.DayIsConvertible` | pkg/tsdb/builder.go:366-388 | All series of a converted day can be added and told apart exactly if custom labels neither repeat a name nor have an empty one, and no two names differ in empty nodes at the end only |
| `Pipeline.CustomizedEqualIff` | pkg/graphite/convert/whisperconverter/pass2.go:124-128 | Two converted files have the same labels, custom ones added, if and only if their names differ in empty nodes at the end at most |
| `Pipeline.LabelsTellApartIff` | pkg/tsdb/series_batch.go:192-195 | So the merge can tell their series of a day apart if and only if they differ in more than that |
| `Pipeline.BlockOfViewReadsBack` | pkg/tsdb/builder.go:270-338 | A finished block, read back through its index and chunk references, is strictly sorted by labels and holds exactly the series of the log |
| `Pipeline.BlockBeginsOnDay` | pkg/graphite/convert/paths.go:52-60 | A day's block begins on that day, by which a later run recognises the day as finished |
| `Pipeline.UntaggedLabelsAreValid` | pkg/graphite/convert/tags.go:15-25 | Labels made from a name pass the check for non-empty, strictly increasing label names |
| `AllDays.BlocksMakeUpPoints` | pkg/graphite/convert/whisperconverter/pass2.go:87-138 | Over consecutive dates that cover a converted file, what the blocks of these days hold under its labels, one after the other, is one sample for each converted point: its value, at 1000 times its timestamp |
| `AllDays.SuggestedBlocksMakeUpPoints` | cmd/mimir-whisper-converter/main.go:192-262 | From one end to the other: over the dates the daterange command suggests for the files, however its workers interleave, the blocks of both passes hold under a file's labels one sample for each converted point: its value, at 1000 times its timestamp |
| `AllDays.SuggestedBlocksHoldArchives` | pkg/graphite/convert/whisperconverter/whisper.go:46-149 | And so from the archives on: these blocks hold, in the order of time, exactly the points that lie in their archive within its retention and beyond that of the next finer one |
| `AllDays.BlocksMakeUpDays` | pkg/graphite/convert/whisperconverter/pass2.go:87-138 | Over any dates, the blocks hold under a file's labels exactly its samples of these days, provided no other converted file has its nodes |
| `AllDays.BlockGivesDay` | pkg/graphite/convert/whisperconverter/pass2.go:87-138 | A day's block holds under the labels of a metric exactly its samples of that day |
| `Pass1.RunKeepsInv` | pkg/graphite/convert/whisperconverter/pass1.go:104-167 | In every state of every interleaving of workers, crashes and resumed runs: what the progress log lists is completely in the day logs, every record is right, no file is forgotten |
| `Pass1.StepKeepsInv` | pkg/graphite/convert/whisperconverter/pass1.go:105-165 | Each single step (taking a file, appending one block, recording progress, restarting) keeps that invariant |
| `Pass1.TakeHolds` | pkg/graphite/convert/whisperconverter/pass1.go:105-126 | Taking or skipping a file, with its blocks in any order, keeps the invariant |
| `Pass1.WriteHolds` | pkg/graphite/convert/whisperconverter/pass1.go:129-149 | Appending one block to the log of its day, if that day was asked for, keeps the invariant |
| `Pass1.RecordHolds` | pkg/graphite/convert/whisperconverter/pass1.go:153-158 | Recording a metric once its blocks are written keeps the invariant, as files of one name have the same entries |
| `Pass1.RestartHolds` | pkg/graphite/convert/whisperconverter/pass1.go:36-55 | Ending anywhere and starting anew with resuming keeps the invariant |
| `Pass1.CompletedRunHoldsDays` | pkg/graphite/convert/whisperconverter/pass1.go:36-58 | After any completed run each day log maps exactly the metrics with samples on that day to their one right block, even where records were appended twice |
| `Pass1.CompletedRunsAgree` | pkg/graphite/convert/whisperconverter/pass1.go:19-25 | Any two completed runs, interrupted or not, leave the same name-to-record view of every day |
| `Pass1.DistinctNamesAgree` | pkg/graphite/convert/whisperconverter/pass1.go:153-158 | With distinct metric names that is so |
| `Pass1.StoredAlike` | pkg/graphite/convert/whisperconverter/pass1.go:129-149 | What is stored of one file is then stored of every other of its name |
| `SameNames.RunsAgreeIff` | pkg/graphite/convert/whisperconverter/pass1.go:109-158 | Any two completed runs agree on every asked-for day if and only if files that share a name have the same entries for these days; for metrics with one block a day, as converted ones have |
| `SameNames.OneFileCanSettle` | pkg/graphite/convert/whisperconverter/pass1.go:109-158 | Each file of a name can be the one that makes it: for each there is a run with one crash after which the logs hold this file's blocks and no other's under the name |
| `SameNames.DifferentFilesDisagree` | pkg/graphite/convert/whisperconverter/pass1.go:109-158 | Two files of one name that differ on an asked-for day lead to completed runs that differ |
| `Pass1.RestartWithoutResuming` | pkg/graphite/convert/whisperconverter/pass1.go:36-44 | A run begun without resuming, and resumed as often as may be, ends with every asked-for day complete if and only if no metric the old progress log lists has a block for such a day |
| `Pass1.ListedOutputIsLost` | pkg/graphite/convert/whisperconverter/pass1.go:36-44 | A listed metric with output is missing from its day log after any such run: it is skipped, and nothing writes it again |
| `Pass1.SecondRunLosesMetric` | pkg/graphite/convert/whisperconverter/pass1.go:36-44 | A concrete pair of runs: the second, without resuming, skips the only metric and ends with an empty log |
| `Pass1Code.IntermediateFiles.CreateIntermediateFromChan` | pkg/graphite/convert/whisperconverter/pass1.go:104-167 | The loop of one worker, which converts each file when it takes it, only ever makes steps of the protocol, from the first file to the last |
| `Pass1Code.IntermediateFiles.TakeFile` | pkg/graphite/convert/whisperconverter/pass1.go:105-126 | Taking a file, skipping it by name, converting it and shuffling its blocks is one step of the protocol |
| `Pass1Code.ConvertsToOne` | pkg/graphite/convert/whisperconverter/pass1.go:112-123 | What a worker makes of a file is what the protocol has it convert to |
| `Pass1Code.IntermediateFiles.TakeTurn` | pkg/graphite/convert/whisperconverter/pass1.go:105-158 | What a worker does between two points where others may come in is one step of the protocol |
| `Pass1Code.IntermediateFiles.CommandPass1` | pkg/graphite/convert/whisperconverter/pass1.go:25-59 | A whole command, with any number of workers taking turns in any order, is a restart followed by protocol steps, and comes to a completed state |
| `Pass1.TurnIsWork` | pkg/graphite/convert/whisperconverter/pass1.go:104-167 | Every step of a worker brings the end nearer |
| `Pass1Code.IntermediateFiles.AppendBlock` | pkg/graphite/convert/whisperconverter/pass1.go:129-149 | Only the log of the block's day changes, and only if there is one |
| `Pass1.ReachesKeepsInv` | pkg/graphite/convert/whisperconverter/pass1.go:104-167 | Whatever a run of the worker code reaches satisfies the invariant |
| `Pass1Code.Shuffle` | pkg/graphite/convert/whisperconverter/pass1.go:124-126 | Shuffling keeps every block, with multiplicity |
| `Pass1Files.ProgressLogReopens` | pkg/graphite/convert/whisperconverter/pass1.go:44-44 | As progress records have empty values, reopening that log after a crash at any byte finds exactly the whole records |
| `Pass1Files.FileRunRefines` | pkg/graphite/convert/whisperconverter/pass1.go:25-167 | Every run on files of bytes, with appends at the head, crashes that tear them and clean reopening, is a run of the protocol whose logs the files hold |
| `Pass1Files.RestartRefinesIff` | pkg/graphite/convert/ustable.go:86-119 | After any end of the program, tearing any append or close, the reopened files hold the logs of the protocol's restart if and only if in none of them anything behind the whole records is read as a record or makes the reader panic |
| `Pass1Files.StepRefines` | pkg/graphite/convert/whisperconverter/pass1.go:104-167 | So is each step: a worker's move or a clean restart |
| `Pass1Files.ReopenedDayIsLog` | pkg/graphite/convert/ustable.go:86-96 | A day log reopened by scanning after any crash has its head exactly behind its whole records if and only if reading stops there |
| `Pass1Files.ReopenedProgressIsLog` | pkg/graphite/convert/ustable.go:100-119 | So has the progress log reopened by its index, which then lists exactly the names recorded |
| `Pass1Files.FirstCrashIsClean` | pkg/graphite/convert/ustable.go:189-285 | After a first crash in an append to a day log, new or cleanly closed, reopening is clean if and only if no torn value passes for a whole one |
| `Pass1Files.TornCloseIsClean` | pkg/graphite/convert/ustable.go:173-285 | After a crash at any byte of a day log's close it is clean |
| `Pass1Files.TornProgressIsClean` | pkg/graphite/convert/ustable.go:189-349 | So it is for the progress log, opened by its index, after a crash at any byte of an append |
| `Pass1Files.TornProgressCloseIsClean` | pkg/graphite/convert/ustable.go:173-349 | And after a crash at any byte of its close |
| `Pass1Files.ClosedDayLog` | pkg/graphite/convert/whisperconverter/pass1.go:36-58 | A run on files that ends and closes its logs leaves each day the records of a completed run of the protocol, the sentinel, and stale bytes at most |
| `Pipeline.ConvertClosedDay` | pkg/graphite/convert/whisperconverter/pass2.go:87-138 | Pass 2 on such a file fails exactly as ConvertDay says and otherwise gives the block of exactly the day's samples: from bytes to blocks, through crashes |
| `Pass2.CreateOneBlock` | pkg/graphite/convert/whisperconverter/pass2.go:87-138 | For every file: succeeds if and only if it can be indexed, every entry of the index reads, decodes and can be added, and the series are told apart by their labels; yields nothing exactly for an empty index, and otherwise the block of exactly those series; an error is that of an entry that fails, or of the index, or of equal labels |
| `Pass2.AddAll` | pkg/graphite/convert/whisperconverter/pass2.go:111-135 | The loop over the index succeeds only if each entry reads, decodes and can be added, and then the builder holds exactly their series; otherwise it stops with the error of an entry that fails |
| `Pass2.AddIndexed` | pkg/graphite/convert/whisperconverter/pass2.go:113-134 | One entry: an error exactly if reading it stops or panics, its samples do not increase from above 0, or its label names with the custom ones are not valid; otherwise exactly its series is added |
| `Pass2.LeadingViewsAlike` | pkg/graphite/convert/whisperconverter/pass2.go:124-128 | Whichever way ties among labels are sorted, the log leads to the same series, or to ones that are refused alike |
| `CustomLabels.Customize` | pkg/graphite/convert/whisperconverter/pass2.go:124-128 | The custom labels, if any, are appended and all is sorted by name |
| `CustomLabels.CustomizedOnce` | pkg/graphite/convert/whisperconverter/pass2.go:124-128 | How ties are sorted does not matter: such labels are refused in any order, and others have one order |
| `CustomLabels.CustomizedIsValidIff` | pkg/graphite/convert/whisperconverter/pass2.go:124-128 | Labels with custom ones added are valid if and only if no name is empty or repeated |
| `CustomLabels.CustomizedStaysDistinct` | pkg/graphite/convert/whisperconverter/pass2.go:124-128 | Custom labels do not make different label sets equal |
| `CustomLabels.ValidNamesIff` | pkg/tsdb/builder.go:366-373 | The builder's check passes exactly label names that are not empty and strictly increase |
| `MetricsIndex.BuildMetricsIndex` | pkg/graphite/convert/whisperconverter/pass2.go:52-70 | Every name once, with its position and its labels; no entry's labels come after those of a later entry |
| `MetricsIndex.LabelsCompareOrders` | pkg/graphite/convert/whisperconverter/pass2.go:65-67 | On labels of names, "compare is -1" is a strict weak order |
| `Pass2.OneMoreAdded` | pkg/tsdb/builder.go:127-154 | Adding a series without time bounds succeeds exactly if it is addable, and then adds exactly its chunks and strings |
| `Pass2.FinishesIfDistinct` | pkg/tsdb/series_batch.go:177-202 | The final merge succeeds exactly if the labels of all series are distinct and not empty |
| `Builders.Builder.AddSeriesWithSamples` | pkg/tsdb/builder.go:127-154 | The outcome and the new content, for every stream and labels: nothing on faulty samples or if none is in range, else symbols and chunks, and the series if its label names are valid |
| `Builders.Builder.FinishBlock` | pkg/tsdb/builder.go:163-228 | Succeeds if and only if the accepted series are distinct by non-empty labels, and reports a duplicate otherwise; the result is the one block with these symbols and series in order |
| `Builders.Builder.constructor` | pkg/tsdb/builder.go:105-122 | A new builder holds the empty symbol only; both batchers get the symbols' batch size |
| `Builders.Builder.AddSymbols` | pkg/tsdb/builder.go:407-421 | Adds exactly the names and values of the labels |
| `Builders.Builder.AddSeries` | pkg/tsdb/builder.go:366-388 | Refuses exactly unsorted, repeated or empty label names, or a chunk without reference; otherwise adds the series with bare references |
| `Builders.AcceptedChunks` | pkg/tsdb/builder.go:136-153 | Chunks just written for a series resolve to its own samples |
| `Views.SeriesAddedKeepsSound` | pkg/tsdb/builder.go:384-387 | Accepting a sound series keeps every reference and symbol resolvable and adds exactly that series |
| `Views.SymbolsAddedKeepsSound` | pkg/tsdb/builder.go:407-421 | Adding symbols changes no accepted series |
| `Views.ChunksWrittenKeepsSound` | pkg/tsdb/builder.go:392-405 | Writing chunks changes what no accepted series refers to |
| `Views.WrittenChunksResolve` | pkg/tsdb/builder.go:392-405 | References given to written chunks load them back unchanged, with their time ranges |
| `Views.BlockStatistics` | pkg/tsdb/builder.go:243-248 | Series, chunk and sample counts are those of the stored data; the recorded range begins at the first timestamp and ends right after the last, and holds all of them if and only if the last is not the greatest int64 |
| `CreateBlock.EndWrapsAround` | pkg/tsdb/builder.go:243-248 | A concrete series ending at the greatest int64: CreateBlock accepts it, and any block of it records the least int64 as its end, before all samples |
| `CreateBlock.CreateLastPossible` | pkg/tsdb/builder.go:501-556 | CreateBlock makes that block |
| `Views.TotalsSpanSamples` | pkg/tsdb/builder.go:301-310 | minT and maxT are the least and the greatest stored timestamp |
| `Blocks.BlockIsUnique` | pkg/tsdb/builder.go:163-228 | Symbols and series determine the block |
| `Blocks.BlockReadsBack` | pkg/tsdb/builder.go:290-330 | Every chunk reference in a block's index leads back to the chunk it was made for |
| `Blocks.TotalsAreExact` | pkg/tsdb/builder.go:286-311 | Counts are exact sums; minT and maxT are tight bounds of the chunk ranges |
| `Blocks.ChunkWriter.WriteChunks` | pkg/tsdb/builder.go:313-323 | The chunk writer's contract: appends the chunks and assigns fresh non-zero references in order |
| `Blocks.IndexWriter.AddSymbol` | pkg/tsdb/builder.go:348-351 | The index writer's contract: symbols only in strictly increasing order |
| `Blocks.IndexWriter.AddSeries` | pkg/tsdb/builder.go:326-330 | The index writer's contract: series in increasing order, known symbols, chunks in order |
| `IndexFill.AddSymbolsToIndexWriter` | pkg/tsdb/builder.go:340-364 | The index gets exactly the distinct symbols of all files, strictly increasing, and never refuses one |
| `IndexFill.AddSeriesToIndex` | pkg/tsdb/builder.go:270-338 | Succeeds exactly for distinct series; writes all of them in label order with their own chunks and exact totals |
| `IndexFill.WriteSeries` | pkg/tsdb/builder.go:287-331 | One round: loads, counts, writes and indexes the chunks of one series |
| `IndexFill.LoadAndCount` | pkg/tsdb/builder.go:291-311 | Loads every chunk by reference or reports one that is missing; counts each |
| `CreateBlock.CreateBlock` | pkg/tsdb/builder.go:501-556 | Succeeds exactly if labels strictly increase from the empty set and all samples can be cut, and otherwise fails with the fault of the first series where they do not; the result is the one block of those series |
| `CreateBlock.AddSortedInMemorySeriesToIndex` | pkg/tsdb/builder.go:558-605 | Writes exactly the given series, in order, with exact totals, or fails exactly at a series out of order or with faulty samples |
| `CreateBlock.AddSortedInMemorySeriesSymbolsToIndex` | pkg/tsdb/builder.go:607-633 | The index gets "" and all strings of all labels, once each, in order |
| `ConcurrentAdd.BuilderRefinesCreateBlock` | pkg/tsdb/builder.go:125-228 | However concurrent additions interleave and whatever the order, any block with the content they leave equals the one CreateBlock makes of the sorted series, cut to the builder's time bounds and without those that keep no sample |
| `ConcurrentAdd.BuilderAndCreateBlockFailTogether` | pkg/tsdb/builder.go:558-568 | The merge rejects a set of series exactly when CreateBlock rejects these, sorted |
| `ConcurrentAdd.StepKeepsInv` | pkg/tsdb/builder.go:127-154 | Each locked section keeps: symbols present, references non-zero and leading to the call's own chunks |
| `ConcurrentAdd.RunKeepsInv` | pkg/tsdb/builder.go:127-154 | So does every interleaving of any length: the index can name no missing symbol and no foreign chunk |
| `ConcurrentAdd.MoveHolds` | pkg/tsdb/builder.go:366-421 | One call's next section keeps what it has stored and adds nothing but its own |
| `ConcurrentAdd.UninterruptedCall` | pkg/tsdb/builder.go:127-154 | A call whose sections are not interleaved does exactly what the method's contract says |
| `ConcurrentAdd.CompletedRunHoldsAll` | pkg/tsdb/builder.go:127-154 | When all calls have succeeded the builder holds exactly the series and symbols of those that keep samples |
| `BuilderRun.BuildBothWays` | pkg/tsdb/builder.go:81-633 | The code of both ways, the builder with any time bounds, order and batch size, CreateBlock on the sorted series within those bounds: equal blocks, and success together except for what only the builder sees, faults outside the bounds and the order of label names |
| `BuilderRun.BuildWholeBothWays` | pkg/tsdb/builder.go:81-633 | On the very same series, without bounds: the blocks are equal if and only if every series has samples, as the builder leaves out those without and CreateBlock indexes them; when CreateBlock succeeds the builder does exactly if it accepts every call |
| `BuilderRun.BuildBlock` | pkg/tsdb/builder.go:81-228 | Feeding a builder and finishing is a run of the locked sections; it succeeds exactly if every call is accepted and the labels of the series kept are distinct and not empty, and gives the one block of those |
| `BuilderRun.CallIsMoves` | pkg/tsdb/builder.go:127-154 | What a method call does is a sequence of the locked sections, the converse of UninterruptedCall |
| `Chunks.SamplesToChunks` | pkg/tsdb/builder.go:426-490 | Succeeds if and only if the iterator does and every item is a float later than 0 and than all samples kept before; then exactly the samples in range are cut into chunks of 120, the last one of at most 120; otherwise the first fault decides |
| `Chunks.KeptAre` | pkg/tsdb/builder.go:455-460 | Kept are exactly the floats not before a non-zero lower bound and before a non-zero upper one |
| `Chunks.FaultIs` | pkg/tsdb/builder.go:444-453 | After faultless items the next is at fault exactly if it is not a float, or not later than 0 and than every sample kept before, even if it would be skipped |
| `Chunks.ChunkIs` | pkg/tsdb/builder.go:462-487 | Chunk k holds samples number 120 k up to 120 (k + 1) or the end, with the first and the last timestamp |
| `Chunks.ChunksPartitionSamples` | pkg/tsdb/builder.go:434-487 | Concatenated, the chunks are the samples; all but the last hold 120, none is empty, ranges are first and last timestamp |
| `Chunks.ChunkingIsUnique` | pkg/tsdb/builder.go:434-487 | These properties leave only one way to cut |
| `Chunks.ChunkRangesIncrease` | pkg/tsdb/builder.go:462-481 | Chunk ranges of increasing samples are disjoint and increasing |
| `Chunks.FaultlessStreamIncreases` | pkg/tsdb/builder.go:444-477 | What is kept of a faultless stream is positive and strictly increasing, whatever the time bounds |
| `Chunks.AllKeptIffPositiveIncreasing` | pkg/tsdb/builder.go:444-477 | Without time bounds exactly positive, strictly increasing samples are accepted, and all are kept |
| `RunMerge.RunHeap.Advance` | pkg/tsdb/series_batch.go:177-190 | One turn of the merge: takes a least unread item, or drops an exhausted reader, and restores the heap |
| `RunMerge.RunHeap.Down` | pkg/tsdb/series_batch.go:113-131 | Sift-down restores heap order below a position, keeping all readers |
| `RunMerge.RunHeap.Init` | pkg/tsdb/series_batch.go:170-170 | Establishes heap order over arbitrary readers |
| `RunMerge.RunHeap.FixRoot` | pkg/tsdb/series_batch.go:190-190 | Restores heap order after the root's reader moved on |
| `RunMerge.RunHeap.RemoveRoot` | pkg/tsdb/series_batch.go:180-184 | Drops the exhausted root, keeping every unread item |
| `RunMerge.RunHeap.Less` | pkg/tsdb/series_batch.go:113-126 | Compares peeked heads; an exhausted reader counts as the zero value |
| `RunMerge.RunHeap.constructor` | pkg/tsdb/series_batch.go:154-173 | Opens all files and holds exactly their items |
| `RunMerge.RunReader.Peek` | pkg/tsdb/series_batch.go:231-239 | Peeking returns the next item and does not consume it |
| `RunMerge.RunReader.Next` | pkg/tsdb/series_batch.go:242-253 | Next consumes exactly one item, peeked before or not |
| `RunMerge.RootIsLeast` | pkg/tsdb/series_batch.go:113-126 | In a heap the root holds a least key |
| `RunMerge.SinkOneLevel` | pkg/tsdb/series_batch.go:129-131 | Swapping with the least child moves the only violation one level down |
| `RunMerge.RootRunHasLeastItem` | pkg/tsdb/series_batch.go:177-190 | With sorted files, nothing unread in any file is below the root's next item |
| `SeriesBatch.SeriesBatcher.AddSeries` | pkg/tsdb/series_batch.go:43-51 | Adds exactly one series, whatever is spilled |
| `SeriesBatch.SeriesBatcher.FlushSeries` | pkg/tsdb/series_batch.go:53-72 | Spills a sorted run when forced or full; loses and duplicates nothing |
| `SeriesBatch.SeriesIterator.NextSeries` | pkg/tsdb/series_batch.go:177-202 | Returns a least unread series if it sorts after the last one, reports a duplicate otherwise, and the end exactly when nothing is unread |
| `SeriesBatch.DrainedStep` | pkg/tsdb/series_batch.go:177-202 | Each series returned extends a strictly sorted prefix of all series |
| `SeriesBatch.DrainedCompletely` | pkg/tsdb/series_batch.go:201-201 | Reaching the end means: all series distinct, each returned once |
| `SeriesBatch.DrainedToDuplicate` | pkg/tsdb/series_batch.go:192-195 | An error means the series are not distinct (or a label set is empty), names the offending labels, and everything that sorts before them has been returned |
| `SymbolsBatch.SymbolsBatcher.AddSymbol` | pkg/tsdb/symbols_batch.go:38-41 | Adds exactly one symbol to the set |
| `SymbolsBatch.SymbolsBatcher.FlushSymbols` | pkg/tsdb/symbols_batch.go:43-64 | Spills a strictly sorted run when forced or full; the set stays |
| `SymbolsBatch.SymbolsIterator.NextSymbol` | pkg/tsdb/symbols_batch.go:170-195 | Returns the least symbol not yet returned, once, including "", and the end exactly when there is none |
| `Labels.BeforeOrdersLabelSets` | pkg/tsdb/series_batch.go:66-68 | The sign of labels.Compare is a strict total order of label sets |
| `Labels.BeforeIff` | pkg/tsdb/series_batch.go:66-68 | That order: at the first difference the smaller label name decides, then the smaller value, and a proper prefix comes first |
| `Bytes.LessIff` | pkg/tsdb/symbols_batch.go:55-59 | The order of strings: at the first difference the smaller byte decides, and a proper prefix comes first |
| `Names.LabelsFromUntaggedName` | pkg/graphite/convert/tags.go:15-25 | The labels of a name, in bytes: each non-empty node under its number, nothing else but __name__ = graphite_untagged, which is last, and all in the order of names |
| `Names.NodeNameIs` | pkg/graphite/convert/tags.go:20-20 | The label name of node i: __n, i with at least three digits, and __; byte for byte below 1000 |
| `Names.NodesHaveNoDots` | pkg/graphite/convert/tags.go:19-19 | No node has a dot in it |
| `Names.SplitIsUnique` | pkg/graphite/convert/tags.go:19-19 | The nodes of a name are the one list of strings without dots that gives the name when joined with dots |
| `Names.SameLabelsIff` | pkg/graphite/convert/tags.go:15-25 | Two names share their labels if and only if they differ in empty nodes at the end only |
| `Names.ProperNamesHaveOwnLabels` | pkg/graphite/convert/tags.go:15-25 | Names whose last node is not empty have the same labels only if they are equal |
| `Names.TrailingDotIsLost` | pkg/graphite/convert/tags.go:19-21 | "a" and "a." get the same labels |
| `Names.SplitJoins` | pkg/graphite/convert/tags.go:19-19 | Joining the nodes of a name with dots gives the name back |
| `Names.ComparatorIsLabelOrder` | pkg/graphite/convert/whisperconverter/pass2.go:65-67 | On labels of names the comparator of pass 2 (equal to -1) is the order of label sets |
| `Names.ComparatorMissesPrefixes` | pkg/graphite/convert/whisperconverter/pass2.go:65-67 | The comparator (equal to -1) misses exactly proper prefixes shorter by more than one label |
| `Names.LabelOrderIsNodeOrder` | pkg/graphite/convert/whisperconverter/pass2.go:52-70 | For names of fewer than 1000 nodes that order goes by nodes from the left, a longer name before its own prefix |
| `Names.LabelsBuilder.Labels` | pkg/graphite/convert/tags.go:24-24 | The label builder's contract: all labels, sorted by name |
| `UsTables.UsTable.Append` | pkg/graphite/convert/ustable.go:189-218 | Writes exactly one encoded record at the head, or nothing at all on an error |
| `UsTables.UsTable.Close` | pkg/graphite/convert/ustable.go:173-184 | Writes the sentinel at the head if appending |
| `UsTables.UsTable.ReadRecord` | pkg/graphite/convert/ustable.go:386-463 | Agrees with the parser on every file and position, torn or whole, including lengths that make the allocation panic and the 1 GiB one read takes at most; on an error the head is back where it was |
| `UsTables.UsTable.ReadValue` | pkg/graphite/convert/ustable.go:467-493 | Agrees with the parser, including short reads that leave zeros |
| `UsTables.UsTable.Next` | pkg/graphite/convert/ustable.go:352-361 | Reads at the head, in READ mode only |
| `UsTables.UsTable.ReadAt` | pkg/graphite/convert/ustable.go:370-379 | Reads at a given position, in READ mode only |
| `UsTables.UsTable.SeekSentinel` | pkg/graphite/convert/ustable.go:290-310 | Never reports a sentinel when seeking works |
| `UsTables.UsTable.SeekLastValid` | pkg/graphite/convert/ustable.go:224-285 | Leaves the head where reading record after record stops, and panics exactly if that does |
| `UsTables.UsTable.Index` | pkg/graphite/convert/ustable.go:316-349 | On every file: each key's last position and the head where skipping over values stops; or it panics, exactly if a key length does; or it never ends, exactly if a value length leads it around |
| `LogFormat.EndsSoon` | pkg/graphite/convert/ustable.go:316-349 | The index scan ends within as many turns as the file has bytes, or never |
| `LogFormat.IndexCanBeEndless` | pkg/graphite/convert/ustable.go:316-349 | A concrete file of 17 bytes whose only record leads back to its own beginning: indexing it never ends |
| `UsTables.UsTable.ForAppend` | pkg/graphite/convert/ustable.go:124-151 | Creates, empties or opens the file, head at the start |
| `LogFormat.LengthRoundTrip` | pkg/graphite/convert/ustable.go:202-202 | A length up to the greatest int64 is read as it was written |
| `LogFormat.EncodeLengthIs` | pkg/graphite/convert/ustable.go:202-202 | A length is written as eight bytes, the least significant first |
| `LogFormat.DecodeInt64Is` | pkg/graphite/convert/ustable.go:409-413 | Eight bytes are read as two's complement, the least significant first |
| `LogFormat.SentinelIs` | pkg/graphite/convert/ustable.go:496-507 | The sentinel is eight zeros and the bytes of SENTINEL |
| `LogFormat.ReadPaddedIs` | pkg/graphite/convert/ustable.go:480-481 | One read fills a buffer with up to 2^30 bytes as far as the file goes, and leaves zeros behind |
| `LogFormat.NoRecordIf` | pkg/graphite/convert/ustable.go:407-440 | What no record is read from, in bytes: fewer than eight bytes, a length below 0 or above 2^48 (a panic), nothing behind the length, or a zero length and whatever follows it |
| `LogFormat.StorableIff` | pkg/graphite/convert/ustable.go:189-218 | What reads back: a key, and key and value of at most 2^30 bytes each |
| `LogRecords.WholeRecord` | pkg/graphite/convert/ustable.go:386-463 | A whole record with key and value of at most 1 GiB reads back as written, whatever follows |
| `LogRecords.LongValueIsCut` | pkg/graphite/convert/ustable.go:467-493 | A longer value comes back cut at 1 GiB and filled up with zeros, and the next read begins inside it |
| `LogRecords.HeaderDecides` | pkg/graphite/convert/ustable.go:386-493 | After a whole header the value is whatever follows, as much as declared, padded with zeros |
| `LogRecords.TornHeader` | pkg/graphite/convert/ustable.go:409-440 | A record cut inside its header is not read |
| `LogRecords.TornValue` | pkg/graphite/convert/ustable.go:480-490 | A record cut inside its value is read if and only if the zero-padded part unmarshals; skipping goes beyond the end |
| `LogRecords.TornOverSentinel` | pkg/graphite/convert/ustable.go:202-216 | A record torn over an old sentinel is not read |
| `LogRecovery.RecoveryAfterTornAppend` | pkg/graphite/convert/ustable.go:189-285 | After a crash at any byte of an append, new file or over a sentinel, reopening ends exactly after the last whole record, unless the torn value's padding unmarshals; then at the end of the file |
| `LogRecovery.TornValuePasses` | pkg/graphite/convert/ustable.go:480-490 | A concrete torn record whose padding is accepted: another record is read, and the head is at the end of the file |
| `LogRecovery.RecoveryAfterTornClose` | pkg/graphite/convert/ustable.go:173-285 | A crash at any byte of a close loses nothing |
| `LogRecovery.RecoveryOverStaleBytes` | pkg/graphite/convert/ustable.go:224-285 | Whatever bytes follow the whole records, reopening ends after them if and only if reading there stops: the bytes neither start with something read as a record nor with a length that makes the slice allocation panic |
| `LogRecovery.StaleTextPanics` | pkg/graphite/convert/ustable.go:272-274 | Stale bytes that begin with text, such as "carbon.a", make reopening panic |
| `LogRecovery.IndexAfterTornAppend` | pkg/graphite/convert/ustable.go:316-349 | The index after the same crash: exact if the header is torn; lists the torn record and overshoots the file if the value is |
| `LogRecovery.IndexAgreesUnlessValueTorn` | pkg/graphite/convert/ustable.go:316-349 | Both ways of reopening agree on where to append if and only if no value is torn |
| `LogRecovery.ClosedLogReadsBack` | pkg/graphite/convert/ustable.go:352-361 | A closed log reads back record by record, then reports the sentinel with the head unmoved |
| `LogRecovery.ReadsBackIffNoEmptyKey` | pkg/graphite/convert/ustable.go:415-434 | A log reads back completely if and only if no key is empty |
| `LogRecovery.IndexLeadsToLastValues` | pkg/graphite/convert/ustable.go:316-379 | Reading at the indexed position of a key gives the key and its last value |
| `LogRecovery.LastRecordWins` | pkg/graphite/convert/ustable.go:316-349 | The index points at the last record of each key, and that has its last value |
| `LogRecovery.ClosedLogIndex` | pkg/graphite/convert/ustable.go:316-349 | The index of a closed log ends before the sentinel |
| `LogSessions.AppendSession` | pkg/graphite/convert/ustable.go:86-96 | One open-append-close session leaves exactly the specified file |
| `LogSessions.ReadAll` | pkg/graphite/convert/ustable.go:352-361 | Calling Next until it fails gives exactly the records the parser finds |
| `LogSessions.SessionsRoundTrip` | pkg/graphite/convert/ustable.go:86-218 | After any number of sessions the file is all records in order and one sentinel |
| `LogSessions.SessionAfterCrash` | pkg/graphite/convert/ustable.go:86-285 | After a crash whose torn value was not accepted and one more session, reading returns the whole records of before and those of the session |
| `LogSessions.SessionAfterAcceptedTear` | pkg/graphite/convert/ustable.go:86-493 | If the torn value was accepted, the next session writes inside its declared length: reading takes the rest of the value from the new records, and the index skips as many bytes |
| `LogSessions.OpenWithIndex` | pkg/graphite/convert/ustable.go:100-119 | Opening a closed log with its index leaves it ready to append after the last record |
| `Whisper.ReadPoints` | pkg/graphite/convert/whisperconverter/whisper.go:46-149 | Which archives are dumped, which errors and empty results occur, and otherwise the merge of all window selections |
| `Whisper.SearchNewest` | pkg/graphite/convert/whisperconverter/whisper.go:59-82 | The newest timestamp of the first archive that has one, with the retention before it |
| `Whisper.MergeArchives` | pkg/graphite/convert/whisperconverter/whisper.go:105-148 | The selections of all archives, oldest first, unless one cannot be dumped; the error names the coarsest of those |
| `Whisper.Select` | pkg/graphite/convert/whisperconverter/whisper.go:115-145 | The contiguous slice of the sorted archive is a sorted permutation of exactly the points in the window |
| `WhisperFacts.WindowsAreDisjoint` | pkg/graphite/convert/whisperconverter/whisper.go:86-95 | With growing retentions, points taken from a coarser archive are older than those taken from a finer one |
| `WhisperFacts.MergeMeetsWindows` | pkg/graphite/convert/whisperconverter/whisper.go:102-146 | The merge rises strictly and contains exactly the points that lie in the window of their archive |
| `WhisperFacts.ReadIs` | pkg/graphite/convert/whisperconverter/whisper.go:46-149 | Reading a file in plain numbers: exactly the points later than now minus their archive's retention and not later than now minus that of the next finer one, by time, where now is the newest time of the first archive with points plus the retention before it, modulo 2^32 |
| `WhisperFacts.FindNewestIs` | pkg/graphite/convert/whisperconverter/whisper.go:59-82 | The search ends at the first archive with points, at one before it that cannot be dumped, or finds that there are no points |
| `WhisperFacts.NoPointsNoError` | pkg/graphite/convert/whisperconverter/whisper.go:97-100 | A file all of whose slots are empty reads as no points, not as an error |
| `WhisperFacts.NewestPointsKeptIff` | pkg/graphite/convert/whisperconverter/whisper.go:57-83 | The newest points survive if and only if adding the retention of the archive before does not wrap around in 32 bits |
| `WhisperFacts.NewestWrapsAround` | pkg/graphite/convert/whisperconverter/whisper.go:57-83 | A concrete file whose only point is lost to the wrap-around |
| `WhisperFacts.ZeroBoundaryIff` | pkg/graphite/convert/whisperconverter/whisper.go:131-136 | The code takes the points its comment describes if and only if the finer boundary is above zero or the archive has no point above its own bound |
| `WhisperFacts.NothingBehindZeroBoundary` | pkg/graphite/convert/whisperconverter/whisper.go:85-146 | If the finer boundary is zero, exactly what finer archives contribute is merged, nothing from this or a coarser one |
| `WhisperFacts.ZeroBoundaryLosesPoint` | pkg/graphite/convert/whisperconverter/whisper.go:131-136 | A concrete file that loses an older point of its coarser archive this way |
| `Days.ToMimirSamples` | pkg/graphite/convert/whisperconverter/whisper.go:153-169 | One sample for every point, in order: the point's value, and 1000 times its timestamp; an error for no points |
| `Days.SamplesArePoints` | pkg/graphite/convert/whisperconverter/whisper.go:159-166 | These samples, and no others, have the points' values at the points' times in milliseconds |
| `Days.DayOfIs` | pkg/graphite/convert/whisperconverter/whisper.go:179-187 | Day d lasts from d times 86,400,000 milliseconds after the beginning of 1970 up to, but not including, the next |
| `Days.SplitSamplesByDays` | pkg/graphite/convert/whisperconverter/whisper.go:173-197 | Blocks concatenate to the input, none is empty, the samples of one lie between the same two midnights, and between neighbours there is a midnight |
| `Days.BlockDaysIncrease` | pkg/graphite/convert/whisperconverter/whisper.go:173-197 | For increasing samples the days of the blocks increase: one block a day |
| `Days.BlockHoldsDay` | pkg/graphite/convert/whisperconverter/whisper.go:173-197 | The block of a day holds exactly the samples of that day, in order |
| `Days.NoBlockNoSamples` | pkg/graphite/convert/whisperconverter/whisper.go:173-197 | A day without a block has no samples |
| `Days.OfDayIncreases` | pkg/graphite/convert/whisperconverter/whisper.go:173-197 | The samples of one day are exactly those on it, still positive and increasing |
| `Days.DayHoldsPoints` | pkg/graphite/convert/whisperconverter/whisper.go:173-197 | The samples of a day are exactly the points between its two midnights, with their values |
| `Cursor.SeriesCursor.Seek` | pkg/graphite/convert/series.go:62-87 | On increasing samples: stays if late enough, fails exactly if the last timestamp is too early, and otherwise lands where repeated Next would first find one; never goes back; panics exactly when exhausted or empty |
| `Cursor.SeriesCursor.Next` | pkg/graphite/convert/series.go:47-57 | Moves one on, and no further than the end |
| `Cursor.SeriesCursor.Search` | pkg/graphite/convert/series.go:80-83 | Binary search for the first late enough sample |
| `Cursor.SeriesCursor.Drain` | pkg/graphite/convert/series.go:47-57 | The consumer sees exactly the samples, in order |
| `DateRange.TimestampBounds` | pkg/graphite/convert/whisperconverter/daterange.go:51-61 | The exact bounds of one file's samples |
| `DateRange.RunKeepsInv` | pkg/graphite/convert/whisperconverter/daterange.go:40-91 | In any interleaving of the senders, every file's bounds are seen or still to be sent |
| `DateRange.CollectorFindsBounds` | pkg/graphite/convert/whisperconverter/daterange.go:74-91 | When all is sent the collector has the exact bounds of all files' samples |
| `DateRange.DaysMakeUpSamples` | pkg/graphite/convert/whisperconverter/whisper.go:173-197 | Over consecutive days that cover the samples, the day blocks make up the samples again |
| `DateRange.SuggestedDaysCover` | cmd/mimir-whisper-converter/main.go:208-210 | With the days from the collector's answer, no sample of any file is left out |
| `DateRange.DateList` | cmd/mimir-whisper-converter/main.go:208-210 | Every day from the first to the last, once |
| `BlockDates.IntermediateList` | pkg/graphite/convert/whisperconverter/pass2.go:147-179 | Exits exactly if a chosen date has no intermediate file; otherwise this worker's part of the asked-for dates that are not skipped, or no end for zero workers with dates left |
| `BlockDates.OnlyMissingAreMade` | pkg/graphite/convert/whisperconverter/pass2.go:147-172 | If each date's block, where there is one, begins on that date, a run that does not overwrite works on exactly the dates without one |
| `BlockDates.GetFinishedBlockDates` | pkg/graphite/convert/paths.go:36-64 | The days on which the blocks found begin, except those whose meta file cannot be read |
| `BlockDates.ResumingIsInverted` | cmd/mimir-whisper-converter/main.go:262-262 | As main passes the resume flag for the overwrite flag, a resumed run works on exactly the unfinished dates, and one not to resume on all, if and only if no asked-for date has a finished block |
| `BlockDates.FinishedDateIsRedone` | cmd/mimir-whisper-converter/main.go:262-262 | A concrete finished date: made again when resuming, skipped when not |
| `Paths.PathsForWorker` | pkg/graphite/convert/paths.go:17-32 | Every count-th path from the worker's own number on; nothing for anybody if there are more workers than paths; for zero workers it never ends exactly if paths are left |
| `Paths.PartsDividePaths` | pkg/graphite/convert/paths.go:25-31 | Path i is at place i / count of worker i % count, and nowhere else |

## Left out

- Pass1Files.FileRunRefines: for runs whose restarts are clean, the exact condition of `RestartRefinesIff`; what happens otherwise is said by `RecoveryAfterTornAppend`, `RecoveryOverStaleBytes` and `SessionAfterAcceptedTear`, and not followed through the rest of a run.
- Pass1.CompletedRunsAgree: the same files and dates in every run.
- UsTables.UsTable.ReadRecord: lengths of up to 2^48 bytes are allocated, as a 64-bit machine may; running out of memory before that, and operating-system errors of reads and seeks, are not modelled.
- RunMerge.RunHeap: of container/heap's Fix and Remove only the uses at the root are modelled, where sifting up returns at once.
- Gob, snappy, protobuf and XOR encodings: files hold the values themselves; the log's values go through a codec with decode after encode.
- Prometheus' index and chunk writers and labels.Builder: classes with their documented contracts (sorted input, non-zero references, an empty value removes a label).
- sort.Slice, sort.Sort and sort.Strings: by contract, implemented as an insertion sort.
- Sample values: float64 as bit patterns, only ever copied.
- Dates: UTC day numbers instead of calendar dates; the minimum times in the meta files found under the blocks directory and the date-named files are parameters.
- Directory walking, regular expressions, flag parsing, progress counters, logging, block identifiers, metadata files, HTTP server, remote write, error wrapping and shell scripts.
