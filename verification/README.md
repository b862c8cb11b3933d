# A verified model of MindTrace

MindTrace records desktop activity (file changes, browser visits, window focus), keeps it in an SQLite
table with an in-memory index beside it, and answers natural-language searches and timeline requests.
This project models the parts of it where correctness is not obvious and proves what they promise, for
every input, every run and every interleaving.

| file | models |
|---|---|
| `Base.dfy`, `Text.dfy` | 64-bit wrap-around, `std::sort` as "some sorted permutation", C-locale characters, `stream >> word`, substring search, base names |
| `Events.dfy` | the event, its type names and its keywords |
| `ConcurrentQueue.dfy` | the queue object, and the mutex and condition-variable protocol over any number of threads |
| `EventPipeline.dfy` | the pipeline object, and submitters, workers and the controlling thread as one step system |
| `LockedPipeline.dfy` | the pipeline and the locking protocol of its queue run together |
| `EventStore.dfy` | the event table, with AUTOINCREMENT ids and signed comparisons |
| `InvertedIndex.dfy` | the three posting maps and their searches |
| `QueryParser.dfy` | calendar windows, event types, query keywords and the plan |
| `QueryExecutor.dfy` | execution of a plan, and search from query text to result |
| `Sessions.dfy`, `TimelineBuilder.dfy` | session splitting and the timeline builder |
| `Daemon.dfy` | the start-up rebuild and the callback shared by the collectors |
| `BrowserCollector.dfy`, `FileSystemCollector.dfy` | the visit watermark and the table of write times |

`dafny verify dfyconfig.toml` checks everything.

Objects that the program updates in place are classes here; their methods are proved against functions
or against a ghost history (`indexed`, `seen`, `emitted`), and the theorems speak about those. The two
concurrent protocols are step systems on values: a section under the mutex is one step, and a notification
is another. A sleeping thread may be notified, time out or wake for no reason. What comes from outside
(whether an insert succeeds, how far a result set is read, which files a scan meets, what a stage does, the
clock) is a parameter, so the theorems hold for every choice of it. `std::sort` is used through its contract only, so
nothing depends on how it orders equal elements.

Definitions that both code and contracts rest on are fixed a second time by lemmas that do not mention them:
characters (`CharacterTables`), letter case (`LowerIsCanonical`), query texts (`PhraseTexts`, `DayTexts`, and
`QueryParsers.TypeTexts` for the types), stop words (`QueryKeywordsAre`), type names (`Events.TypeTexts`,
`TypeKeyword`), the texts of emitted events (`VisitTexts`, `ChangeTexts`) and the rows a rebuild reads
(`DatedRowsAre`).

Results worth knowing before reading the proofs:

* Once a stop has been requested, at most one more event per worker finishes; what is still queued stays
  queued. Over the real locks, a stop that has notified finds no worker asleep, and needs no timeout to
  return (`JoinedWorkersAreAwake`, `ShutdownIsPrompt`). The queue's stop flag is never reset, so after a
  restart `pop_for` no longer waits, but it still delivers.
* A search through the index is the naive scan exactly when the query has no window or one of full hours,
  whatever the clock (`SearchExactIff`). Once the clock is late enough for windows not to reach before 1970,
  that leaves out only "this week" without work hours, unless the clock stands in the last second of an hour
  (`ExactUnlessThisWeek`); the extra results are matching events of the hour that is running (`SearchIsScan`).
* An event reads back from the table as it was given exactly when its texts hold no NUL character
  (`StoredUnchanged`). The index keeps the full text, so the index built event by event is the rebuilt one
  exactly when no callback is under way and no text holds a NUL (`IncrementalIsRebuild`); a rebuild at a
  later time differs by the rows dated in the future (`IncrementalVersusRebuild`).
* A browser poll that breaks off loses an unread visit for good exactly when that visit has the same time
  as the last one read (`LostIffTied`, and `TiedVisitIsLost` for an instance).
* The table of write times moves on before an event is handed over. The events of a file tell all its
  changes exactly when every change was delivered (`EventsAreChangeLog`).
* Windows reach before 1970, and wrap around, exactly for clocks earlier than the look-back of the phrase;
  thirteen days are always enough (`UnderflowIff`).
* `set_index` is documented as setting the index to update on each event
  (include/core/pipeline/event_pipeline.hpp:38-39), but the pipeline adds nothing to it; the model follows
  the code (`ProcessEvent`).

## Model

| member | source | states |
|---|---|---|
| `ConcurrentQueues.ConcurrentQueue.Push` | include/core/pipeline/concurrent_queue.hpp:19-25 | the item goes to the back and the stop flag stays |
| `ConcurrentQueues.ConcurrentQueue.TryPop` | include/core/pipeline/concurrent_queue.hpp:28-34 | nothing exactly on an empty queue, else the oldest item, which is removed |
| `ConcurrentQueues.ConcurrentQueue.PopLocked` | include/core/pipeline/concurrent_queue.hpp:37-57 | waits on exactly while the queue is empty, not stopped and time is not up; else the oldest item, or nothing on an empty queue |
| `ConcurrentQueues.ConcurrentQueue.Stop` | include/core/pipeline/concurrent_queue.hpp:60-66 | the flag is set and no item is touched |
| `QueueProtocol.NoLostWakeUp` | include/core/pipeline/concurrent_queue.hpp:19-66 | in every reachable state of any mix of calls, sleepers imply a thread awake or a notification to come for every queued item, and a broadcast to come after a stop; at rest no sleeper has an item or a stop |
| `QueueProtocol.FirstInFirstOut` | include/core/pipeline/concurrent_queue.hpp:19-57 | pushed sequence = popped sequence followed by the queue |
| `QueueProtocol.RefinesAtomicQueue` | include/core/pipeline/concurrent_queue.hpp:19-66 | every step is one step of a queue with indivisible operations; a waiting pop gives up only on an empty queue, after a stop or past its deadline |
| `QueueProtocol.RunsAreAtomic` | include/core/pipeline/concurrent_queue.hpp:19-66 | every run of the locking protocol is, for its callers, a run of that queue |
| `QueueProtocol.NextKeepsInv` | include/core/pipeline/concurrent_queue.hpp:19-66 | the wake-up bounds and the order of items survive each single step, spurious wake-ups and timeouts included |
| `QueueProtocol.LookAnswers` | include/core/pipeline/concurrent_queue.hpp:37-57 | in any state, a look at the queue goes to sleep exactly when it is empty, not stopped and time is not up; else the call ends with the oldest item if there is one |
| `QueueProtocol.TimedPopCanEnd` | include/core/pipeline/concurrent_queue.hpp:46-57 | a thread asleep in a timed pop can run out of time and look again, and is then done: with the oldest item, or with nothing on an empty queue |
| `QueueProtocol.ExpiredPopEnds` | include/core/pipeline/concurrent_queue.hpp:50-52 | once its time is up, a pop stays awake over any steps of others until its look ends it |
| `QueueProtocol.BlockingPopNeedsStop` | include/core/pipeline/concurrent_queue.hpp:37-44 | in every reachable state a blocking pop gives up only after a stop, on an empty queue |
| `QueueProtocol.NotificationsRunOut` | include/core/pipeline/concurrent_queue.hpp:24-65 | threads already awake take at most a fixed number of steps before the state is at rest, and can move until then |
| `QueueProtocol.SleepersHaveNothingToDo` | include/core/pipeline/concurrent_queue.hpp:19-66 | from any reachable state, once those steps are done nobody sleeps beside an item or past a stop |
| `EventPipelines.EventPipeline.Submit` | src/core/pipeline/event_pipeline.cpp:26-28 | the event joins the back of the queue |
| `EventPipelines.EventPipeline.ProcessEvent` | src/core/pipeline/event_pipeline.cpp:60-93 | what is saved is the last of a chain of states in which each stage, returning or throwing, made the next from the one before; the event counts in any case; one error is logged per throw; the index is left alone |
| `PipelineProtocol.RunsUseAtomicQueue` | src/core/pipeline/event_pipeline.cpp:26-60 | the queue operations of any pipeline run are a run of the atomic queue |
| `LockedPipeline.RunsOverLocks` | src/core/pipeline/event_pipeline.cpp:26-60 | pipeline and locking protocol run as one system: every run is a pipeline run for the pipeline and a protocol run for the queue, with one queue and one history |
| `LockedPipeline.StepKeepsLinked` | src/core/pipeline/event_pipeline.cpp:60-62 | whatever a worker finds under the lock, the pipeline can take the step that goes with it |
| `LockedPipeline.SleepingWorkerComesBack` | src/core/pipeline/event_pipeline.cpp:61-62 | in every reachable state a worker asleep in `pop_for` comes back when its time is up, with the oldest event or to its loop test |
| `LockedPipeline.JoinedWorkersAreAwake` | src/core/pipeline/event_pipeline.cpp:43-49 | once the stop has notified, no worker is asleep on the condition variable |
| `LockedPipeline.ShutdownIsPrompt` | src/core/pipeline/event_pipeline.cpp:40-58 | until the stop returns, the pipeline's own threads can move without a timeout or a spurious wake-up |
| `LockedPipeline.ShutdownOverLocksIsBounded` | src/core/pipeline/event_pipeline.cpp:40-58 | past the stop flag the pipeline's own threads take a bounded number of steps, whatever submitters and timeouts do |
| `PipelineProtocol.NothingLostOrDoubled` | src/core/pipeline/event_pipeline.cpp:26-94 | for any workers, starts and stops: submitted = dequeued + queued; each dequeued event is finished or held by exactly one worker; the counter and the events in flight add up to the dequeued |
| `PipelineProtocol.NextConserves` | src/core/pipeline/event_pipeline.cpp:26-94 | conservation survives every step of every thread |
| `PipelineProtocol.NextPhased` | src/core/pipeline/event_pipeline.cpp:30-58 | workers exist only between a start and the return of a stop, and none leaves while the pipeline runs |
| `PipelineProtocol.StorageImage` | src/core/pipeline/event_pipeline.cpp:55-93 | events past the save step were saved once or failed; ids grow, also across clears; the table shows exactly the saves since the last clear, besides its first rows, each as the event after such a chain through all stages; with one worker ids follow submission order |
| `PipelineProtocol.ShutdownStep` | src/core/pipeline/event_pipeline.cpp:40-58 | while stopping, each own step uses up work, and a finish uses up a worker that may finish |
| `PipelineProtocol.ShutdownNeverStuck` | src/core/pipeline/event_pipeline.cpp:40-58 | until the stop returns, some worker or the controlling thread can move |
| `PipelineProtocol.BoundedShutdown` | src/core/pipeline/event_pipeline.cpp:40-94 | after a stop at most one more event per worker finishes, the number of own steps is bounded, and on return nothing is in flight, everything dequeued is counted, and the queue holds the rest |
| `Events.TypeNameRoundTrip` | src/core/event/activity_event.cpp:9-29 | type names read back as the type and are distinct |
| `Events.TypeTexts` | src/core/event/activity_event.cpp:9-29 | the six texts and their types; every text that is read as a type is the one written for it |
| `Events.CleanWord` | src/core/event/activity_event.cpp:61-68 | the letters and digits of the word, changed in nothing but case, with no upper case left |
| `Events.Tokenize` | src/core/event/activity_event.cpp:57-73 | adds exactly the cleaned words longer than one character |
| `Events.Unique` | src/core/event/activity_event.cpp:85-86 | strictly sorted, with the same elements |
| `Events.ExtractKeywords` | src/core/event/activity_event.cpp:55-89 | strictly sorted, and exactly the cleaned words of content and source plus the type name |
| `Events.KeywordsAre` | src/core/event/activity_event.cpp:55-89 | keywords are the type name and the cleaned words of more than one character, and hold no upper case |
| `Text.WordsAreMaximalRuns` | src/core/event/activity_event.cpp:58-60 | the extracted words are exactly the maximal runs without white space |
| `Text.NextWord` | src/core/event/activity_event.cpp:60 | one extraction yields the next word and leaves the rest |
| `Text.WordsInOrder` | src/core/event/activity_event.cpp:60 | white space separates words, which come in order and with repetitions |
| `Text.LowerIsCanonical` | src/core/event/activity_event.cpp:66 | texts are lowered alike exactly when they differ only in the case of letters, and a text without upper case is the lowered form |
| `Text.LexByFirstDifference` | src/core/event/activity_event.cpp:85 | the first differing character decides the order of keywords, and a prefix comes first |
| `Text.CleanLower` | src/core/event/activity_event.cpp:62-68 | cleaning and lowering commute |
| `Text.CleanConcat` | src/core/event/activity_event.cpp:62-68 | cleaning takes a word apart at any place, so the characters kept stay in order |
| `Text.StripDirectories` | src/core/indexing/inverted_index.cpp:28-31 | the base name |
| `Text.BaseNameIsSuffix` | src/core/indexing/inverted_index.cpp:28-31 | the base name is the longest suffix without a separator |
| `EventStores.EventStore.Save` | src/core/storage/event_store.cpp:65-99 | the next id and the row, or nothing at all when the insert fails |
| `EventStores.EventStore.SaveBatch` | src/core/storage/event_store.cpp:101-131 | the saves one after another, failed ones skipped |
| `EventStores.AppliedInTurn` | src/core/storage/event_store.cpp:101-131 | writes happen one after another, wherever a list of them is split |
| `EventStores.EventStore.FindById` | src/core/storage/event_store.cpp:133-148 | the only stored row that carries the id, and nothing exactly when no row does |
| `EventStores.EventStore.FindByTimeRange` | src/core/storage/event_store.cpp:150-167 | exactly the rows dated within the range, once each, oldest first |
| `EventStores.SignedComparison` | src/core/storage/event_store.cpp:154-158 | below 2^63 limits and timestamps compare as numbers; later timestamps read as negative |
| `EventStores.EventStore.FindByType` | src/core/storage/event_store.cpp:169-185 | exactly the rows of the type, once each, oldest first |
| `EventStores.EventStore.Clear` | src/core/storage/event_store.cpp:225-231 | no rows remain and the id counter stays |
| `EventStores.IdsNeverReused` | src/core/storage/event_store.cpp:42-99 | over any saves and clears ids grow strictly and every row was there or has an id issued since |
| `EventStores.StoredUnchanged` | src/core/storage/event_store.cpp:84-88 | a row reads back as the event exactly when its texts hold no NUL |
| `InvertedIndexes.InvertedIndex.Add` | src/core/indexing/inverted_index.cpp:9-37 | the maps become those of the enlarged set of events, whatever the order of additions |
| `InvertedIndexes.InvertedIndex.SearchKeyword` | src/core/indexing/inverted_index.cpp:39-63 | exactly the ids of events with a keyword containing the text, and the same ids for the text in any other letter case |
| `InvertedIndexes.InvertedIndex.SearchTimeRange` | src/core/indexing/inverted_index.cpp:65-81 | exactly the ids of events whose hour lies in the range of hours |
| `InvertedIndexes.InvertedIndex.SearchApplication` | src/core/indexing/inverted_index.cpp:83-100 | exactly the ids of events with a source whose base name contains the text, in any letter case |
| `InvertedIndexes.MatchesInAnyCase` | src/core/indexing/inverted_index.cpp:39-100 | what a keyword or application search finds, told through letters that differ only in case |
| `Text.ContainsIff` | src/core/indexing/inverted_index.cpp:57 | a text contains a part exactly when it is that part with something before and after |
| `InvertedIndexes.InvertedIndex.Counts` | src/core/indexing/inverted_index.cpp:102-110 | the numbers of distinct ids and of distinct keywords |
| `InvertedIndexes.InvertedIndex.Clear` | src/core/indexing/inverted_index.cpp:112-118 | the index of no events |
| `InvertedIndexes.GatherMatching` | src/core/indexing/inverted_index.cpp:56-60 | the union of the postings whose key contains the text, in any order of the map |
| `InvertedIndexes.PostedPair` | src/core/indexing/inverted_index.cpp:17 | inserting an id under a key adds exactly that pair to the posting map |
| `InvertedIndexes.HourScanBounds` | src/core/indexing/inverted_index.cpp:65-81 | no event of [s, e] is missed and none an hour or more outside is found |
| `InvertedIndexes.HoursExactIff` | src/core/indexing/inverted_index.cpp:69-70 | hour buckets select exactly a window if and only if it is made of full hours |
| `Calendar.CalendarWindows` | src/search/query_parser.cpp:42-105 | the window of each phrase: latest Monday, seven days before it, latest such weekday strictly before today |
| `Calendar.WeekdaysInTurn` | src/search/query_parser.cpp:52-60 | weekdays follow each other from a Thursday on 1 January 1970 |
| `Calendar.UnderflowIff` | src/search/query_parser.cpp:49-99 | the start is the intended midnight exactly when the clock is late enough, as from day thirteen on |
| `Calendar.WorkHoursOfFirstDay` | src/search/query_parser.cpp:107-114 | 09:00:00 to 16:59:59 of the window's first day |
| `Calendar.WindowsAreHourAligned` | src/search/query_parser.cpp:45-114 | all windows but the plain "this week" are made of full hours |
| `QueryParsers.PhraseTexts` | src/search/query_parser.cpp:45-80 | "today", "yesterday", "this week" and "last week", in this order, and the windows in seconds they stand for, with and without work hours |
| `QueryParsers.DayTexts` | src/search/query_parser.cpp:81-115 | "last monday" to "last sunday" each give the latest such weekday before today; any other query has no window |
| `QueryParsers.LastTuesday` | src/search/query_parser.cpp:81-104 | on Friday 5 January 2024 at noon, "last tuesday" is the second of that month |
| `QueryParsers.ResolveDayName` | src/search/query_parser.cpp:81-104 | the first day name found after "last " gives the window, which `DayTexts` spells out |
| `QueryParsers.ResolveTimeExpression` | src/search/query_parser.cpp:42-115 | the fields hold the window of the phrase with the work-hours adjustment; without a phrase, limits set before are kept or adjusted |
| `QueryParsers.ResolveEventType` | src/search/query_parser.cpp:117-138 | the type by the order of precedence of the words |
| `QueryParsers.ExtractQueryKeywords` | src/search/query_parser.cpp:140-167 | the cleaned words that are neither short nor stop words, in order |
| `QueryParsers.KeptWordsMembers` | src/search/query_parser.cpp:155-166 | a keyword is kept exactly when it is the cleaned form of a word and is neither short nor a stop word |
| `QueryParsers.QueryKeywordsAre` | src/search/query_parser.cpp:140-167 | the keywords of a query are its cleaned words of more than one character but for the listed ones |
| `QueryParsers.KeptWordsInOrder` | src/search/query_parser.cpp:153-166 | keywords come in the order of the words |
| `QueryParsers.Parse` | src/search/query_parser.cpp:26-40 | window, type and keywords of the lowered query, and no application |
| `QueryParsers.CaseDoesNotMatter` | src/search/query_parser.cpp:30-37 | queries that differ only in letter case give equal specs, raw text aside, and equal plans |
| `QueryParsers.MakePlan` | src/search/query_planner.cpp:5-34 | a filter is on exactly when the spec has it, with its value |
| `QueryExecutors.IntersectAll` | src/search/query_executor.cpp:68-81 | the ids in every candidate set, whatever the order of the sets |
| `QueryExecutors.QueryExecutor.Candidates` | src/search/query_executor.cpp:25-44 | the ids in all candidate sets are those passing every index constraint, and there is no set without a constraint |
| `QueryExecutors.QueryExecutor.Fetch` | src/search/query_executor.cpp:83-95 | the stored events under the ids, of the right type, once each |
| `QueryExecutors.QueryExecutor.Execute` | src/search/query_executor.cpp:23-102 | with an index constraint exactly the accepted rows; else all rows of the type; else at most 100 rows with none newer left out; newest first, once each |
| `QueryExecutors.ExecutorRefinesScan` | src/search/query_executor.cpp:23-102 | over an index that agrees with the store, the result is the scan of the indexed events by keyword, hours, application and type |
| `QueryExecutors.QueryExecutor.Search` | src/search/query_executor.cpp:104-108 | from query text to result: the naive scan, or the documented fallbacks, with or without an index |
| `QueryExecutors.SearchIsScan` | src/search/query_executor.cpp:104-108 | exact for every window of full hours; for "this week" the results are the scan and the matching events dated later in the running hour |
| `QueryExecutors.SearchExactIff` | src/search/query_executor.cpp:104-108 | over every table and every index agreeing with it, the results are the naive scan if and only if the query has no window or one of full hours |
| `QueryExecutors.PlanExactIff` | src/search/query_planner.cpp:5-34 | the plan accepts exactly the events the query means if and only if the same holds |
| `QueryExecutors.ExactUnlessThisWeek` | src/search/query_parser.cpp:42-115 | for clocks late enough only "this week" without work hours is not of full hours, unless now ends an hour |
| `QueryExecutors.ThisWeekInexact` | src/search/query_parser.cpp:51-65 | when "this week" does not end a full hour, all matching events one second late are accepted, and there are such events |
| `QueryExecutors.SharedWordIsFound` | src/search/query_parser.cpp:153-166 | an event and a query that share a word up to case meet under its cleaned form, in the parser and in the index |
| `Sessions.SplitUnique` | src/timeline/timeline_builder.cpp:23-47 | there is only one way to cut a list at its gaps, the greedy one |
| `Sessions.SplitOfIsSplit` | src/timeline/timeline_builder.cpp:23-47 | the greedy cut is non-empty runs, joined exactly across gaps within the threshold |
| `Sessions.SameSessionIffNoGap` | src/timeline/timeline_builder.cpp:27-44 | two positions share a session if and only if no gap between them exceeds the threshold |
| `Sessions.NeighboursShareSession` | src/timeline/timeline_builder.cpp:27-44 | two neighbours share a session exactly when they lie at most the threshold apart |
| `Sessions.SessionContents` | src/timeline/timeline_builder.cpp:27-47 | a session holds every event dated within its limits, as often as the list |
| `Sessions.TiesDoNotMatter` | src/timeline/timeline_builder.cpp:14-47 | any two sorted orders of the same events give sessions with the same timestamps and the same events |
| `Sessions.RestrictIsSplit` | src/timeline/timeline_builder.cpp:52-62 | sessions cut down to a window are the sessions of the events in the window |
| `Sessions.CoarserThreshold` | src/timeline/timeline_builder.cpp:30 | every session of a higher threshold is a concatenation of consecutive sessions of a lower one |
| `Sessions.SessionCount` | src/timeline/timeline_builder.cpp:27-47 | one session more than gaps above the threshold |
| `TimelineBuilders.TimelineBuilder.DeterminePrimaryApp` | src/timeline/timeline_builder.cpp:68-92 | a base name whose multiplicity among the base names of the sources no other exceeds, in any order of the map |
| `TimelineBuilders.TimelineBuilder.Build` | src/timeline/timeline_builder.cpp:11-50 | the sessions split a sorted permutation of the events; limits, primary application and period are right |
| `TimelineBuilders.TimelineBuilder.BuildWindow` | src/timeline/timeline_builder.cpp:52-66 | the same for the events dated within the window, with the window as period |
| `TimelineBuilders.TimelineIsDetermined` | src/timeline/timeline_builder.cpp:11-50 | any two timelines of the same events, however ordered or tied, agree in period, limits and contents |
| `TimelineBuilders.WindowCommutes` | src/timeline/timeline_builder.cpp:52-66 | the window's timeline is the full timeline, each session cut down, empty ones dropped |
| `TimelineBuilders.WindowHolds` | src/timeline/timeline_builder.cpp:52-66 | the sessions of a window hold exactly the events dated from its start to its end, each as often as given |
| `TimelineBuilders.HigherThresholdJoins` | src/timeline/timeline_builder.cpp:27-47 | raising the threshold only joins neighbouring sessions of a timeline |
| `TimelineBuilders.SessionCounts` | src/timeline/timeline_builder.cpp:27-47 | the number of sessions of a timeline follows from its gaps |
| `Daemon.RebuildIndex` | apps/cli/main.cpp:267-271 | the index gains exactly the rows dated up to now |
| `Daemon.OnEvent` | apps/cli/main.cpp:167-176 | save, adopt the id, index; a failing save changes neither |
| `Daemon.StoreAndIndexAgree` | apps/cli/main.cpp:167-176 | in every interleaving indexed events are stored and match their rows; the ids missing from the index are those between save and add and the rows dated after the start; full agreement exactly without NUL |
| `Daemon.IncrementalIsRebuild` | apps/cli/main.cpp:167-271 | the index holds every row but those skipped at the start if and only if no callback is under way and no indexed text holds a NUL |
| `Daemon.IncrementalVersusRebuild` | apps/cli/main.cpp:167-271 | against a rebuild at a later time: exactly the rows dated after that time are extra, exactly the skipped rows the clock has caught up with are missing |
| `BrowserCollectors.ChromeRoundTrip` | src/collectors/browser_collector.cpp:70-79 | converting there and back is the identity exactly without overflow, as for every clock |
| `BrowserCollectors.ChromeEpoch` | src/collectors/browser_collector.cpp:70-79 | Chrome counts microseconds from 369 years and 89 leap days before 1970 |
| `BrowserCollectors.BrowserCollector.ProcessHistory` | src/collectors/browser_collector.cpp:81-164 | one event per row read, in order, and the watermark at the last of them; a failed poll changes nothing |
| `BrowserCollectors.EmittedOnceInOrder` | src/collectors/browser_collector.cpp:81-164 | over any polls on any histories no visit is emitted twice and times never go back |
| `BrowserCollectors.EmittedIsPrefix` | src/collectors/browser_collector.cpp:81-164 | whatever history the collector starts with: if the visits since then have distinct times and arrive late, emissions are a prefix of them in order, whatever fails |
| `BrowserCollectors.CompletePollCatchesUp` | src/collectors/browser_collector.cpp:118-163 | a complete poll then leaves exactly the new visits emitted |
| `BrowserCollectors.OlderVisitsDoNotMatter` | src/collectors/browser_collector.cpp:40-44 | adding any visits from before the start to the histories leaves a run as orderly as it was, with the same emissions |
| `BrowserCollectors.StillHistoryIsOrderly` | src/collectors/browser_collector.cpp:40-44 | every run over a history that stays as it is, older visits included, is orderly if the new ones have distinct times |
| `BrowserCollectors.LostIffTied` | src/collectors/browser_collector.cpp:122-163 | an unread row is lost for good exactly when it is tied with the last row read |
| `BrowserCollectors.TiedVisitIsLost` | src/collectors/browser_collector.cpp:122-163 | for any two new visits of one time, a poll that breaks off between them loses the second |
| `FileSystemCollectors.FileSystemCollector.ScanDirectory` | src/collectors/filesystem_collector.cpp:63-154 | a scan extends table and log by its observations and emits the events of the log |
| `FileSystemCollectors.FileSystemCollector.Observe` | src/collectors/filesystem_collector.cpp:104-148 | the table holds the new write time, and an event is emitted for a new or changed file |
| `FileSystemCollectors.ChangeLogIsDestutter` | src/collectors/filesystem_collector.cpp:104-148 | over any scans the changes of a path are those of its write times without repeats, and the table holds its last write time |
| `FileSystemCollectors.DestutterDropsRepeat` | src/collectors/filesystem_collector.cpp:127 | of two equal neighbours one can go without changing the log (and `DestutterVaried`: nothing else goes) |
| `FileSystemCollectors.EventsAreChangeLog` | src/collectors/filesystem_collector.cpp:97-148 | the events of a path are one FileOpened, then one FileModified per change, if and only if every change of the path was delivered |

## Left out

- SQLite itself, SQL text, `find_by_keyword` and its LIKE matching: the table is a map with a counter, and result sets are given by their contract.
- JSON conversion, and the metadata text stored in the table: metadata is taken to read back unchanged.
- Row ids beyond 2^63 - 1 never arise: the model refuses the insert, as AUTOINCREMENT does.
- `empty`, `size` and `is_stopped` of the queue, and `count` of the store: they read one field under the lock.
- `EventPipelines.EventPipeline.ProcessEvent`: exceptions not derived from `std::exception`, which end the process, are not modelled.
- Starting and stopping from several threads at once, and changing stages or storage while workers run: one thread configures and controls the pipeline.
- The time that `pop_for` waits: a timeout may come at any moment.
- `QueryParsers.Parse`, `QueryExecutors.QueryExecutor.Search`: one clock reading serves the whole search, where the program reads the clock up to three times.
- Clocks before 1970, or beyond what 64-bit nanoseconds hold.
- `QueryExecutors.QueryExecutor.Execute`: dereferences the store once the index has delivered an id; a missing store is admitted only where that does not happen.
- Directory walking, extension and ignore lists, file copying, the Win32 window hook and the clipboard stub: input and output, represented by what they deliver.
- `BrowserCollectors.BrowserCollector.ProcessHistory`: an exception thrown by the callback ends the polling thread and is not modelled. A run starts with one call of `start`; a later one sets the watermark anew and begins another run.
- `Daemon.StoreAndIndexAgree`: an exception between the save and the end of the add would leave an id unindexed; additions are taken not to fail.
- Command-line output, time formatting, configuration, logging.
