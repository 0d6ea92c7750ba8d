# A model of kotlin-tracer

kotlin-tracer is a JVM agent. Its callbacks record when coroutines are created, suspended, resumed and
completed and when traces start and end; a profiler thread samples the stacks of threads with running
traces through a signal handler; and a finished trace that is long enough is written as a stream of
Perfetto packets. This project models those parts and proves what holds of them in every state of every
run, and, where a promise does not hold, exactly when it does.

| file | models |
|---|---|
| `Packets`, `Traversal`, `VisitOrder`, `Export`, `StreamContent`, `Exporter` | the export of one trace: the worklist over the child map, the breadth-first search it follows, the packet stream and what is on each of its tracks |
| `Lifecycle`, `Steps`, `Profiler` | the callbacks over the storage, as one step function and as a class that updates the maps in place and takes those steps |
| `Clock`, `WallTime`, `CpuTime`, `ChildForest`, `TraceCounts`, `GcEvents`, `FileTimes` | theorems about all runs of those steps |
| `InfoRecords`, `ChildRecords`, `FileRecords`, `Cleaning` | what the storage and the written files hold after any run, read off its events |
| `Handshake`, `Pipeline` | the sampling protocol between profiler thread and signal handler, and the grouping of samples |
| `CleanableMap`, `ConcurrentList` | the two-phase mark and clean collections and the two-step `pop_front` |
| `StorageRaces`, `GcRace` | calls on the storage maps and on the list of collections, interleaved at their locks with the cleaner |
| `Unwinder`, `CodeCache` | the aarch64 frame-pointer walk and the lookup in HotSpot's code heaps |
| `Agent` | the theorems about runs, for the profiler object that has handled the events |
| `ArgsParser` | the option string |
| `Records`, `Basics`, `Decimal` | shared records; threads, optional values, lists without repetition and machine words; decimal text of integers |

**Runs.** A run is any sequence of events. Each event carries its thread, the clock readings the callback
takes, in the order in which it takes them, the thread counters it reads, and, for a suspension, the stack
that JVMTI returned, if any. The thread hash that stands in for a coroutine id, method-name resolution,
pointer probes, memory content and the working directory are parameters too.

**Form.** Code that changes state is a class or a method with loops, proved against a specification
function; the theorems are about those functions. The worklist of the exporter is specified by ghost paths:
a queue item of the code is the last id of a simple path from the traced coroutine. Paths are what makes
the loop end although an id is marked visited only when it leaves the queue.

**What the code does not keep.** Each of these is shown by a run or input, named first, and bounded by the
exact condition under which the property does hold, named last:

- a coroutine can be shown twice (`SharedChildShownTwice`): exactly if coroutines that breadth-first search
  visits before it list it twice; a child with two parents is still shown once if only one of them comes
  before it, and fresh ids exclude repetition altogether (`ShownOnceIff`);
- a shown child coroutine or collection that has not finished is exported with end 0, before its begin
  (`UnfinishedChildWritten`, `UnfinishedCollectionWritten`; `FileSlicesOrderedIff`);
- the end of a trace charges running time that the next suspension charges again, and a completion while
  suspended charges from time 0 (`TraceEndChargedTwice`, `CompletedWhileSuspended`; `WallTimeIff`);
- the collection list loses the first and doubles the last of two or more collections since the last clean
  (`FirstLostLastDoubled`; `ListedOnceIff`), and the cleaner can empty it under a running collection, whose
  finish then takes the back of an empty list (`FinishOnEmptyList`; `FinishFindsIff`);
- an end without a start leaves an entry in the map of ongoing traces that nothing removes
  (`UnmatchedEndLeavesEntry`); such an entry comes from nothing else (`CreatedEntryIff`);
- cleaning a list by count removes as many new elements as were popped since the mark
  (`CleanRemovesNew`; `CleanAfterMark`);
- a key that is erased and inserted again between mark and clean loses its new entry
  (`ReinsertedIsCleaned`; `RemovedIsOldIff`);
- `pop_front` is not safe for two consumers (`TwoConsumersUnsafe`; `SafeIffOneConsumer`);
- a finish of a collection and the cleaner are two such consumers of one list, and each can find it too short
  (`PopMeetsEmpty`, `CleanRunsOut`; `PopMeetsEmptyIff`, `CleanRunsOutIff`);
- a clean between the two calls of a lookup leaves a null entry that a later creation does not replace
  (`NullEntryStays`; `ActMissesIff`, `NullIff`);
- a stop can leave the profiler waiting forever, also a stop in the middle of a scan
  (`StopStrandsProfiler`, `StopInScanStrandsProfiler`; `StrandedIff`);
- the unwinder takes the second instruction pointer from the link register, not from the frame record
  (`LinkRegisterDiffers`; `FollowsCallChainIff`);
- an option item without '=' is skipped without an error unless it is the last
  (`ItemSkipped`; `MissingEqualsReportedIff`).

**Code against documentation.** The tool's README (line 5) promises counts of context switches; the code
exports a count only when it is zero (`SwitchesShownIffZero`). The model follows the code.

## Model

| member | source | states |
|---|---|---|
| Traversal.AdvanceValid | src/main/cpp/utils/suspensionPlot.cpp:136-239 | one turn of the loop keeps every queue item a simple path from the traced coroutine whose inner ids are visited, and strictly lightens the depth-weighted queue |
| Traversal.TraverseBound | src/main/cpp/utils/suspensionPlot.cpp:133-239 | on every finite child map, shared, repeated or cyclic, the loop makes at most as many turns as the queue weighs, and shows exactly the items that leave the queue and have an info |
| Traversal.TraverseSound | src/main/cpp/utils/suspensionPlot.cpp:136-239 | every shown item is a simple chain of children from the traced coroutine |
| Traversal.TraverseCloses | src/main/cpp/utils/suspensionPlot.cpp:228-238 | the ids visited in the end are closed under children and all of them with an info are shown, although children are tested when queued and marked when dequeued |
| Traversal.ShownIffReachable | src/main/cpp/utils/suspensionPlot.cpp:136-239 | for every child map, the coroutines given a track are exactly those reachable along coroutines that have an info |
| Traversal.SharedChildShownTwice | src/main/cpp/utils/suspensionPlot.cpp:230-237 | a child of two siblings is shown twice |
| VisitOrder.FollowsStep | src/main/cpp/utils/suspensionPlot.cpp:136-239 | one turn of the loop, with its late marking and its duplicates, keeps the queue in step with a breadth-first search that marks ids when they are queued |
| VisitOrder.FirstVisits | src/main/cpp/utils/suspensionPlot.cpp:136-239 | ids leave the queue for the first time in the order of that search, on every child map |
| VisitOrder.OrderReachable | src/main/cpp/utils/suspensionPlot.cpp:140-145 | the coroutines in that order are exactly the reachable ones |
| VisitOrder.ShownOnceIff | src/main/cpp/utils/suspensionPlot.cpp:136-239 | for every child map, each coroutine is shown at most once exactly if none that has an info is listed twice by coroutines before it in that order |
| VisitOrder.ShownOnce | src/main/cpp/utils/suspensionPlot.cpp:136-239 | the corollary for child maps in which every id has one parent |
| Packets.FragmentConcat | src/main/cpp/utils/suspensionPlot.cpp:274-275 | pieces of a stream over adjacent track ranges compose to a well-formed piece, ordered exactly if both are |
| Export.SuspensionsFragment | src/main/cpp/utils/suspensionPlot.cpp:221-227 | the suspensions of a coroutine use one fresh track each, and their slices are in order exactly if each begins before its end or, while open, before the trace's end |
| Export.CoroutineFragment | src/main/cpp/utils/suspensionPlot.cpp:154-227 | one queue item declares the next 2 + suspensions tracks and nothing else, and its slices are in order exactly if its records are |
| Export.ItemsFragment | src/main/cpp/utils/suspensionPlot.cpp:136-239 | the same for all shown items together |
| Export.GcFragment | src/main/cpp/utils/suspensionPlot.cpp:95-124 | one track and one slice per selected collection |
| Export.StreamWellFormed | src/main/cpp/utils/suspensionPlot.cpp:242-275 | for every storage content: tracks are 1..n in order of declaration, declared before use, hold one BEGIN and END or only instants, every packet has sequence id 1, and n = 1 + selected collections + (2 + suspensions) per shown coroutine; slices are in order exactly if the records are |
| Export.SuspensionOnItsTrack | src/main/cpp/utils/suspensionPlot.cpp:29-65 | the k-th suspension's track holds exactly its begin, at its start, and its end, at its end or while it is open at the trace's, with the names of its frames |
| Export.FramesOnlyInTrace | src/main/cpp/utils/suspensionPlot.cpp:67-93 | one instant per sample with frames; frames are attached exactly to those that lie in the trace |
| Export.SwitchesShownIffZero | src/main/cpp/utils/suspensionPlot.cpp:188-197 | a count of context switches is exported exactly if it is zero |
| Export.StreamShowsReachable | src/main/cpp/utils/suspensionPlot.cpp:126-240 | the coroutines read back from the flow ids of the packets are exactly the reachable ones |
| Export.StreamShowsOnceIff | src/main/cpp/utils/suspensionPlot.cpp:126-240 | the packets show each coroutine once exactly under that condition |
| Export.StreamShowsOnce | src/main/cpp/utils/suspensionPlot.cpp:126-240 | in particular with unique parents |
| StreamContent.TraceOnTrack | src/main/cpp/utils/suspensionPlot.cpp:248-272 | track 1 of every stream is the trace, from its start to its end, packet by packet |
| StreamContent.CollectionOnTrack | src/main/cpp/utils/suspensionPlot.cpp:95-124 | the collections that start and end within the trace, and no others, have the next tracks in list order, each with its start and its end |
| StreamContent.ItemsArePlaced | src/main/cpp/utils/suspensionPlot.cpp:136-239 | every item that the loop shows has its tracks right after those of the trace, the collections and the items before it |
| StreamContent.CoroutineOnTrack | src/main/cpp/utils/suspensionPlot.cpp:146-209 | the first track of every shown item holds its coroutine's name, flow ids, begin, end, the three running times truncated to milliseconds and the counts of switches that are zero; the traced coroutine spans the trace, any other one its own life |
| StreamContent.SampleOnTrack | src/main/cpp/utils/suspensionPlot.cpp:211-220 | the second track holds an instant for every processed sample of that coroutine that has frames, in order, at its time, with its frames if that lies in the trace |
| StreamContent.SamplesTrackSize | src/main/cpp/utils/suspensionPlot.cpp:67-93 | and nothing else but its descriptor |
| StreamContent.SuspensionOnTrack | src/main/cpp/utils/suspensionPlot.cpp:29-65 | the tracks after it hold the coroutine's suspensions, in order: start, end or the trace's end while open, and frames |
| Exporter.TurnOfTraversal | src/main/cpp/utils/suspensionPlot.cpp:136-239 | a turn of the loop moves one item from what is to be shown to what has been shown |
| Exporter.TraceWriter.AddSuspension | src/main/cpp/utils/suspensionPlot.cpp:29-65 | takes the next track and appends its descriptor, begin and end; an open suspension ends with the trace |
| Exporter.TraceWriter.AddCallStack | src/main/cpp/utils/suspensionPlot.cpp:67-93 | appends an instant per sample with frames, on the given track, and takes no track |
| Exporter.TraceWriter.AddGcInfo | src/main/cpp/utils/suspensionPlot.cpp:95-124 | appends a track for every collection inside the trace, in list order |
| Exporter.TraceWriter.AddCoroutine | src/main/cpp/utils/suspensionPlot.cpp:140-227 | appends slice, samples and suspensions of one queue item on consecutive tracks |
| Exporter.TraceWriter.PushChildren | src/main/cpp/utils/suspensionPlot.cpp:228-238 | queues the children that are not visited, in order, each as the path extended by it |
| Exporter.TraceWriter.AddTraceInfo | src/main/cpp/utils/suspensionPlot.cpp:126-240 | the loop ends on every child map and appends the packets of exactly the specified items |
| Exporter.TraceWriter.WritePerfetto | src/main/cpp/utils/suspensionPlot.cpp:242-275 | the packets are the specified stream, well formed with as many tracks as the counter says, and show exactly the reachable coroutines |
| Profiling.Profiler.CreateCoroutineInfo | src/main/cpp/trace/traceStorage.cpp:96-103 | adds a running info unless the coroutine has one |
| Profiling.Profiler.CreateChildCoroutineStorage | src/main/cpp/trace/traceStorage.cpp:132-134 | adds an empty child list unless there is one |
| Profiling.Profiler.AddChildCoroutine | src/main/cpp/trace/traceStorage.cpp:128-130 | appends to the parent's list, if there is one |
| Profiling.Profiler.CalculateResourceUsage | src/main/cpp/profiler/profiler.cpp:172-209 | charges the time since the last resume and what the thread's counters rose, and remembers the counters; ChargedExactly says what that is |
| Profiling.Profiler.CoroutineCreated | src/main/cpp/profiler/profiler.cpp:386-397 | takes the step of the specification: an info, and under the thread's current coroutine a child and its list |
| Profiling.Profiler.CoroutineSuspended | src/main/cpp/profiler/profiler.cpp:400-427 | takes the step of the specification: charges a running coroutine once, clears its last resume, lists the suspension if there is a stack |
| Profiling.Profiler.FindOpen | src/main/cpp/trace/traceStorage.cpp:113-122 | finds the first suspension that has not ended |
| Profiling.Profiler.CoroutineResumed | src/main/cpp/profiler/profiler.cpp:429-445 | takes the step of the specification: sets current coroutine, counters and last resume and ends the first open suspension |
| Profiling.Profiler.CoroutineCompleted | src/main/cpp/profiler/profiler.cpp:447-456 | takes the step of the specification: ends the coroutine and charges it |
| Profiling.Profiler.TraceStart | src/main/cpp/profiler/profiler.cpp:211-226 | takes the step of the specification; fails exactly if the coroutine is traced already |
| Profiling.Profiler.AddOngoingTraceInfo | src/main/cpp/trace/traceStorage.cpp:79-81 | adds the trace unless its coroutine is traced, and says which |
| Profiling.Profiler.TakeOngoing | src/main/cpp/profiler/profiler.cpp:240-242 | a missing entry is created empty, and the entry removed is the one under the id the found entry holds |
| Profiling.Profiler.WriteTrace | src/main/cpp/profiler/profiler.cpp:243-252 | a file exactly if the trace is longer than the threshold, under the next number, of the storage as it is |
| Profiling.Profiler.TraceEnd | src/main/cpp/profiler/profiler.cpp:228-253 | takes the step of the specification, missing info included; writes a file exactly if the trace is longer than the threshold |
| Profiling.Profiler.AddProcessedTrace | src/main/cpp/trace/traceStorage.cpp:68-77 | appends to the coroutine's samples, creating the list |
| Profiling.Profiler.GcStart | src/main/cpp/trace/traceStorage.cpp:162-164 | lists a new open collection |
| Profiling.Profiler.GcFinish | src/main/cpp/trace/traceStorage.cpp:166-171 | ends the last collection, drops the first entry and lists the last again |
| Profiling.Profiler.MarkForClean | src/main/cpp/trace/traceStorage.cpp:148-153 | takes the run of the four mark events |
| Profiling.Profiler.Clean | src/main/cpp/trace/traceStorage.cpp:155-160 | takes the run of the four clean events |
| Profiling.Profiler.AddRawTrace | src/main/cpp/trace/traceStorage.cpp:54-62 | appends the record to the raw queue and touches nothing else |
| Profiling.Profiler.ProcessTraces | src/main/cpp/profiler/profiler.cpp:263-281 | empties the raw queue and takes the run of its samples; every coroutine's list becomes the old one followed by its raw samples in order, and no list appears without samples |
| Profiling.Profiler.HandleAll | src/main/cpp/profiler/profiler.cpp:211-456 | a new profiler that handles any well-defined sequence of events is in the state of their run; a finish of a collection finds one and a clean finds what was counted |
| Agent.Observe | src/main/cpp/profiler/profiler.cpp:211-456 | of that profiler: its files are well formed and numbered 0, 1, 2, ...; with fresh ids each shows every coroutine once; its slices are in order exactly if what it shows has ended; counters of traces agree with the map if starts and ends match |
| WallTime.StepLocal | src/main/cpp/profiler/profiler.cpp:386-456 | the times of a coroutine change only by its own events |
| WallTime.WallTimeExact | src/main/cpp/profiler/profiler.cpp:172-173 | in every run, wall time is the time the coroutine ran plus what trace ends, completions and suspensions while not running charged |
| WallTime.OverchargedIff | src/main/cpp/profiler/profiler.cpp:228-253 | if time passes between callbacks, the excess is zero exactly if no trace of the coroutine ends, it completes only while running, and it is not suspended while not running with a resume left |
| WallTime.WallTimeAtLeast | src/main/cpp/profiler/profiler.cpp:172-173 | under a clock that never goes back, wall time is never below running time |
| WallTime.WallTimeIff | src/main/cpp/profiler/profiler.cpp:400-456 | if time passes between callbacks, wall time equals running time exactly under that condition on the order of the coroutine's events |
| WallTime.TraceEndChargedTwice | src/main/cpp/profiler/profiler.cpp:238 | a trace that ends in a running coroutine makes the next suspension charge the same time again |
| WallTime.CompletedWhileSuspended | src/main/cpp/profiler/profiler.cpp:453-454 | a coroutine that completes while suspended is charged from time 0 |
| WallTime.ChainedSuspendsCountOnce | src/main/cpp/profiler/profiler.cpp:407-410 | of suspensions with no resume between them only the first charges: resume to first suspension |
| WallTime.SuspensionsEndInOrder | src/main/cpp/profiler/profiler.cpp:438-442 | in every state of every run ended suspensions precede open ones |
| InfoRecords.SuspensionsExact | src/main/cpp/profiler/profiler.cpp:411-442 | in every run a coroutine's suspensions are those reported, in order, with the reading of their begin and their stack, each ended by the resume whose turn it was |
| InfoRecords.LifeExact | src/main/cpp/profiler/profiler.cpp:447-456 | its start never changes and its end is the reading of its last completion |
| InfoRecords.InfoAppearsIff | src/main/cpp/trace/traceStorage.cpp:96-103 | an info appears exactly when the coroutine is created or a trace of a plain function starts on its thread, running and with nothing charged |
| WallTime.FirstOpenIsLast | src/main/cpp/trace/traceStorage.cpp:113-122 | in every run of suspensions and resumes in turn, the search while the coroutine sleeps finds the last suspension, begun at its last suspension |
| WallTime.SuspensionLaw | src/main/cpp/profiler/profiler.cpp:400-456 | running time, suspensions and the distance between a callback's two readings add up to the time since the first resume, at every point of a regular run; all suspensions but possibly the last have ended |
| WallTime.WallTimeConserved | src/main/cpp/profiler/profiler.cpp:400-456 | from a resume through any suspensions and resumes to completion, without a trace end of the coroutine and with one reading per callback, wall time plus suspensions is completion minus first resume |
| CpuTime.DifferenceTelescopes | src/main/cpp/profiler/profiler.cpp:141-146 | elapsed times from seconds and microseconds add up although microseconds may go down |
| CpuTime.ThreadStep | src/main/cpp/profiler/profiler.cpp:172-209 | an event charges exactly what the reading of its own thread rises |
| CpuTime.ThreadNotDoubleCounted | src/main/cpp/profiler/profiler.cpp:150-209 | in every run over any threads and coroutines with rising counters, what is charged from a thread never exceeds its counters |
| CpuTime.CoroutineUsage | src/main/cpp/profiler/profiler.cpp:196-208 | a coroutine's usage is the sum of what was charged to it, event by event as in ChargedExactly |
| CpuTime.ReadingExact | src/main/cpp/profiler/profiler.cpp:150-169 | after every run a thread's remembered counters are those of its last resume or charge |
| CpuTime.ChargedExactly | src/main/cpp/profiler/profiler.cpp:141-209 | after every run a charging event raises user time, system time, voluntary and involuntary switches each by its own counter's rise since the thread's last reading, in microseconds, and any other event none of them |
| CpuTime.StretchCharged | src/main/cpp/profiler/profiler.cpp:400-445 | a stretch from resume to suspension on one thread is charged exactly what the thread's counters rose over it |
| CpuTime.TotalOverCoroutines | src/main/cpp/profiler/profiler.cpp:172-209 | nothing charged is lost: it is in the infos or in infos that were cleaned |
| CpuTime.TotalOverThreads | src/main/cpp/profiler/profiler.cpp:172-209 | the totals over threads and over coroutines agree |
| ChildForest.ForestStep | src/main/cpp/profiler/profiler.cpp:386-397 | every event keeps the child map a forest in order of first appearance, if a created id is new |
| ChildForest.FreshRunsGiveForests | src/main/cpp/trace/traceStorage.cpp:128-134 | in every run with fresh ids the child map is such a forest, cleaning included |
| ChildForest.ChainsRise | src/main/cpp/trace/traceStorage.cpp:128-134 | in such a forest ids along a chain of children appear ever later |
| ChildForest.NoCycles | src/main/cpp/trace/traceStorage.cpp:128-134 | in every run with fresh ids no chain of children returns to its start |
| ChildForest.CreatedIsShown | src/main/cpp/profiler/profiler.cpp:386-397 | a coroutine created under one that a trace shows is shown too |
| ChildRecords.CurrentExact | src/main/cpp/profiler/profiler.cpp:400-448 | after every run a thread runs the coroutine last resumed on it, or none if one was suspended or completed since |
| ChildRecords.ChildrenExact | src/main/cpp/profiler/profiler.cpp:386-397 | in every run a child list grows by exactly the coroutines created while their thread runs its coroutine, in order |
| ChildRecords.ListAppearsIff | src/main/cpp/profiler/profiler.cpp:393-396 | a child list appears, empty, exactly when a trace of the coroutine starts or it is created under one that has a list |
| ChildForest.FilesShowOnce | src/main/cpp/utils/suspensionPlot.cpp:228-238 | every file of every run with fresh ids shows each reachable coroutine exactly once and no other |
| TraceCounts.CountStep | src/main/cpp/profiler/profiler.cpp:211-232 | a start raises and an end lowers the sum of the thread counters by one, on whichever threads |
| TraceCounts.BalanceStep | src/main/cpp/profiler/profiler.cpp:211-253 | an event keeps counters and ongoing traces in step exactly if it is matched |
| TraceCounts.BalancedIffMatched | src/main/cpp/profiler/profiler.cpp:211-253 | throughout a run the counters over all threads add up to the number of ongoing traces exactly if no start meets an ongoing trace and no end misses one or its info |
| TraceCounts.BalancedFromStart | src/main/cpp/profiler/profiler.cpp:211-253 | the same from the start of the agent |
| TraceCounts.UnmatchedEndLeavesEntry | src/main/cpp/trace/traceStorage.cpp:83-89 | in every run, an end without a start leaves an entry that no later events at all remove |
| TraceCounts.CreatedEntryIff | src/main/cpp/profiler/profiler.cpp:233-242 | in every run from the start, an entry without its coroutine's id is there exactly if a trace of the coroutine ended, with an info, that was not started |
| TraceCounts.CreatedEntryStays | src/main/cpp/trace/traceStorage.cpp:83-89 | an entry that a lookup created stays through every continuation of a run |
| TraceCounts.SecondStartKeepsTrace | src/main/cpp/trace/traceStorage.cpp:79-81 | a second start leaves the ongoing trace as it is |
| TraceCounts.FileNumbers | src/main/cpp/profiler/profiler.cpp:247-251 | in every run files are numbered 0, 1, 2, ... without repetition |
| FileRecords.OngoingExact | src/main/cpp/profiler/profiler.cpp:211-242 | after every run the map of ongoing traces holds, for every coroutine, exactly what the starts and ends so far say |
| FileRecords.FilesExact | src/main/cpp/profiler/profiler.cpp:233-252 | after every run an event writes a file exactly if it ends a trace of a coroutine with an info that lasted longer than the threshold; the file holds that trace, under the next number, and the storage with the charge made |
| Cleaning.CleanedExactly | src/main/cpp/trace/traceStorage.cpp:148-160 | in every run a clean removes from each of the three maps exactly the keys that were there at a mark since the clean before it, and no other event removes a key |
| Cleaning.SurvivorsUnchanged | src/main/cpp/trace/traceStorage.cpp:155-160 | what a clean leaves keeps its value |
| GcEvents.ListLength | src/main/cpp/trace/traceStorage.cpp:34-43 | with marks and cleans in turn the list has an entry for every collection since the mark of the last clean, and a clean always finds as many as were counted |
| GcEvents.FinishFindsIff | src/main/cpp/trace/traceStorage.cpp:166-171 | a finish finds an entry exactly if some collection was started that no mark and clean have followed |
| GcEvents.FinishOnEmptyList | src/main/cpp/trace/traceStorage.cpp:166-171 | a start, a mark and a clean lead to a finish on an empty list |
| GcEvents.GcListExact | src/main/cpp/trace/traceStorage.cpp:155-171 | what the list holds after any well-defined run, cleaning included: the last entries of 0, 0, 1, 1, 2, 2, ..., as many as collections started since the mark of the last clean |
| GcEvents.CollectionsExact | src/main/cpp/trace/traceStorage.cpp:162-171 | in every well-defined run each collection has the reading of its start and of its own finish, if it has finished |
| GcEvents.ListedHaveEnded | src/main/cpp/trace/traceStorage.cpp:166-171 | every listed collection has ended, apart from the last started one while it runs |
| GcEvents.ListedOnceIff | src/main/cpp/trace/traceStorage.cpp:162-171 | the collections since that mark are listed once each exactly if there is at most one |
| GcEvents.FirstLostLastDoubled | src/main/cpp/trace/traceStorage.cpp:166-171 | from two on the first of them is lost and the last listed twice |
| GcRace.LengthIsBalance | src/main/cpp/trace/traceStorage.cpp:155-171 | with the four calls of a finish, marks and cleans interleaved, the list is as long as pushes less pops since the mark of the last clean |
| GcRace.PopMeetsEmptyIff | src/main/cpp/trace/traceStorage.cpp:166-171 | the pop of a finish meets an empty list exactly if a clean came between its test and its pop and as much was popped as pushed since the mark of that clean |
| GcRace.BackMeetsEmptyIff | src/main/cpp/trace/traceStorage.cpp:167 | the first call of a finish meets an empty list exactly if nothing is left of what was pushed |
| GcRace.UndisturbedFinish | src/main/cpp/trace/traceStorage.cpp:166-171 | undisturbed, the four calls drop the first element and list the last one again |
| GcRace.CleanRunsOutIff | src/main/cpp/concurrentCollections/concurrentList.h:112-118 | a clean finds too few elements exactly if it falls between the pop and the push of a finish and one more was popped than pushed since the mark |
| GcRace.PopMeetsEmpty | src/main/cpp/trace/traceStorage.cpp:166-171 | a run with a clean between the test and the pop of a finish |
| GcRace.CleanRunsOut | src/main/cpp/trace/traceStorage.cpp:155-171 | a run with a clean between the pop and the push of a finish |
| FileTimes.RunSpans | src/main/cpp/profiler/profiler.cpp:211-253 | under a positive clock that never goes back every record of every state and file begins by now and, if it has ended, ends after it began |
| FileTimes.FileSlicesOrderedIff | src/main/cpp/utils/suspensionPlot.cpp:162-205 | in every file of every run all slices begin no later than they end exactly if no shown child and no shown collection is unfinished; open suspensions do no harm |
| FileTimes.UnfinishedChildWritten | src/main/cpp/utils/suspensionPlot.cpp:201-205 | a trace that ends while a child is alive writes the child's slice with end 0 |
| FileTimes.UnfinishedCollectionWritten | src/main/cpp/utils/suspensionPlot.cpp:115-121 | a trace that ends during a collection writes its slice with end 0 |
| CleanableMap.ConcurrentCleanableMap.InsertEntry | src/main/cpp/concurrentCollections/concurrentMap.h:23-26 | adds an absent key, reports whether it did, and changes nothing otherwise |
| CleanableMap.ConcurrentCleanableMap.GetEntry | src/main/cpp/concurrentCollections/concurrentMap.h:28-31 | a lookup of a missing key creates it with the default value |
| CleanableMap.ConcurrentCleanableMap.EraseEntry | src/main/cpp/concurrentCollections/concurrentMap.h:62-69 | removes the key, reports whether it was there, leaves the marks |
| CleanableMap.ConcurrentCleanableMap.MarkCurrentValuesForClean | src/main/cpp/concurrentCollections/concurrentMap.h:71-76 | appends every present key to the clean list |
| CleanableMap.ConcurrentCleanableMap.CleanMarked | src/main/cpp/concurrentCollections/concurrentMap.h:78-84 | the popping loop removes exactly the marked keys and empties the clean list |
| CleanableMap.CleanKeepsExactly | src/main/cpp/trace/traceStorage.cpp:34-43 | in every interleaving with the mark, clean loop, a clean keeps an entry exactly if its key was absent at the mark before it |
| CleanableMap.SurvivorsAreNew | src/main/cpp/concurrentCollections/concurrentMap.h:71-84 | after a clean the map holds only entries inserted since that mark |
| CleanableMap.RemovedIsOldIff | src/main/cpp/concurrentCollections/concurrentMap.h:62-84 | a removed entry has lived through the whole interval exactly if its key was not erased in between |
| CleanableMap.ReinsertedIsCleaned | src/main/cpp/concurrentCollections/concurrentMap.h:62-84 | a key erased and inserted again after the mark loses its new entry at the clean |
| StorageRaces.ActMissesIff | src/main/cpp/trace/traceStorage.cpp:68-77 | over all interleavings of tests, lookups, insertions, marks and cleans by any threads, the second call of a lookup or an append misses the key its test found exactly if a clean of the marked key fell between the two and nothing has created the key since |
| StorageRaces.NullIff | src/main/cpp/trace/traceStorage.cpp:96-111 | over all interleavings, an entry is a null pointer exactly if a lookup that missed its key made it and it has stayed since; an insertion does not replace it |
| StorageRaces.NullEntryStays | src/main/cpp/trace/traceStorage.cpp:100-108 | a run in which the cleaner runs between the two calls of a lookup and a later creation finds the null entry in its place |
| ConcurrentList.List.PopFront | src/main/cpp/concurrentCollections/concurrentList.h:43-57 | takes the first element, or answers null for an empty list |
| ConcurrentList.List.Find | src/main/cpp/concurrentCollections/concurrentList.h:97-105 | the first element that satisfies the predicate, null exactly if none does |
| ConcurrentList.List.ForEachFiltered | src/main/cpp/concurrentCollections/concurrentList.h:88-95 | visits exactly the elements that pass the filter, in order |
| ConcurrentList.List.Clean | src/main/cpp/concurrentCollections/concurrentList.h:112-118 | drops as many elements from the front as were counted at the mark |
| ConcurrentList.FirstInFirstOut | src/main/cpp/concurrentCollections/concurrentList.h:23-57 | after any pushes and pops the list is what was pushed less as many of the oldest |
| ConcurrentList.CleanAfterMark | src/main/cpp/concurrentCollections/concurrentList.h:107-118 | a clean leaves what was pushed since the mark exactly if nothing was popped since; else it removes one new element for every pop |
| ConcurrentList.CleanRemovesNew | src/main/cpp/concurrentCollections/concurrentList.h:107-118 | after one pop and two pushes a clean removes an element pushed after the mark |
| ConcurrentList.CleanFindsEnoughIff | src/main/cpp/concurrentCollections/concurrentList.h:107-118 | a clean finds as many elements as were counted exactly if no more were popped than pushed since the mark |
| ConcurrentList.OneConsumerSafe | src/main/cpp/concurrentCollections/concurrentList.h:43-57 | with one consumer and any producers, over all interleavings of check and pop, the pop never meets an empty list and what was taken is a prefix of what was pushed |
| ConcurrentList.CheckAnswers | src/main/cpp/concurrentCollections/concurrentList.h:45-50 | with one consumer, null is answered exactly if everything pushed so far has been popped |
| ConcurrentList.TwoConsumersUnsafe | src/main/cpp/concurrentCollections/concurrentList.h:43-57 | any two threads can both pass the check on one element |
| ConcurrentList.SafeIffOneConsumer | src/main/cpp/concurrentCollections/concurrentList.h:43-57 | for every set of consumers, the pop never meets an empty list in any interleaving exactly if the set has at most one member |
| Handshake.NextKeepsInv | src/main/cpp/profiler/profiler.cpp:54-67 | every step of profiler, handler or program keeps the ownership invariant, also the steps of a scan that goes on after a stop |
| Handshake.InvAlways | src/main/cpp/profiler/profiler.cpp:95-139 | the invariant holds over all interleavings in which only the profiler sends the signal |
| Handshake.HandlerOwnsBuffer | src/main/cpp/profiler/profiler.cpp:103-115 | while a handler works the profiler waits on that same buffer, which is published, not ready and of the handler's own thread; at most one handler works |
| Handshake.SpinNeverSeesNull | src/main/cpp/profiler/profiler.cpp:57-58 | the handler's loop on the shared pointer never finds null |
| Handshake.StoredIsSampled | src/main/cpp/profiler/profiler.cpp:59-66 | every stored sample is what its thread was doing when it was sampled, in order, none twice, none missing but the one on its way |
| Handshake.StoredFromActions | src/main/cpp/profiler/profiler.cpp:54-67 | over all interleavings the stored samples are, in order, those of the ready flags that were set, read off the actions of the run |
| Handshake.StoredSampleMeans | src/main/cpp/profiler/profiler.cpp:59-66 | every stored sample has a ready flag that its own thread set, the stack that thread last had, and its coroutine, or the thread's hash if it ran none |
| Handshake.NoReadWhileWritten | src/main/cpp/profiler/profiler.cpp:109-115 | the profiler cannot wake, withdraw, store or allocate while a handler writes |
| Handshake.ServedAlways | src/main/cpp/profiler/profiler.cpp:109-111 | until a stop, the thread whose buffer is waited for has its signal pending or is in the handler |
| Handshake.NeverStuck | src/main/cpp/profiler/profiler.cpp:95-132 | until a stop, some step of the protocol is possible |
| Handshake.StuckIff | src/main/cpp/profiler/profiler.cpp:95-132 | in every reachable state a step of the protocol is possible exactly if the profiler has neither finished nor is stranded, or a handler is about to leave |
| Handshake.FinishedIff | src/main/cpp/profiler/profiler.cpp:100-128 | the profiler has finished exactly if it tested the active flag at the head of its loop after a stop |
| Handshake.StrandedIff | src/main/cpp/profiler/profiler.cpp:54-56 | over all interleavings, a waiting profiler is stranded exactly if the handler of the thread it waits for tested the active flag after a stop, since the signal |
| Handshake.StrandedForever | src/main/cpp/profiler/profiler.cpp:111 | a stranded profiler waits forever and stores nothing more |
| Handshake.StopStrandsProfiler | src/main/cpp/profiler/profiler.cpp:134-139 | a stop between the signal and the handler's test strands the profiler |
| Handshake.StopInScanStrandsProfiler | src/main/cpp/profiler/profiler.cpp:100-116 | so does a stop in the middle of a scan, which goes on to signal the next thread |
| Pipeline.NothingLost | src/main/cpp/profiler/profiler.cpp:263-281 | over every run, with the pop and the filing of a record as separate steps and cleans between them, a coroutine's processed samples and those not filed yet are all that were added for it, in order, less the oldest, which the cleaner dropped |
| Pipeline.SamplesStaySorted | src/main/cpp/trace/traceStorage.cpp:54-77 | over the same runs, records added in order of time leave every list in that order |
| Pipeline.FiledSampleMeans | src/main/cpp/profiler/profiler.cpp:266-278 | over the same runs, the k-th sample of a coroutine has the time of the k-th record added for it after those dropped, and the frame of each of its instructions |
| Unwinder.FramesInStack | src/main/cpp/profiler/unwind/linux_aarch64.inline.hpp:15-17 | along the chain every word read lies in the stack, and the address of the second word does not wrap around |
| Unwinder.FramePointersRise | src/main/cpp/profiler/unwind/linux_aarch64.inline.hpp:65-67 | frame pointers never decrease |
| Unwinder.FrameCountUnique | src/main/cpp/profiler/unwind/linux_aarch64.inline.hpp:29-71 | the stopping conditions determine the number of frames |
| Unwinder.UnwindStack | src/main/cpp/profiler/unwind/linux_aarch64.inline.hpp:19-72 | for every memory content and registers, written out on both: nothing is recorded exactly if the frame pointer or pc is unusable; else the walk goes along the frame records as long as the tests hold, every Java frame has a method and there is room, and no further; each entry is the method id, or the instruction and frame pointers; the rest of the buffer is untouched and the walk itself reads only words of the stack |
| Unwinder.OnlyLastUnresolved | src/main/cpp/profiler/unwind/linux_aarch64.inline.hpp:41-47 | only the last entry can be a Java frame without a method |
| Unwinder.FollowsCallChainIff | src/main/cpp/profiler/unwind/linux_aarch64.inline.hpp:63-69 | the instruction pointers follow the frame records of section "The Frame Pointer" of AAPCS64 exactly if the link register holds the innermost record's return address or there is one frame |
| Unwinder.LinkRegisterDiffers | src/main/cpp/profiler/unwind/linux_aarch64.inline.hpp:63-69 | registers and a stack for which the second instruction pointer is not that of the frame record |
| CodeCache.FindBlockStart | src/main/cpp/vm/jvmCodeCache.cpp:39-46 | the walk over the segment map ends, never passes the block's start, and finds it |
| CodeCache.SearchBlocks | src/main/cpp/vm/jvmCodeCache.cpp:37-46 | the plain search for the block that contains a segment, the reference for the walk |
| CodeCache.WalkAgreesWithSearch | src/main/cpp/vm/jvmCodeCache.cpp:37-46 | the walk and the search agree on every segment of every layout, on the one block that contains it |
| CodeCache.SegmentInBlock | src/main/cpp/vm/jvmCodeCache.cpp:37 | an address is in a block exactly if its shifted offset is among the block's segments |
| CodeCache.PowerLaw | src/main/cpp/vm/jvmCodeCache.cpp:37-47 | the segment size is a power of two, which is what the shifts divide and multiply by |
| CodeCache.FindBlockAddress | src/main/cpp/vm/jvmCodeCache.cpp:35-47 | the start address of the block that contains the instruction pointer |
| CodeCache.IsJavaFrame | src/main/cpp/vm/jvmCodeCache.cpp:11-23 | true exactly if some heap contains the address |
| CodeCache.ReadId | src/main/cpp/vm/jvmCodeCache.cpp:84-88 | the id cache is read exactly if it is long enough, and within its slots |
| CodeCache.FirstMethodUnique | src/main/cpp/vm/jvmCodeCache.cpp:28-92 | at most one block is the first with a method for an address |
| CodeCache.HasMethodMeans | src/main/cpp/vm/jvmCodeCache.cpp:47-76 | a heap has a method for an address exactly if the blob behind the header of the block there is named Interpreter or has nmethod in its name |
| CodeCache.GetJMethodId | src/main/cpp/vm/jvmCodeCache.cpp:25-94 | word by word: in the first heap with a method for the address, compiled code leads from the blob's method word, and the interpreter from the third word below the frame pointer with every pointer probed, over const method, pool, holder and cache to the id, 0 if the cache is too short; null if there is none or the frame pointer is invalid; an id implies a Java frame |
| ArgsParser.ParseProfilerOptions | src/main/cpp/utils/argsParser.cpp:12-67 | on every string, the loop ends and agrees with splitting at commas and each item at its first '=', errors included |
| ArgsParser.OneItem | src/main/cpp/utils/argsParser.cpp:24-51 | one turn of the loop, unsigned wrap-around in the value's length included, reads one item |
| ArgsParser.EqualsInItems | src/main/cpp/utils/argsParser.cpp:28-32 | an '=' is in the string exactly if it is in an item |
| ArgsParser.CommaInKey | src/main/cpp/utils/argsParser.cpp:33-50 | a key that swallows a comma has no effect |
| ArgsParser.ParsePrinted | src/main/cpp/utils/argsParser.cpp:12-67 | parsing undoes printing for every non-empty list of pairs that can be printed: it succeeds exactly if every value is good, replaced ones included, and a method is given; class and method are the last method value split at its first dot, and every other option its last value or the default |
| ArgsParser.LastValueWins | src/main/cpp/utils/argsParser.cpp:38-50 | of several values for a key the last counts; the method is split at its first '.', the threshold is scaled to nanoseconds |
| ArgsParser.SetAllOkIff | src/main/cpp/utils/argsParser.cpp:38-50 | options can be set exactly if every method, period and threshold value parses |
| ArgsParser.MissingEqualsReportedIff | src/main/cpp/utils/argsParser.cpp:28-32 | if no value is bad, a string is rejected for an item without '=' exactly if its last item is one |
| ArgsParser.ItemSkipped | src/main/cpp/utils/argsParser.cpp:28-51 | an item without '=' before another one goes unnoticed |
| ArgsParser.ParseThreshold | src/main/cpp/utils/argsParser.cpp:84-86 | the scaled threshold fits in 64 bits |
| ArgsParser.StoiOfText | src/main/cpp/utils/argsParser.cpp:80-82 | every 32-bit number can be given as an option |
| ArgsParser.StoiReads | src/main/cpp/utils/argsParser.cpp:80-86 | a number is read from white space, a sign and digits, up to the first other character, if it fits in 32 bits |
| ArgsParser.StoiSplits | src/main/cpp/utils/argsParser.cpp:80-86 | every text that is read as a number has that form |

## Left out

- The callbacks take effect in one step each in `Lifecycle`; their locked calls are interleaved only for `pop_front`, the filing of samples, the lookups and insertions of the maps, the finish of a collection and the sampling handshake.
- Infos and suspensions are values in maps, so an info that a callback still holds after the cleaner removed it is not captured; collections are references, because their aliasing matters.
- 64-bit overflow of times, counters and track numbers.
- `findThread` is taken to find the calling thread; the null pointer it yields for an unknown one is not modelled.
- `__APPLE__` branches of the resource accounting, which charge no context switches.
- Memory order: all steps are sequentially consistent. The lifetime of the ready flag after the hand-off, and sleeping, are not modelled.
- Threads that exit between the snapshot of the thread list and the signal, the selection of threads by their counter of running traces (the handshake allows any thread to be chosen), and a second start of the profiler after a stop.
- Generated protobuf code, serialisation, file output and logging.
- JNI and JVMTI glue, class instrumentation, jar loading, method-name resolution and symbol lookup.
- The x86_64 and Apple unwinders and the reading of HotSpot's type tables; offsets and heap layouts are given data.
- `ConcurrentVector` (a locked vector) and the list operations `push_front`, `pop_back`, `snapshot` and `size`: one locked call each on the underlying container, and the modelled code does not call them except for the snapshot of threads.
- Profiling.Profiler.GcFinish: requires a collection in the list, because `back` of an empty list is undefined; `FinishFindsIff` says when there is one.
- Profiling.Profiler.Clean: requires as many listed collections as were counted at the mark, because popping an empty list is undefined; `ListLength` shows that the cleaner's loop always finds them. The four marks and cleans are separate events in the run theorems.
- ConcurrentList.List.Clean: the same requirement; `CleanFindsEnoughIff` says when it is met.
- Unwinder.UnwindStack: requires stack bounds that are multiples of 8 and not 0, and a buffer with room for an entry; the caller always passes 30. The reads behind `methodId` are not among those it speaks of: for an interpreted frame the lookup reads the third word below the frame pointer.
- CodeCache.GetJMethodId: requires segment maps that fit a block layout and an address that lies in a block of each heap that contains it; in a free segment the walk has no meaning.
- GcEvents.GcListExact: stated for runs in which collections start and finish in turn and no finish meets an empty list, after which the list is undefined.
